/** The whole-table transforms the normalizer is built from, as functions on
    sequences of rows: row filters (`dropna`), `explode`, keep-first
    de-duplication (`drop_duplicates`) and the inner join (`merge`). */
module TableOps {

  /** A row filter such as `dropna(subset=...)`: the rows `keep` accepts. */
  function Filter<T(!new)>(s: seq<T>, keep: T -> bool): (r: seq<T>)
    ensures |r| <= |s|
    ensures forall x :: x in r <==> x in s && keep(x)
  {
    if s == [] then [] else (if keep(s[0]) then [s[0]] else []) + Filter(s[1..], keep)
  }

  /** Filtering works row by row: the rows kept from `a + b` are those kept
      from `a`, in order, followed by those kept from `b`. */
  lemma {:induction false} FilterAppend<T(!new)>(a: seq<T>, b: seq<T>, keep: T -> bool)
    ensures Filter(a + b, keep) == Filter(a, keep) + Filter(b, keep)
    decreases |a|
  {
    if a == [] {
      assert a + b == b;
    } else {
      assert (a + b)[0] == a[0] && (a + b)[1..] == a[1..] + b;
      FilterAppend(a[1..], b, keep);
    }
  }

  /** Column projection: one output row per input row, in order. */
  function Project<T, U>(s: seq<T>, f: T -> U): (r: seq<U>)
    ensures |r| == |s| && forall i :: 0 <= i < |s| ==> r[i] == f(s[i])
  {
    seq(|s|, i requires 0 <= i < |s| => f(s[i]))
  }

  /** The pairs of one row with each item of its list, in list order. */
  function ExplodeRow<T(!new), U(!new)>(x: T, items: seq<U>): (r: seq<(T, U)>)
    ensures |r| == |items|
    ensures forall k :: 0 <= k < |items| ==> r[k] == (x, items[k])
    ensures forall p :: p in r <==> p.0 == x && p.1 in items
  {
    if items == [] then [] else [(x, items[0])] + ExplodeRow(x, items[1..])
  }

  /** pandas `explode`: each row becomes one row per item of its list, row by row. */
  function Explode<T(!new), U(!new)>(s: seq<T>, items: T -> seq<U>): (r: seq<(T, U)>)
    ensures forall p :: p in r <==> p.0 in s && p.1 in items(p.0)
  {
    if s == [] then [] else ExplodeRow(s[0], items(s[0])) + Explode(s[1..], items)
  }

  /** Exploding works row by row: the pairs of `a + b` are those of `a`, in
      order, followed by those of `b`. */
  lemma {:induction false} ExplodeAppend<T(!new), U(!new)>(a: seq<T>, b: seq<T>, items: T -> seq<U>)
    ensures Explode(a + b, items) == Explode(a, items) + Explode(b, items)
    decreases |a|
  {
    if a == [] {
      assert a + b == b;
    } else {
      assert (a + b)[0] == a[0] && (a + b)[1..] == a[1..] + b;
      ExplodeAppend(a[1..], b, items);
    }
  }

  /** A single row explodes into its own pairs, item by item. */
  lemma ExplodeOne<T(!new), U(!new)>(x: T, items: T -> seq<U>)
    ensures Explode([x], items) == ExplodeRow(x, items(x))
  {
    assert [x][1..] == [];
  }

  /** Whole-row identity, the key of a `drop_duplicates()` without a subset. */
  function Whole<T>(x: T): T { x }

  /** The set of keys of the rows of `s`. */
  function KeySet<T(==), K(==)>(s: seq<T>, key: T -> K): set<K> {
    set x | x in s :: key(x)
  }

  /** No two rows of `s` share a key. */
  predicate DistinctKeys<T, K(==)>(s: seq<T>, key: T -> K) {
    forall i, j :: 0 <= i < j < |s| ==> key(s[i]) != key(s[j])
  }

  /** `drop_duplicates(subset=key)` with pandas' default keep='first'. */
  function DedupKeepFirst<T(==), K(==)>(s: seq<T>, key: T -> K): (r: seq<T>)
    ensures forall x :: x in r ==> x in s
    ensures KeySet(r, key) == KeySet(s, key)
    ensures DistinctKeys(r, key)
    decreases |s|
  {
    if s == [] then []
    else
      var init := DedupKeepFirst(s[..|s| - 1], key);
      var last := s[|s| - 1];
      assert KeySet(s, key) == KeySet(s[..|s| - 1], key) + {key(last)} by {
        assert s == s[..|s| - 1] + [last];
      }
      if key(last) in KeySet(s[..|s| - 1], key) then init
      else
        assert KeySet(init + [last], key) == KeySet(init, key) + {key(last)};
        init + [last]
  }

  /** De-duplicating whole rows keeps exactly the distinct rows. */
  lemma DedupWholeMembers<T>(s: seq<T>)
    ensures forall x :: x in DedupKeepFirst(s, Whole) <==> x in s
  {
    var r := DedupKeepFirst(s, Whole);
    forall x | x in s ensures x in r {
      assert Whole(x) in KeySet(s, Whole);
      var y :| y in r && Whole(y) == Whole(x);
    }
  }

  /** Row `i` is the first row of `s` with its key. */
  predicate IsFirst<T, K(==)>(s: seq<T>, key: T -> K, i: nat)
    requires i < |s|
  {
    forall j :: 0 <= j < i ==> key(s[j]) != key(s[i])
  }

  /** When the filter looks only at the key, dropping rows and then
      de-duplicating keeps the same rows as de-duplicating and then dropping. */
  lemma {:induction false} DedupAfterFilter<T(!new), K>(s: seq<T>, keep: T -> bool, key: T -> K)
    requires KeyDecides(keep, key)
    ensures DedupKeepFirst(Filter(s, keep), key) == Filter(DedupKeepFirst(s, key), keep)
    decreases |s|
  {
    if s != [] {
      var init, last := s[..|s| - 1], s[|s| - 1];
      var d, f := DedupKeepFirst(init, key), Filter(init, keep);
      var seen := key(last) in KeySet(init, key);
      var one := if keep(last) then [last] else [];
      FilterOne(last, keep);
      assert Filter(s, keep) == f + one by {
        assert s == init + [last];
        FilterAppend(init, [last], keep);
      }
      assert Filter(DedupKeepFirst(s, key), keep) == Filter(d, keep) + (if seen then [] else one) by {
        DedupSnoc(s, key);
        if seen {
          assert DedupKeepFirst(s, key) == d;
          assert Filter(d, keep) + [] == Filter(d, keep);
        } else {
          assert DedupKeepFirst(s, key) == d + [last];
          FilterAppend(d, [last], keep);
        }
      }
      assert DedupKeepFirst(f, key) == Filter(d, keep) by {
        DedupAfterFilter(init, keep, key);
      }
      var lhs := DedupKeepFirst(Filter(s, keep), key);
      var rhs := Filter(DedupKeepFirst(s, key), keep);
      if keep(last) {
        assert key(last) in KeySet(f, key) <==> seen by {
          FilterSameKey(init, last, keep, key);
        }
        assert lhs == DedupKeepFirst(f, key) + (if seen then [] else [last]) by {
          assert Filter(s, keep) == f + [last];
          DedupSnoc(f + [last], key);
          assert (f + [last])[..|f + [last]| - 1] == f;
        }
        assert rhs == Filter(d, keep) + (if seen then [] else [last]);
      } else {
        assert lhs == DedupKeepFirst(f, key) by {
          assert Filter(s, keep) == f + [];
          assert f + [] == f;
        }
        assert rhs == Filter(d, keep) + [];
      }
    }
  }

  /** Whether `keep` accepts a row is decided by the row's key. */
  ghost predicate KeyDecides<T(!new), K>(keep: T -> bool, key: T -> K) {
    forall x, y :: key(x) == key(y) ==> keep(x) == keep(y)
  }

  lemma FilterOne<T(!new)>(x: T, keep: T -> bool)
    ensures Filter([x], keep) == if keep(x) then [x] else []
  {
    assert [x][1..] == [];
  }

  /** One more row at the end is kept exactly when its key is new. */
  lemma DedupSnoc<T, K>(s: seq<T>, key: T -> K)
    requires s != []
    ensures DedupKeepFirst(s, key) ==
      if key(s[|s| - 1]) in KeySet(s[..|s| - 1], key) then DedupKeepFirst(s[..|s| - 1], key)
      else DedupKeepFirst(s[..|s| - 1], key) + [s[|s| - 1]]
  {
  }

  lemma FilterSameKey<T(!new), K>(s: seq<T>, x: T, keep: T -> bool, key: T -> K)
    requires KeyDecides(keep, key)
    requires keep(x)
    ensures key(x) in KeySet(Filter(s, keep), key) <==> key(x) in KeySet(s, key)
  {
    if key(x) in KeySet(s, key) {
      var y :| y in s && key(y) == key(x);
      assert y in Filter(s, keep);
    }
  }

  /** The positions of the first row of each key, in increasing order: an
      independent statement of what keep='first' keeps. */
  function FirstIndices<T, K(==)>(s: seq<T>, key: T -> K): (idx: seq<nat>)
    ensures forall m :: 0 <= m < |idx| ==> idx[m] < |s|
    ensures forall m, m' :: 0 <= m < m' < |idx| ==> idx[m] < idx[m']
    ensures forall i :: 0 <= i < |s| ==> (i in idx <==> IsFirst(s, key, i))
    decreases |s|
  {
    if s == [] then []
    else
      var init := s[..|s| - 1];
      assert forall i :: 0 <= i < |init| ==> (IsFirst(s, key, i) <==> IsFirst(init, key, i));
      FirstIndices(init, key) + (if IsFirst(s, key, |s| - 1) then [|s| - 1] else [])
  }

  /** Keep-first de-duplication keeps exactly the first row of each key, in
      their original relative order. */
  lemma {:induction false} DedupKeepsFirstOccurrences<T, K>(s: seq<T>, key: T -> K)
    ensures |DedupKeepFirst(s, key)| == |FirstIndices(s, key)|
    ensures forall m :: 0 <= m < |DedupKeepFirst(s, key)| ==>
      DedupKeepFirst(s, key)[m] == s[FirstIndices(s, key)[m]]
    decreases |s|
  {
    if s != [] {
      var init := s[..|s| - 1];
      var last := s[|s| - 1];
      DedupKeepsFirstOccurrences(init, key);
      var first := IsFirst(s, key, |s| - 1);
      assert first <==> key(last) !in KeySet(init, key) by {
        if key(last) in KeySet(init, key) {
          var x :| x in init && key(x) == key(last);
          var j :| 0 <= j < |init| && init[j] == x;
          assert key(s[j]) == key(s[|s| - 1]);
        }
      }
      var r, ri := DedupKeepFirst(s, key), DedupKeepFirst(init, key);
      var idx, ii := FirstIndices(s, key), FirstIndices(init, key);
      assert r == ri + (if first then [last] else []);
      assert idx == ii + (if first then [|s| - 1] else []);
      forall m | 0 <= m < |r|
        ensures r[m] == s[idx[m]]
      {
        if m < |ri| {
          assert r[m] == ri[m] && idx[m] == ii[m];
          assert ri[m] == init[ii[m]];
        }
      }
    }
  }

  /** A filter that accepts every row changes nothing. */
  lemma {:induction false} FilterKeepsAll<T(!new)>(s: seq<T>, keep: T -> bool)
    requires forall i :: 0 <= i < |s| ==> keep(s[i])
    ensures Filter(s, keep) == s
    decreases |s|
  {
    if s != [] {
      FilterKeepsAll(s[1..], keep);
    }
  }

  /** Two tables whose rows have the same keys, position by position, have
      their first rows of each key at the same positions. */
  lemma {:induction false} FirstIndicesSameKeys<T, U, K>(s: seq<T>, t: seq<U>, ks: T -> K, kt: U -> K)
    requires |s| == |t|
    requires forall i :: 0 <= i < |s| ==> ks(s[i]) == kt(t[i])
    ensures FirstIndices(s, ks) == FirstIndices(t, kt)
    decreases |s|
  {
    if s != [] {
      var n := |s| - 1;
      FirstIndicesSameKeys(s[..n], t[..n], ks, kt);
      assert IsFirst(s, ks, n) <==> IsFirst(t, kt, n) by {
        assert forall j :: 0 <= j < n ==> (ks(s[j]) != ks(s[n]) <==> kt(t[j]) != kt(t[n]));
      }
      FirstIndicesSnoc(s, ks);
      FirstIndicesSnoc(t, kt);
    }
  }

  /** One more row at the end adds its position exactly when it is the first of its key. */
  lemma FirstIndicesSnoc<T, K>(s: seq<T>, key: T -> K)
    requires s != []
    ensures FirstIndices(s, key) ==
      FirstIndices(s[..|s| - 1], key) + (if IsFirst(s, key, |s| - 1) then [|s| - 1] else [])
  {
  }

  /** The pairs of `l` with each row of `right` whose key equals its key, in order. */
  function Matches<L(!new), R(!new), K(==)>(l: L, right: seq<R>, lk: L -> K, rk: R -> K): (r: seq<(L, R)>)
    ensures forall p :: p in r <==> p.0 == l && p.1 in right && lk(l) == rk(p.1)
  {
    if right == [] then []
    else (if lk(l) == rk(right[0]) then [(l, right[0])] else []) + Matches(l, right[1..], lk, rk)
  }

  /** pandas `merge(how='inner')`: for each left row in order, one pair per
      matching right row; left rows without a match are dropped. */
  function InnerJoin<L(!new), R(!new), K(==)>(left: seq<L>, right: seq<R>, lk: L -> K, rk: R -> K): (r: seq<(L, R)>)
    ensures forall p :: p in r <==> p.0 in left && p.1 in right && lk(p.0) == rk(p.1)
  {
    if left == [] then [] else Matches(left[0], right, lk, rk) + InnerJoin(left[1..], right, lk, rk)
  }

  lemma NoMatches<L(!new), R(!new), K>(l: L, right: seq<R>, lk: L -> K, rk: R -> K)
    requires forall x :: x in right ==> rk(x) != lk(l)
    ensures Matches(l, right, lk, rk) == []
  {
  }

  /** Against a table with distinct keys, a row whose key is present matches exactly once. */
  lemma {:induction false} MatchesUnique<L(!new), R(!new), K>(l: L, right: seq<R>, lk: L -> K, rk: R -> K)
    requires DistinctKeys(right, rk)
    requires lk(l) in KeySet(right, rk)
    ensures |Matches(l, right, lk, rk)| == 1
    ensures Matches(l, right, lk, rk)[0].1 in right
    ensures rk(Matches(l, right, lk, rk)[0].1) == lk(l)
  {
    if lk(l) == rk(right[0]) {
      NoMatches(l, right[1..], lk, rk);
    } else {
      assert lk(l) in KeySet(right[1..], rk) by {
        var x :| x in right && rk(x) == lk(l);
        assert x != right[0];
        assert x in right[1..];
      }
      MatchesUnique(l, right[1..], lk, rk);
    }
  }

  /** Joining on a key that every left row finds exactly once loses no row and
      adds none: row i of the result pairs left[i] with its match. */
  lemma {:induction false} JoinOnUniqueKey<L(!new), R(!new), K>(left: seq<L>, right: seq<R>, lk: L -> K, rk: R -> K)
    requires DistinctKeys(right, rk)
    requires forall l :: l in left ==> lk(l) in KeySet(right, rk)
    ensures |InnerJoin(left, right, lk, rk)| == |left|
    ensures forall i :: 0 <= i < |left| ==>
      InnerJoin(left, right, lk, rk)[i].0 == left[i] &&
      InnerJoin(left, right, lk, rk)[i].1 in right &&
      rk(InnerJoin(left, right, lk, rk)[i].1) == lk(left[i])
  {
    if left != [] {
      var m := Matches(left[0], right, lk, rk);
      var rest := InnerJoin(left[1..], right, lk, rk);
      assert |m| == 1 && m[0].0 == left[0] && m[0].1 in right && rk(m[0].1) == lk(left[0]) by {
        MatchesUnique(left[0], right, lk, rk);
        assert m[0] in m;
      }
      assert |rest| == |left| - 1 && forall i :: 0 <= i < |left| - 1 ==>
        rest[i].0 == left[1..][i] && rest[i].1 in right && rk(rest[i].1) == lk(left[1..][i]) by {
        JoinOnUniqueKey(left[1..], right, lk, rk);
      }
      var r := InnerJoin(left, right, lk, rk);
      assert r == m + rest;
      forall i | 0 <= i < |left|
        ensures r[i].0 == left[i] && r[i].1 in right && rk(r[i].1) == lk(left[i])
      {
        if i > 0 {
          assert r[i] == rest[i - 1];
          assert left[1..][i - 1] == left[i];
        }
      }
    }
  }
}
