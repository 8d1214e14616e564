/** Decimal text of integers, `str.zfill`, and the surrogate keys built from them. */
module Decimal {
  import opened Wrappers

  predicate IsDigit(c: char) {
    '0' <= c <= '9'
  }

  predicate AllDigits(s: string) {
    forall i :: 0 <= i < |s| ==> IsDigit(s[i])
  }

  function DigitChar(d: nat): (c: char)
    requires d < 10
    ensures IsDigit(c) && c as int - '0' as int == d
  {
    (d + '0' as int) as char
  }

  function DigitValue(c: char): nat
    requires IsDigit(c)
  {
    c as int - '0' as int
  }

  /** Python's `str(n)` for a non-negative int: its decimal digits, no leading zero. */
  function NatToString(n: nat): (s: string)
    ensures |s| >= 1 && AllDigits(s)
    ensures s[0] == '0' ==> n == 0
  {
    if n < 10 then [DigitChar(n)] else NatToString(n / 10) + [DigitChar(n % 10)]
  }

  /** The value of a string of decimal digits; leading zeros are allowed. */
  function ParseDigits(s: string): nat
    requires AllDigits(s)
  {
    if s == [] then 0 else 10 * ParseDigits(s[..|s| - 1]) + DigitValue(s[|s| - 1])
  }

  lemma {:induction false} ParseNatToString(n: nat)
    ensures ParseDigits(NatToString(n)) == n
  {
    if n >= 10 {
      var s := NatToString(n / 10);
      var t := s + [DigitChar(n % 10)];
      assert t[..|t| - 1] == s;
      ParseNatToString(n / 10);
    }
  }

  function Zeros(k: nat): (z: string)
    ensures |z| == k && forall i :: 0 <= i < k ==> z[i] == '0'
  {
    if k == 0 then [] else Zeros(k - 1) + ['0']
  }

  /** Python's `s.zfill(width)` on a string of digits: pad on the left with
      '0' up to `width` characters; a longer string is left unchanged. */
  function ZFill(s: string, width: nat): (r: string)
    requires AllDigits(s)
    ensures |r| == if |s| < width then width else |s|
    ensures r[|r| - |s|..] == s
    ensures forall i :: 0 <= i < |r| - |s| ==> r[i] == '0'
    ensures AllDigits(r)
  {
    if |s| < width then Zeros(width - |s|) + s else s
  }

  lemma {:induction false} ParseZeros(k: nat)
    ensures AllDigits(Zeros(k)) && ParseDigits(Zeros(k)) == 0
  {
    if k > 0 {
      assert Zeros(k)[..k - 1] == Zeros(k - 1);
      ParseZeros(k - 1);
    }
  }

  /** Leading zeros do not change the value of a digit string. */
  lemma {:induction false} ParseLeadingZeros(k: nat, s: string)
    requires AllDigits(s)
    ensures AllDigits(Zeros(k) + s) && ParseDigits(Zeros(k) + s) == ParseDigits(s)
    decreases |s|
  {
    var t := Zeros(k) + s;
    if s == [] {
      assert t == Zeros(k);
      ParseZeros(k);
    } else {
      assert t[..|t| - 1] == Zeros(k) + s[..|s| - 1];
      ParseLeadingZeros(k, s[..|s| - 1]);
    }
  }

  /** Python's `str(i)` for any int: a '-' before the digits of a negative number. */
  function IntToString(i: int): (s: string)
    ensures |s| >= 1
  {
    if i < 0 then "-" + NatToString(-i) else NatToString(i)
  }

  /** Reads back the text of an int: an optional '-' and then decimal digits. */
  function ParseInt(s: string): Option<int> {
    if |s| >= 2 && s[0] == '-' && AllDigits(s[1..]) then Some(0 - ParseDigits(s[1..]) as int)
    else if |s| >= 1 && AllDigits(s) then Some(ParseDigits(s))
    else None
  }

  lemma ParseIntToString(i: int)
    ensures ParseInt(IntToString(i)) == Some(i)
  {
    var s := IntToString(i);
    if i < 0 {
      var d := NatToString(-i);
      assert s[0] == '-' && s[1..] == d;
      ParseNatToString(-i);
      assert ParseInt(s) == Some(0 - ParseDigits(d) as int);
    } else {
      assert IsDigit(s[0]);
      ParseNatToString(i);
    }
  }

  /** A generated surrogate key: `prefix + str(n).zfill(6)`. */
  function MakeId(prefix: string, n: nat): string {
    prefix + ZFill(NatToString(n), 6)
  }

  /** Reads the sequence number back out of a surrogate key with the given prefix. */
  function IdNumber(prefix: string, id: string): Option<nat> {
    if |prefix| <= |id| && id[..|prefix|] == prefix && AllDigits(id[|prefix|..])
    then Some(ParseDigits(id[|prefix|..]))
    else None
  }

  lemma IdNumberMakeId(prefix: string, n: nat)
    ensures IdNumber(prefix, MakeId(prefix, n)) == Some(n)
  {
    var s := NatToString(n);
    var id := MakeId(prefix, n);
    var k := if |s| < 6 then 6 - |s| else 0;
    assert ZFill(s, 6) == Zeros(k) + s;
    assert id[|prefix|..] == Zeros(k) + s;
    ParseLeadingZeros(k, s);
    ParseNatToString(n);
  }

  /** Distinct sequence numbers give distinct keys. */
  lemma MakeIdInjective(prefix: string, m: nat, n: nat)
    ensures MakeId(prefix, m) == MakeId(prefix, n) <==> m == n
  {
    IdNumberMakeId(prefix, m);
    IdNumberMakeId(prefix, n);
  }
}
