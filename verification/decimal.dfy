/** Decimal rendering of non-negative integers (JavaScript's `${n}`) and its inverse. */
module Decimal {
  import opened Wrappers

  predicate IsDigit(c: char) {
    '0' <= c <= '9'
  }

  predicate AllDigits(s: string) {
    forall i :: 0 <= i < |s| ==> IsDigit(s[i])
  }

  function DigitChar(d: nat): (c: char)
    requires d < 10
    ensures IsDigit(c)
  {
    ('0' as int + d) as char
  }

  function DigitValue(c: char): (d: nat)
    requires IsDigit(c)
    ensures d < 10
  {
    c as int - '0' as int
  }

  /** `${n}` for a non-negative integer: its digits, most significant first, with no leading zero. */
  function Show(n: nat): (s: string)
    ensures 1 <= |s| && AllDigits(s)
    ensures s[0] == '0' <==> n == 0
    ensures n == 0 ==> s == "0"
  {
    if n < 10 then [DigitChar(n)] else Show(n / 10) + [DigitChar(n % 10)]
  }

  /** The number a string of digits denotes. */
  function Value(s: string): nat
    requires AllDigits(s)
  {
    if s == [] then 0 else 10 * Value(s[..|s| - 1]) + DigitValue(s[|s| - 1])
  }

  /** The length of the run of digits that starts `s`. */
  function DigitRun(s: string): (k: nat)
    ensures k <= |s| && AllDigits(s[..k])
    ensures k < |s| ==> !IsDigit(s[k])
  {
    if s != [] && IsDigit(s[0]) then
      var k := 1 + DigitRun(s[1..]);
      assert s[..k] == [s[0]] + s[1..][..k - 1];
      k
    else 0
  }

  /** Reads the leading decimal number of `s`, returning it with the text after it. */
  function Parse(s: string): (r: Option<(nat, string)>)
    ensures r.Some? ==> |r.value.1| < |s| && r.value.1 == s[|s| - |r.value.1|..]
  {
    var k := DigitRun(s);
    if k == 0 then None else Some((Value(s[..k]), s[k..]))
  }

  lemma {:induction false} ValueOfShow(n: nat)
    ensures Value(Show(n)) == n
  {
    if n >= 10 {
      var s := Show(n);
      assert s[..|s| - 1] == Show(n / 10);
      ValueOfShow(n / 10);
    }
  }

  lemma {:induction false} DigitRunOfDigits(ds: string, rest: string)
    requires AllDigits(ds)
    requires rest == [] || !IsDigit(rest[0])
    ensures DigitRun(ds + rest) == |ds|
  {
    if ds == [] {
      assert ds + rest == rest;
    } else {
      assert (ds + rest)[1..] == ds[1..] + rest;
      DigitRunOfDigits(ds[1..], rest);
    }
  }

  /** Reading back `${n}` gives `n`, provided no digit follows it. */
  lemma ParseShow(n: nat, rest: string)
    requires rest == [] || !IsDigit(rest[0])
    ensures Parse(Show(n) + rest) == Some((n, rest))
  {
    var s := Show(n);
    DigitRunOfDigits(s, rest);
    assert (s + rest)[..|s|] == s;
    assert (s + rest)[|s|..] == rest;
    ValueOfShow(n);
  }
}
