/** Decimal digit strings: the value a run of digits denotes (what Rust's
    `str::parse::<u64>` reads) and the shortest rendering of a number (what
    `format!("{}", n)` writes). */
module Numerals {

  /** The characters `char::is_digit(10)` accepts. */
  predicate IsDigit(c: char) {
    '0' <= c <= '9'
  }

  predicate AllDigits(s: seq<char>) {
    forall i :: 0 <= i < |s| ==> IsDigit(s[i])
  }

  predicate NoDigitIn(s: seq<char>) {
    forall i :: 0 <= i < |s| ==> !IsDigit(s[i])
  }

  function DigitValue(c: char): (v: nat)
    requires IsDigit(c)
    ensures v < 10
  {
    (c as int) - ('0' as int)
  }

  function DigitChar(v: nat): (c: char)
    requires v < 10
    ensures IsDigit(c) && DigitValue(c) == v
  {
    (('0' as int) + v) as char
  }

  /** b raised to the k-th power. */
  function Pow(b: nat, k: nat): nat {
    if k == 0 then 1 else b * Pow(b, k - 1)
  }

  /** The number denoted by a run of digits, most significant digit first. */
  function ValueOf(ds: seq<char>): nat
    requires AllDigits(ds)
  {
    if ds == [] then 0 else 10 * ValueOf(ds[..|ds| - 1]) + DigitValue(ds[|ds| - 1])
  }

  /** A run of k digits denotes a number below 10^k. */
  lemma {:induction false} ValueOfBound(ds: seq<char>)
    requires AllDigits(ds)
    ensures ValueOf(ds) < Pow(10, |ds|)
  {
    if ds != [] {
      ValueOfBound(ds[..|ds| - 1]);
    }
  }

  /** The shortest decimal rendering of n: no sign, no leading zero. */
  function Show(n: nat): (s: seq<char>)
    ensures AllDigits(s) && |s| >= 1
    ensures |s| > 1 ==> s[0] != '0'
  {
    if n < 10 then [DigitChar(n)] else Show(n / 10) + [DigitChar(n % 10)]
  }

  /** Reading back a rendered number gives the number. */
  lemma {:induction false} ValueOfShow(n: nat)
    ensures ValueOf(Show(n)) == n
  {
    if n >= 10 {
      var s := Show(n);
      assert s[..|s| - 1] == Show(n / 10);
      ValueOfShow(n / 10);
    }
  }

  /** The rendering of a signed integer, as `i64`'s `Display` writes it. */
  function ShowInt(i: int): (s: seq<char>)
    ensures |s| >= 1
    ensures forall k :: 0 <= k < |s| ==> IsDigit(s[k]) || s[k] == '-'
  {
    if i < 0 then ['-'] + Show(-i) else Show(i)
  }

  /** Distinct integers have distinct renderings. */
  lemma ShowIntInjective(a: int, b: int)
    requires ShowInt(a) == ShowInt(b)
    ensures a == b
  {
    if a < 0 && b < 0 {
      assert Show(-a) == ShowInt(a)[1..];
      ValueOfShow(-a);
      ValueOfShow(-b);
    } else if a >= 0 && b >= 0 {
      ValueOfShow(a);
      ValueOfShow(b);
    }
  }
}
