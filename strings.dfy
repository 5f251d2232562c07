/** The two pieces of Python string handling the downloader relies on:
    `str(n)` for a non-negative integer and `s.split(sep)[-1]`. */
module Strings {

  predicate IsDigits(s: string) {
    forall i :: 0 <= i < |s| ==> '0' <= s[i] <= '9'
  }

  function Digit(d: nat): (c: char)
    requires d < 10
    ensures '0' <= c <= '9'
  {
    ('0' as int + d) as char
  }

  function DigitValue(c: char): (d: nat)
    requires '0' <= c <= '9'
    ensures d < 10
  {
    c as int - '0' as int
  }

  /** `str(n)`: the decimal rendering, most significant digit first, no
      leading zero. */
  function Decimal(n: nat): (s: string)
    ensures |s| > 0 && IsDigits(s)
    ensures |s| > 1 ==> s[0] != '0'
    decreases n
  {
    if n < 10 then [Digit(n)] else Decimal(n / 10) + [Digit(n % 10)]
  }

  /** `int(s)` for a string of decimal digits. */
  function ParseDecimal(s: string): nat
    requires IsDigits(s)
  {
    if s == [] then 0
    else ParseDecimal(s[..|s| - 1]) * 10 + DigitValue(s[|s| - 1])
  }

  /** Reading back what `str` wrote gives the number again. */
  lemma {:induction false} ParseDecimalInverts(n: nat)
    ensures ParseDecimal(Decimal(n)) == n
    decreases n
  {
    var s := Decimal(n);
    if n >= 10 {
      ParseDecimalInverts(n / 10);
      assert s[..|s| - 1] == Decimal(n / 10);
    }
  }

  /** Two different numbers never render to the same digits. */
  lemma DecimalInjective(a: nat, b: nat)
    ensures Decimal(a) == Decimal(b) ==> a == b
  {
    ParseDecimalInverts(a);
    ParseDecimalInverts(b);
  }

  /** `s.split(sep)[-1]`: what follows the last `sep`, or all of `s` when
      there is none. */
  function LastSegment(s: string, sep: char): (r: string)
    ensures sep !in r && |r| <= |s|
  {
    if s == [] || s[|s| - 1] == sep then []
    else LastSegment(s[..|s| - 1], sep) + [s[|s| - 1]]
  }

  /** The segment is the suffix of `s` after its last `sep`: it is preceded
      by `sep` unless it is all of `s`, which it is when `s` holds no `sep`. */
  lemma {:induction false} LastSegmentIsSuffix(s: string, sep: char)
    ensures var r := LastSegment(s, sep);
      && s[|s| - |r|..] == r
      && (|r| < |s| ==> s[|s| - |r| - 1] == sep)
      && (sep !in s ==> r == s)
  {
    if s != [] && s[|s| - 1] != sep {
      var init := s[..|s| - 1];
      LastSegmentIsSuffix(init, sep);
      var r := LastSegment(init, sep);
      assert s == init + [s[|s| - 1]];
      assert s[|s| - |r| - 1..] == init[|init| - |r|..] + [s[|s| - 1]];
      if sep !in s {
        assert sep !in init;
      }
    }
  }

  /** The segment after a separator is recovered whatever precedes it. */
  lemma {:induction false} LastSegmentAfterSeparator(head: string, sep: char, tail: string)
    requires sep !in tail
    ensures LastSegment(head + [sep] + tail, sep) == tail
  {
    var s := head + [sep] + tail;
    if tail != [] {
      var init := tail[..|tail| - 1];
      assert s[..|s| - 1] == head + [sep] + init;
      LastSegmentAfterSeparator(head, sep, init);
      assert tail == init + [tail[|tail| - 1]];
    }
  }
}
