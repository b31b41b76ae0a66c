/** Decimal rendering as the `%09d` verb of Go's fmt package does it. */
module Decimal {
  import opened Lex

  /** First version whose rendering no longer fits nine digits. */
  const BILLION := 1_000_000_000

  function Digit(d: nat): char
    requires d < 10
  {
    ('0' as int + d) as char
  }

  function Digits(n: nat): (s: string)
    ensures s != [] && forall c :: c in s ==> '0' <= c <= '9'
  {
    if n < 10 then [Digit(n)] else Digits(n / 10) + [Digit(n % 10)]
  }

  function Zeros(n: nat): (s: string)
    ensures |s| == n && forall c :: c in s ==> c == '0'
  {
    if n == 0 then [] else ['0'] + Zeros(n - 1)
  }

  function PadLeft(s: string, width: nat): string {
    if |s| >= width then s else Zeros(width - |s|) + s
  }

  /** The sign counts towards the width of nine. */
  function Format09d(v: int): string {
    if v >= 0 then PadLeft(Digits(v), 9) else ['-'] + PadLeft(Digits(-v), 8)
  }

  // ---- Reading back ------------------------------------------------------

  function DigitValue(c: char): int {
    c as int - '0' as int
  }

  function ReadDigits(s: string): int {
    if s == [] then 0 else 10 * ReadDigits(s[..|s| - 1]) + DigitValue(s[|s| - 1])
  }

  function ReadInt(s: string): int {
    if s != [] && s[0] == '-' then -ReadDigits(s[1..]) else ReadDigits(s)
  }

  lemma {:induction false} ReadDigitsOfDigits(n: nat)
    ensures ReadDigits(Digits(n)) == n
  {
    if n < 10 {
      assert Digits(n)[..0] == [];
    } else {
      ReadDigitsOfDigits(n / 10);
      assert Digits(n)[..|Digits(n)| - 1] == Digits(n / 10);
    }
  }

  lemma {:induction false} ReadZeros(n: nat)
    ensures ReadDigits(Zeros(n)) == 0
  {
    if n > 0 {
      ReadZeros(n - 1);
      assert Zeros(n)[n - 1] in Zeros(n);
      assert Zeros(n)[..n - 1] == Zeros(n - 1) by {
        forall i | 0 <= i < n - 1 ensures Zeros(n)[i] == Zeros(n - 1)[i] {
          assert Zeros(n)[i] in Zeros(n) && Zeros(n - 1)[i] in Zeros(n - 1);
        }
      }
    }
  }

  lemma {:induction false} ReadIgnoresLeadingZeros(n: nat, s: string)
    ensures ReadDigits(Zeros(n) + s) == ReadDigits(s)
  {
    if s == [] {
      ReadZeros(n);
      assert Zeros(n) + s == Zeros(n);
    } else {
      ReadIgnoresLeadingZeros(n, s[..|s| - 1]);
      assert (Zeros(n) + s)[..n + |s| - 1] == Zeros(n) + s[..|s| - 1];
    }
  }

  /** Rendering a version loses nothing, at any width. */
  lemma ReadFormatted(v: int)
    ensures ReadInt(Format09d(v)) == v
  {
    var digits := Digits(if v >= 0 then v else -v);
    ReadDigitsOfDigits(if v >= 0 then v else -v);
    var width := if v >= 0 then 9 else 8;
    var padded := PadLeft(digits, width);
    if |digits| < width { ReadIgnoresLeadingZeros(width - |digits|, digits); }
    if v >= 0 {
      assert padded[0] in padded;
    } else {
      assert (['-'] + padded)[1..] == padded;
    }
  }

  lemma FormatInjective(v: int, w: int)
    requires Format09d(v) == Format09d(w)
    ensures v == w
  {
    ReadFormatted(v);
    ReadFormatted(w);
  }

  // ---- Order -------------------------------------------------------------

  /** The last `width` decimal digits of `n`. */
  function Fixed(n: nat, width: nat): (s: string)
    ensures |s| == width
  {
    if width == 0 then [] else Fixed(n / 10, width - 1) + [Digit(n % 10)]
  }

  function Power10(width: nat): nat {
    if width == 0 then 1 else 10 * Power10(width - 1)
  }

  lemma {:induction false} FixedZero(width: nat)
    ensures Fixed(0, width) == Zeros(width)
  {
    if width > 0 {
      FixedZero(width - 1);
      forall i | 0 <= i < width ensures Fixed(0, width)[i] == '0' && Zeros(width)[i] == '0' {
        assert Zeros(width)[i] in Zeros(width);
        if i < width - 1 { assert Zeros(width - 1)[i] in Zeros(width - 1); }
      }
    }
  }

  lemma {:induction false} PadLeftIsFixed(n: nat, width: nat)
    requires 0 < width && n < Power10(width)
    ensures PadLeft(Digits(n), width) == Fixed(n, width)
  {
    if n < 10 {
      FixedZero(width - 1);
    } else {
      assert width > 1;
      PadLeftIsFixed(n / 10, width - 1);
    }
  }

  lemma {:induction false} FixedMonotone(a: nat, b: nat, width: nat)
    requires a < b < Power10(width)
    ensures Less(Fixed(a, width), Fixed(b, width))
  {
    var da, db := [Digit(a % 10)], [Digit(b % 10)];
    if a / 10 < b / 10 {
      FixedMonotone(a / 10, b / 10, width - 1);
      LessExtends(Fixed(a / 10, width - 1), Fixed(b / 10, width - 1), da, db);
    } else {
      LessCommonPrefix(Fixed(a / 10, width - 1), da, db);
    }
  }

  /** Below a billion, string order of the renderings is the order of the numbers. */
  lemma FormatMonotone(a: nat, b: nat)
    requires a < b < BILLION
    ensures Less(Format09d(a), Format09d(b))
  {
    assert Power10(9) == BILLION by { assert Power10(4) == 10000; }
    PadLeftIsFixed(a, 9);
    PadLeftIsFixed(b, 9);
    FixedMonotone(a, b, 9);
  }

  /** Below a billion a rendering is nine digits. */
  lemma FormatIsNineDigits(v: nat)
    requires v < 1_000_000_000
    ensures |Format09d(v)| == 9 && forall c :: c in Format09d(v) ==> '0' <= c <= '9'
  {
    assert Power10(9) == 1_000_000_000 by { assert Power10(4) == 10000; }
    PadLeftIsFixed(v, 9);
  }

  /** The bound is tight: the next number sorts before its predecessor. */
  lemma FormatWrapsAtBillion()
    ensures Less(Format09d(BILLION), Format09d(BILLION - 1))
  {
    assert Digits(1_000_000_000) == "1000000000";
    assert Digits(999_999_999) == "999999999";
  }
}
