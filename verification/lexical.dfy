/**
 * Python's ordering of strings (code point by code point, a proper prefix
 * first) and fixed-width decimal numerals, whose lexical order is their
 * numeric order. Dates and expense ids are compared as strings in the
 * tracker, so every ordering claim about them goes through this module.
 */
module Lexical {

  /** Python's `a < b` on strings. */
  predicate LexLess(a: string, b: string)
    decreases |a|
  {
    if |b| == 0 then false
    else if |a| == 0 then true
    else if a[0] != b[0] then a[0] < b[0]
    else LexLess(a[1..], b[1..])
  }

  /** Python's `a <= b` on strings. */
  predicate LexLe(a: string, b: string) {
    LexLess(a, b) || a == b
  }

  lemma {:induction false} LexLessIrreflexive(a: string)
    ensures !LexLess(a, a)
    decreases |a|
  {
    if |a| > 0 {
      LexLessIrreflexive(a[1..]);
    }
  }

  /** Exactly one of `a < b`, `a == b`, `b < a` holds. */
  lemma {:induction false} LexTrichotomy(a: string, b: string)
    ensures LexLess(a, b) || a == b || LexLess(b, a)
    ensures !(LexLess(a, b) && LexLess(b, a))
    ensures LexLess(a, b) ==> a != b
    decreases |a|
  {
    if |a| > 0 && |b| > 0 {
      if a[0] == b[0] {
        LexTrichotomy(a[1..], b[1..]);
        if a[1..] == b[1..] {
          assert a == [a[0]] + a[1..] && b == [b[0]] + b[1..];
        }
      }
    }
    if LexLess(a, b) {
      if a == b {
        LexLessIrreflexive(a);
      }
    }
  }

  lemma {:induction false} LexLessTransitive(a: string, b: string, c: string)
    requires LexLess(a, b) && LexLess(b, c)
    ensures LexLess(a, c)
    decreases |a|
  {
    if |a| > 0 && a[0] == b[0] && b[0] == c[0] {
      LexLessTransitive(a[1..], b[1..], c[1..]);
    }
  }

  lemma LexLeTransitive(a: string, b: string, c: string)
    requires LexLe(a, b) && LexLe(b, c)
    ensures LexLe(a, c)
  {
    if LexLess(a, b) && LexLess(b, c) {
      LexLessTransitive(a, b, c);
    }
  }

  /**
   * Comparing two concatenations whose first parts have the same length
   * compares the first parts, and the second parts only on a tie.
   */
  lemma {:induction false} LexLessConcat(x1: string, y1: string, x2: string, y2: string)
    requires |x1| == |x2|
    ensures LexLess(x1 + y1, x2 + y2) <==> LexLess(x1, x2) || (x1 == x2 && LexLess(y1, y2))
    decreases |x1|
  {
    if |x1| == 0 {
      assert x1 + y1 == y1 && x2 + y2 == y2;
    } else {
      assert (x1 + y1)[0] == x1[0] && (x2 + y2)[0] == x2[0];
      assert (x1 + y1)[1..] == x1[1..] + y1;
      assert (x2 + y2)[1..] == x2[1..] + y2;
      LexLessConcat(x1[1..], y1, x2[1..], y2);
      if x1[0] == x2[0] {
        assert x1 == x2 <==> x1[1..] == x2[1..] by {
          if x1[1..] == x2[1..] {
            assert x1 == [x1[0]] + x1[1..] && x2 == [x2[0]] + x2[1..];
          }
        }
      }
    }
  }

  /** Concatenations whose first parts have equal length are equal exactly when both parts are. */
  lemma ConcatEqual(x1: string, y1: string, x2: string, y2: string)
    requires |x1| == |x2|
    ensures x1 + y1 == x2 + y2 <==> x1 == x2 && y1 == y2
  {
    if x1 + y1 == x2 + y2 {
      assert x1 == (x1 + y1)[..|x1|] && x2 == (x2 + y2)[..|x1|];
      assert y1 == (x1 + y1)[|x1|..] && y2 == (x2 + y2)[|x1|..];
    }
  }

  // ---------- Fixed-width decimal numerals ----------

  predicate IsDigit(c: char) {
    '0' <= c <= '9'
  }

  predicate AllDigits(s: string) {
    forall i :: 0 <= i < |s| ==> IsDigit(s[i])
  }

  function DigitChar(d: nat): (c: char)
    requires d < 10
    ensures IsDigit(c)
  {
    ('0' as int + d) as char
  }

  function DigitValue(c: char): (d: nat)
    requires IsDigit(c)
    ensures d < 10
  {
    c as int - '0' as int
  }

  function Pow10(n: nat): (p: nat)
    ensures p >= 1
  {
    if n == 0 then 1 else 10 * Pow10(n - 1)
  }

  /** Two digit strings joined are a digit string. */
  lemma AllDigitsConcat(a: string, b: string)
    requires AllDigits(a) && AllDigits(b)
    ensures AllDigits(a + b)
  {
    forall k | 0 <= k < |a + b| ensures IsDigit((a + b)[k]) {
      if k < |a| { assert (a + b)[k] == a[k]; } else { assert (a + b)[k] == b[k - |a|]; }
    }
  }

  /** The `width` low-order decimal digits of `n`, zero-padded on the left. */
  function Digits(n: nat, width: nat): (s: string)
    ensures |s| == width && AllDigits(s)
  {
    if width == 0 then [] else Digits(n / 10, width - 1) + [DigitChar(n % 10)]
  }

  /** The number a string of decimal digits denotes. */
  function NumeralValue(s: string): nat
    requires AllDigits(s)
  {
    if |s| == 0 then 0 else 10 * NumeralValue(s[..|s| - 1]) + DigitValue(s[|s| - 1])
  }

  lemma {:induction false} NumeralValueBound(s: string)
    requires AllDigits(s)
    ensures NumeralValue(s) < Pow10(|s|)
    decreases |s|
  {
    if |s| > 0 {
      NumeralValueBound(s[..|s| - 1]);
    }
  }

  /** Reading back a padded numeral gives the number, when it fits in the width. */
  lemma {:induction false} DigitsRoundTrip(n: nat, width: nat)
    requires n < Pow10(width)
    ensures NumeralValue(Digits(n, width)) == n
    decreases width
  {
    if width > 0 {
      var s := Digits(n, width);
      assert s[..|s| - 1] == Digits(n / 10, width - 1);
      DigitsRoundTrip(n / 10, width - 1);
    }
  }

  /** Every digit string is the padded numeral of its own value. */
  lemma {:induction false} NumeralRoundTrip(s: string)
    requires AllDigits(s)
    ensures Digits(NumeralValue(s), |s|) == s
    decreases |s|
  {
    if |s| > 0 {
      var init := s[..|s| - 1];
      var v := NumeralValue(s);
      assert v / 10 == NumeralValue(init) && v % 10 == DigitValue(s[|s| - 1]);
      NumeralRoundTrip(init);
      assert s == init + [s[|s| - 1]];
    }
  }

  lemma DigitsInjective(a: nat, b: nat, width: nat)
    requires a < Pow10(width) && b < Pow10(width)
    ensures Digits(a, width) == Digits(b, width) <==> a == b
  {
    if Digits(a, width) == Digits(b, width) {
      DigitsRoundTrip(a, width);
      DigitsRoundTrip(b, width);
    }
  }

  /** Padded numerals of one width compare as strings exactly as the numbers do. */
  lemma {:induction false} DigitsOrder(a: nat, b: nat, width: nat)
    requires a < Pow10(width) && b < Pow10(width)
    ensures LexLess(Digits(a, width), Digits(b, width)) <==> a < b
    decreases width
  {
    if width == 0 {
    } else {
      var ha, hb := a / 10, b / 10;
      assert ha < Pow10(width - 1) && hb < Pow10(width - 1);
      DigitsOrder(ha, hb, width - 1);
      DigitsInjective(ha, hb, width - 1);
      LexLessConcat(Digits(ha, width - 1), [DigitChar(a % 10)], Digits(hb, width - 1), [DigitChar(b % 10)]);
    }
  }
}
