/** Segment file names and their order (pkg/evidence/segment.go). */
module SegmentNames {
  import opened Wrappers
  import opened Sorting

  const PREFIX := "evidence-"
  const SUFFIX := ".jsonl"
  const MAX_SEGMENTS := 999_999

  function Digit(d: nat): char
    requires d < 10
  {
    "0123456789"[d]
  }

  predicate IsDigit(c: char) {
    '0' <= c <= '9'
  }

  function DigitValue(c: char): (d: nat)
    requires IsDigit(c)
    ensures d < 10
  {
    c as int - '0' as int
  }

  /** The lowest k decimal digits of n. */
  function Fixed(n: nat, k: nat): (s: string)
    ensures |s| == k
    ensures forall i | 0 <= i < k :: IsDigit(s[i])
  {
    if k == 0 then "" else Fixed(n / 10, k - 1) + [Digit(n % 10)]
  }

  /** The decimal digits of n, without padding. */
  function Decimal(n: nat): (s: string)
    ensures |s| >= 1 && forall i | 0 <= i < |s| :: IsDigit(s[i])
  {
    if n < 10 then [Digit(n)] else Decimal(n / 10) + [Digit(n % 10)]
  }

  /** Zero-padded to six digits; longer numbers are printed in full. */
  function Padded(n: nat): string {
    if n <= MAX_SEGMENTS then Fixed(n, 6) else Decimal(n)
  }

  function SegmentName(index: nat): string {
    PREFIX + Padded(index) + SUFFIX
  }

  function ValueOf(s: string): nat
    requires forall i | 0 <= i < |s| :: IsDigit(s[i])
  {
    if s == "" then 0 else 10 * ValueOf(s[..|s| - 1]) + DigitValue(s[|s| - 1])
  }

  /** How many of the first `most` characters are leading digits. */
  function LeadingDigits(s: string, most: nat): (n: nat)
    ensures n <= most && n <= |s|
    ensures forall i | 0 <= i < n :: IsDigit(s[i])
    ensures n == most || n == |s| || !IsDigit(s[n])
  {
    if most == 0 || s == "" || !IsDigit(s[0]) then 0 else 1 + LeadingDigits(s[1..], most - 1)
  }

  predicate StartsWith(s: string, p: string) {
    |p| <= |s| && s[..|p|] == p
  }

  /** Scan the prefix, a number of at most six characters, and the suffix; the name must be what that number prints as.
      Signs and blanks that the scanner would also accept do not survive the final comparison. */
  function ParseSegmentIndex(name: string): Option<nat> {
    if !StartsWith(name, PREFIX) then None
    else
      var rest := name[|PREFIX|..];
      var n := LeadingDigits(rest, 6);
      var index := ValueOf(rest[..n]);
      if n == 0 || !StartsWith(rest[n..], SUFFIX) || index == 0 || name != SegmentName(index) then None
      else Some(index)
  }

  lemma DivTen(n: nat, p: nat)
    requires n < 10 * p
    ensures n / 10 < p
  {
  }

  lemma {:induction false} FixedValue(n: nat, k: nat)
    requires n < Pow10(k)
    ensures ValueOf(Fixed(n, k)) == n
  {
    if k > 0 {
      DivTen(n, Pow10(k - 1));
      FixedValue(n / 10, k - 1);
      ValueSnoc(Fixed(n / 10, k - 1), Digit(n % 10));
      assert DigitValue(Digit(n % 10)) == n % 10;
    }
  }

  lemma ValueSnoc(s: string, c: char)
    requires IsDigit(c) && forall i | 0 <= i < |s| :: IsDigit(s[i])
    ensures ValueOf(s + [c]) == 10 * ValueOf(s) + DigitValue(c)
  {
    assert (s + [c])[..|s|] == s;
  }

  function Pow10(k: nat): (p: nat)
    ensures p >= 1
  {
    if k == 0 then 1 else 10 * Pow10(k - 1)
  }

  lemma MillionIsPow10()
    ensures Pow10(6) == MAX_SEGMENTS + 1
  {
    assert Pow10(3) == 1000;
    assert Pow10(6) == 1000 * Pow10(3);
  }

  lemma {:induction false} DecimalLength(n: nat, k: nat)
    requires n >= Pow10(k)
    ensures |Decimal(n)| > k
    decreases k
  {
    if k > 0 {
      assert Pow10(k) >= 10;
      DecimalLength(n / 10, k - 1);
    }
  }

  lemma {:induction false} LeadingDigitsAre(s: string, most: nat, n: nat)
    requires n <= |s| && n <= most && forall i | 0 <= i < n :: IsDigit(s[i])
    requires n == most || n == |s| || !IsDigit(s[n])
    ensures LeadingDigits(s, most) == n
  {
    if n > 0 {
      assert IsDigit(s[0]);
      assert forall i | 0 <= i < n - 1 :: s[1..][i] == s[i + 1];
      LeadingDigitsAre(s[1..], most - 1, n - 1);
    }
  }

  lemma WithoutPrefix(index: nat)
    ensures var name := SegmentName(index); StartsWith(name, PREFIX) && name[|PREFIX|..] == Padded(index) + SUFFIX
  {
    hide Padded;
    assert SegmentName(index) == PREFIX + (Padded(index) + SUFFIX);
  }

  /** A name parses to a number exactly when it is that number's segment name, up to 999,999. */
  lemma ParseSegmentIndexExact(name: string, index: nat)
    ensures ParseSegmentIndex(name) == Some(index) <==> 1 <= index <= MAX_SEGMENTS && name == SegmentName(index)
  {
    hide Fixed, Decimal, ValueOf, LeadingDigits;
    if name == SegmentName(index) && index > 0 {
      var rest := name[|PREFIX|..];
      WithoutPrefix(index);
      MillionIsPow10();
      if index <= MAX_SEGMENTS {
        LeadingDigitsAre(rest, 6, 6);
        assert rest[..6] == Fixed(index, 6) && rest[6..] == SUFFIX;
        FixedValue(index, 6);
      } else {
        DecimalLength(index, 6);
        LeadingDigitsAre(rest, 6, 6);
        assert IsDigit(rest[6..][0]);
      }
    }
  }

  lemma SegmentNameInjective(a: nat, b: nat)
    requires 1 <= a <= MAX_SEGMENTS && SegmentName(a) == SegmentName(b) && b > 0
    ensures a == b
  {
    ParseSegmentIndexExact(SegmentName(a), a);
    var name := SegmentName(b);
    var rest := name[|PREFIX|..];
    assert rest == Padded(a) + SUFFIX == Padded(b) + SUFFIX;
    assert |Padded(b)| == 6;
    assert Padded(a) == rest[..6] == Padded(b);
    MillionIsPow10();
    if b > MAX_SEGMENTS {
      DecimalLength(b, 6);
    } else {
      FixedValue(a, 6);
      FixedValue(b, 6);
    }
  }

  lemma {:induction false} LessAfterPrefix(p: string, a: string, b: string)
    ensures Less(p + a, p + b) == Less(a, b)
  {
    if p == "" {
      assert p + a == a && p + b == b;
    } else {
      assert (p + a)[1..] == p[1..] + a && (p + b)[1..] == p[1..] + b;
      LessAfterPrefix(p[1..], a, b);
    }
  }

  lemma {:induction false} LessBeforeSuffix(a: string, b: string, s: string, t: string)
    requires |a| == |b|
    ensures Less(a + s, b + t) == if a == b then Less(s, t) else Less(a, b)
  {
    if a == "" {
      assert a + s == s && b + t == t;
    } else {
      assert (a + s)[1..] == a[1..] + s && (b + t)[1..] == b[1..] + t;
      LessBeforeSuffix(a[1..], b[1..], s, t);
      assert a == b <==> a[0] == b[0] && a[1..] == b[1..] by {
        assert a == [a[0]] + a[1..] && b == [b[0]] + b[1..];
      }
    }
  }

  lemma LessDigits(a: nat, b: nat)
    requires a < 10 && b < 10
    ensures Less([Digit(a)], [Digit(b)]) <==> a < b
  {
  }

  /** Numbers of the same width are ordered as their digits are. */
  lemma {:induction false} FixedOrder(a: nat, b: nat, k: nat)
    requires a < Pow10(k) && b < Pow10(k)
    ensures Less(Fixed(a, k), Fixed(b, k)) <==> a < b
  {
    if k > 0 {
      hide Less, Digit;
      DivTen(a, Pow10(k - 1));
      DivTen(b, Pow10(k - 1));
      FixedOrder(a / 10, b / 10, k - 1);
      LessBeforeSuffix(Fixed(a / 10, k - 1), Fixed(b / 10, k - 1), [Digit(a % 10)], [Digit(b % 10)]);
      if Fixed(a / 10, k - 1) == Fixed(b / 10, k - 1) {
        FixedDistinct(a / 10, b / 10, k - 1);
      }
      LessDigits(a % 10, b % 10);
    }
  }

  lemma FixedDistinct(a: nat, b: nat, k: nat)
    requires a < Pow10(k) && b < Pow10(k) && Fixed(a, k) == Fixed(b, k)
    ensures a == b
  {
    hide ValueOf, Fixed;
    FixedValue(a, k);
    FixedValue(b, k);
  }

  /** Up to 999,999, names are ordered as their numbers are. */
  lemma SegmentNameOrder(a: nat, b: nat)
    requires a <= MAX_SEGMENTS && b <= MAX_SEGMENTS
    ensures Less(SegmentName(a), SegmentName(b)) <==> a < b
  {
    MillionIsPow10();
    FixedOrder(a, b, 6);
    LessBeforeSuffix(Fixed(a, 6), Fixed(b, 6), SUFFIX, SUFFIX);
    LessIrreflexive(SUFFIX);
    if Fixed(a, 6) == Fixed(b, 6) {
      FixedValue(a, 6);
      FixedValue(b, 6);
    }
    assert SegmentName(a) == PREFIX + (Fixed(a, 6) + SUFFIX);
    assert SegmentName(b) == PREFIX + (Fixed(b, 6) + SUFFIX);
    LessAfterPrefix(PREFIX, Fixed(a, 6) + SUFFIX, Fixed(b, 6) + SUFFIX);
  }

  /** What the names look like: padded to six digits, and longer ones in full. */
  lemma NamesLookLike()
    ensures SegmentName(42) == "evidence-000042.jsonl"
    ensures SegmentName(1_000_000) == "evidence-1000000.jsonl"
  {
    hide Fixed, Decimal;
    assert Fixed(42, 6) == "000042" by {
      FixedStep(0, 0);
      FixedStep(0, 1);
      FixedStep(0, 2);
      FixedStep(0, 3);
      FixedStep(4, 4);
      FixedStep(42, 5);
    }
    assert Decimal(1_000_000) == "1000000" by {
      DecimalStep(1);
      DecimalStep(10);
      DecimalStep(100);
      DecimalStep(1_000);
      DecimalStep(10_000);
      DecimalStep(100_000);
      DecimalStep(1_000_000);
    }
  }

  lemma FixedStep(n: nat, k: nat)
    ensures Fixed(n, 0) == "" && Fixed(n, k + 1) == Fixed(n / 10, k) + [Digit(n % 10)]
  {
  }

  lemma DecimalStep(n: nat)
    ensures Decimal(n) == if n < 10 then [Digit(n)] else Decimal(n / 10) + [Digit(n % 10)]
  {
  }

  /** Beyond that, names stop parsing: a store with a millionth segment cannot be listed. */
  lemma MillionthSegmentUnreadable()
    ensures ParseSegmentIndex(SegmentName(MAX_SEGMENTS + 1)) == None
  {
    if ParseSegmentIndex(SegmentName(MAX_SEGMENTS + 1)).Some? {
      var index := ParseSegmentIndex(SegmentName(MAX_SEGMENTS + 1)).value;
      ParseSegmentIndexExact(SegmentName(MAX_SEGMENTS + 1), index);
      SegmentNameInjective(index, MAX_SEGMENTS + 1);
    }
  }
}
