/**
 Segment files are named by their decimal id. A new id is one more than the
 largest numeric name in the directory, but a directory is listed in the order of
 the names as strings. The two orders are compared here.
 */
module SegmentNames {
  import opened Bytes

  function Digit(d: nat): (c: char)
    requires d < 10
  {
    "0123456789"[d]
  }

  predicate IsDigit(c: char) {
    '0' <= c <= '9'
  }

  function DigitValue(c: char): (d: nat)
    requires IsDigit(c)
    ensures d < 10
  {
    (c as int) - ('0' as int)
  }

  /** `strconv.FormatUint(n, 10)` */
  function Format(n: nat): (s: string)
    ensures s != []
  {
    if n < 10 then [Digit(n)] else Format(n / 10) + [Digit(n % 10)]
  }

  /** `strconv.ParseUint(s, 10, 64)` up to its range check. */
  function Parse(s: string): (r: Option<nat>) {
    if s == [] || !IsDigit(s[|s| - 1]) then None
    else if |s| == 1 then Some(DigitValue(s[0]))
    else
      var front := Parse(s[..|s| - 1]);
      if front.None? then None else Some(front.value * 10 + DigitValue(s[|s| - 1]))
  }

  /** String order: the order in which `ioutil.ReadDir` lists names. */
  predicate Less(a: string, b: string) {
    b != [] && (a == [] || a[0] < b[0] || (a[0] == b[0] && Less(a[1..], b[1..])))
  }

  lemma DigitValueOfDigit(d: nat)
    requires d < 10
    ensures IsDigit(Digit(d)) && DigitValue(Digit(d)) == d
  {
  }

  lemma {:induction false} ParseFormat(n: nat)
    ensures Parse(Format(n)) == Some(n)
  {
    hide Digit, IsDigit, DigitValue;
    DigitValueOfDigit(n % 10);
    if n >= 10 {
      ParseFormat(n / 10);
      assert Format(n)[..|Format(n)| - 1] == Format(n / 10);
    }
  }

  lemma {:induction false} LongerOfLarger(m: nat, n: nat)
    requires m <= n
    ensures |Format(m)| <= |Format(n)|
  {
    if m >= 10 {
      LongerOfLarger(m / 10, n / 10);
    }
  }

  lemma {:induction false} LessIrreflexive(a: string)
    ensures !Less(a, a)
  {
    if a != [] {
      LessIrreflexive(a[1..]);
    }
  }

  lemma {:induction false} LessTransitive(a: string, b: string, c: string)
    requires Less(a, b) && Less(b, c)
    ensures Less(a, c)
  {
    if a != [] && a[0] == b[0] == c[0] {
      LessTransitive(a[1..], b[1..], c[1..]);
    }
  }

  lemma {:induction false} LessTotal(a: string, b: string)
    ensures a == b || Less(a, b) || Less(b, a)
  {
    if a != [] && b != [] && a[0] == b[0] {
      LessTotal(a[1..], b[1..]);
      assert a == [a[0]] + a[1..] && b == [b[0]] + b[1..];
    }
  }

  /** Between strings of one length, the last character decides only after all others. */
  lemma {:induction false} LessSnoc(a: string, b: string, x: char, y: char)
    requires |a| == |b|
    ensures Less(a + [x], b + [y]) <==> Less(a, b) || (a == b && x < y)
  {
    if a != [] {
      assert (a + [x])[1..] == a[1..] + [x] && (b + [y])[1..] == b[1..] + [y];
      LessSnoc(a[1..], b[1..], x, y);
      assert a == [a[0]] + a[1..] && b == [b[0]] + b[1..];
      LessIrreflexive(a);
    }
  }

  lemma FormatInjective(m: nat, n: nat)
    requires Format(m) == Format(n)
    ensures m == n
  {
    ParseFormat(m);
    ParseFormat(n);
  }

  lemma DigitOrder(a: nat, b: nat)
    requires a < 10 && b < 10
    ensures Digit(a) < Digit(b) <==> a < b
    ensures Less([Digit(a)], [Digit(b)]) <==> a < b
  {
    LessIrreflexive([Digit(a)]);
  }

  lemma {:induction false} SameLengthOrder(m: nat, n: nat)
    requires |Format(m)| == |Format(n)|
    ensures Less(Format(m), Format(n)) <==> m < n
  {
    hide Less, Digit;
    DigitOrder(m % 10, n % 10);
    if m >= 10 {
      SameLengthOrder(m / 10, n / 10);
      LessSnoc(Format(m / 10), Format(n / 10), Digit(m % 10), Digit(n % 10));
      if Format(m / 10) == Format(n / 10) {
        FormatInjective(m / 10, n / 10);
      }
    }
  }

  /** Where the names get longer, a 9... is followed by a 1... */
  lemma {:induction false} LengthStep(n: nat)
    requires |Format(n)| < |Format(n + 1)|
    ensures Format(n)[0] == '9' && Format(n + 1)[0] == '1'
    ensures Less(Format(n + 1), Format(n))
  {
    if n >= 10 {
      assert (n + 1) / 10 == n / 10 + 1;
      LengthStep(n / 10);
    }
  }

  lemma {:induction false} LengthStepBetween(lo: nat, hi: nat) returns (n: nat)
    requires lo <= hi && |Format(lo)| < |Format(hi)|
    ensures lo <= n < hi && |Format(n)| < |Format(n + 1)|
    decreases hi - lo
  {
    if |Format(lo)| < |Format(lo + 1)| {
      n := lo;
    } else {
      n := LengthStepBetween(lo + 1, hi);
    }
  }

  ghost predicate NameOrderAgrees(lo: nat, hi: nat) {
    forall m, n :: lo <= m <= hi && lo <= n <= hi ==> (Less(Format(m), Format(n)) <==> m < n)
  }

  /**
   Over the consecutive ids `lo..hi` listing by name is listing by number exactly
   when the first and the last name have the same number of digits.
   */
  lemma NameOrderExact(lo: nat, hi: nat)
    requires lo <= hi
    ensures NameOrderAgrees(lo, hi) <==> |Format(lo)| == |Format(hi)|
  {
    LongerOfLarger(lo, hi);
    if |Format(lo)| == |Format(hi)| {
      forall m, n | lo <= m <= hi && lo <= n <= hi
        ensures Less(Format(m), Format(n)) <==> m < n
      {
        LongerOfLarger(lo, m); LongerOfLarger(m, hi);
        LongerOfLarger(lo, n); LongerOfLarger(n, hi);
        SameLengthOrder(m, n);
      }
    } else {
      var n := LengthStepBetween(lo, hi);
      LengthStep(n);
      assert Less(Format(n + 1), Format(n)) && !(n + 1 < n);
    }
  }
}
