/** Concrete package versions: the accepted texts and the order between them. Texts are read in
    place, as ranges [lo, hi) of one string. */
module Versions {
  import opened Text

  const MAX_IDENTIFIER_LEN := 32

  datatype Error = Ok | InvalidInput | InvalidRelease

  /** What a version denotes: dotted numbers and a revision, 0 standing for a missing one. */
  datatype Key = Key(base: seq<nat>, revision: nat)

  // ---- Decimal numerals ----

  predicate IsDigit(c: char) { '0' <= c <= '9' }

  function DigitValue(c: char): nat
    requires IsDigit(c)
  {
    c as int - '0' as int
  }

  predicate Range(s: string, lo: nat, hi: nat) { lo <= hi <= |s| }

  predicate AllDigits(s: string, lo: nat, hi: nat) {
    Range(s, lo, hi) && forall i :: lo <= i < hi ==> IsDigit(s[i])
  }

  /** A decimal numeral without a redundant leading zero. */
  predicate Canonical(s: string, lo: nat, hi: nat) {
    AllDigits(s, lo, hi) && lo < hi && (hi - lo > 1 ==> s[lo] != '0')
  }

  function Value(s: string, lo: nat, hi: nat): nat
    requires AllDigits(s, lo, hi)
    decreases hi
  {
    if lo == hi then 0 else 10 * Value(s, lo, hi - 1) + DigitValue(s[hi - 1])
  }

  function Pow10(n: nat): nat {
    if n == 0 then 1 else 10 * Pow10(n - 1)
  }

  lemma Pow10Monotone(m: nat, n: nat)
    requires m <= n
    ensures 0 < Pow10(m) <= Pow10(n)
  {}

  lemma Distribute(d: int, p: int, m: int)
    ensures 10 * (d * p + m) == d * (10 * p) + 10 * m
  {}

  lemma ScaleMonotone(x: int, y: int, p: nat)
    requires x <= y
    ensures x * p <= y * p
  {}

  lemma HeadDecides(x: nat, y: nat, p: nat, u: nat, v: nat)
    requires x < y && u < p
    ensures x * p + u < y * p + v
  {
    ScaleMonotone(x + 1, y, p);
    assert (x + 1) * p == x * p + p;
  }

  lemma {:induction false} ValueCons(s: string, lo: nat, hi: nat)
    requires AllDigits(s, lo, hi) && lo < hi
    ensures Value(s, lo, hi) == DigitValue(s[lo]) * Pow10(hi - lo - 1) + Value(s, lo + 1, hi)
    decreases hi
  {
    if lo + 1 < hi {
      ValueCons(s, lo, hi - 1);
      Distribute(DigitValue(s[lo]), Pow10(hi - lo - 2), Value(s, lo + 1, hi - 1));
    }
  }

  lemma {:induction false} ValueBound(s: string, lo: nat, hi: nat)
    requires AllDigits(s, lo, hi)
    ensures Value(s, lo, hi) < Pow10(hi - lo)
    ensures lo < hi && s[lo] != '0' ==> Pow10(hi - lo - 1) <= Value(s, lo, hi)
    decreases hi - lo
  {
    if lo < hi {
      ValueBound(s, lo + 1, hi);
      ValueCons(s, lo, hi);
      var d, p := DigitValue(s[lo]), Pow10(hi - lo - 1);
      ScaleMonotone(d, 9, p);
      if s[lo] != '0' {
        ScaleMonotone(1, d, p);
      }
    }
  }

  /** The value depends on nothing but the characters of the range. */
  lemma {:induction false} ValueLocal(a: string, lo: nat, hi: nat, b: string, shift: int)
    requires AllDigits(a, lo, hi) && 0 <= lo + shift && hi + shift <= |b|
    requires forall i :: lo <= i < hi ==> b[i + shift] == a[i]
    ensures AllDigits(b, lo + shift, hi + shift)
    ensures Value(b, lo + shift, hi + shift) == Value(a, lo, hi)
    decreases hi
  {
    forall k | lo + shift <= k < hi + shift ensures IsDigit(b[k]) {
      assert b[k - shift + shift] == a[k - shift];
    }
    if lo < hi {
      ValueLocal(a, lo, hi - 1, b, shift);
    }
  }

  /** `memcmp` of two ranges of one length. */
  function MemCmp(a: string, lo: nat, b: string, at: nat, n: nat): int
    requires Range(a, lo, lo + n) && Range(b, at, at + n)
    decreases n
  {
    if n == 0 then 0
    else if a[lo] != b[at] then (if a[lo] < b[at] then -1 else 1)
    else MemCmp(a, lo + 1, b, at + 1, n - 1)
  }

  /** On digit texts of one length, byte order is numeric order. */
  lemma {:induction false} SameLengthOrder(a: string, lo: nat, b: string, at: nat, n: nat)
    requires AllDigits(a, lo, lo + n) && AllDigits(b, at, at + n)
    ensures MemCmp(a, lo, b, at, n) == Sign(Value(a, lo, lo + n) - Value(b, at, at + n))
    decreases n
  {
    if n > 0 {
      SameLengthOrder(a, lo + 1, b, at + 1, n - 1);
      ValueCons(a, lo, lo + n);
      ValueCons(b, at, at + n);
      ValueBound(a, lo + 1, lo + n);
      ValueBound(b, at + 1, at + n);
      var p, u, v := Pow10(n - 1), Value(a, lo + 1, lo + n), Value(b, at + 1, at + n);
      if a[lo] < b[at] {
        HeadDecides(DigitValue(a[lo]), DigitValue(b[at]), p, u, v);
      } else if b[at] < a[lo] {
        HeadDecides(DigitValue(b[at]), DigitValue(a[lo]), p, v, u);
      }
    }
  }

  lemma {:induction false} MemCmpZero(a: string, lo: nat, b: string, at: nat, n: nat)
    requires Range(a, lo, lo + n) && Range(b, at, at + n) && MemCmp(a, lo, b, at, n) == 0
    ensures a[lo..lo + n] == b[at..at + n]
    decreases n
  {
    if n > 0 {
      MemCmpZero(a, lo + 1, b, at + 1, n - 1);
      assert a[lo..lo + n] == [a[lo]] + a[lo + 1..lo + n];
      assert b[at..at + n] == [b[at]] + b[at + 1..at + n];
    }
  }

  lemma ShorterIsSmaller(a: string, lo: nat, hi: nat, b: string, at: nat, end: nat)
    requires Canonical(a, lo, hi) && Canonical(b, at, end) && hi - lo < end - at
    ensures Value(a, lo, hi) < Value(b, at, end)
  {
    ValueBound(a, lo, hi);
    ValueBound(b, at, end);
    Pow10Monotone(hi - lo, end - at - 1);
  }

  /** Canonical numerals of one number are the same text. */
  lemma CanonicalInjective(a: string, lo: nat, hi: nat, b: string, at: nat, end: nat)
    requires Canonical(a, lo, hi) && Canonical(b, at, end) && Value(a, lo, hi) == Value(b, at, end)
    ensures a[lo..hi] == b[at..end]
  {
    if hi - lo < end - at {
      ShorterIsSmaller(a, lo, hi, b, at, end);
    } else if end - at < hi - lo {
      ShorterIsSmaller(b, at, end, a, lo, hi);
    } else {
      SameLengthOrder(a, lo, b, at, hi - lo);
      MemCmpZero(a, lo, b, at, hi - lo);
    }
  }

  /** Skips leading zeros but keeps the last digit. */
  method StripZeros(s: string, lo: nat, hi: nat) returns (start: nat)
    requires AllDigits(s, lo, hi) && lo < hi
    ensures lo <= start && Canonical(s, start, hi) && Value(s, start, hi) == Value(s, lo, hi)
  {
    start := lo;
    while hi - start > 1 && s[start] == '0'
      invariant lo <= start < hi && Value(s, start, hi) == Value(s, lo, hi)
    {
      ValueCons(s, start, hi);
      start := start + 1;
    }
  }

  /** Compares two digit texts of any length by the numbers they denote. */
  method CompareNumericText(a: string, lo: nat, hi: nat, b: string, at: nat, end: nat) returns (result: int)
    requires AllDigits(a, lo, hi) && lo < hi && AllDigits(b, at, end) && at < end
    ensures result == Sign(Value(a, lo, hi) - Value(b, at, end))
  {
    var left := StripZeros(a, lo, hi);
    var right := StripZeros(b, at, end);
    if hi - left != end - right {
      if hi - left < end - right {
        ShorterIsSmaller(a, left, hi, b, right, end);
      } else {
        ShorterIsSmaller(b, right, end, a, left, hi);
      }
      result := if hi - left < end - right then -1 else 1;
    } else {
      SameLengthOrder(a, left, b, right, hi - left);
      result := MemCmp(a, left, b, right, hi - left);
    }
  }

  // ---- Dotted bases ----

  /** End of the segment that starts at `lo`: the next dot, or `hi`. */
  function SegmentEnd(s: string, lo: nat, hi: nat): (n: nat)
    requires Range(s, lo, hi)
    ensures lo <= n <= hi
    ensures n < hi ==> s[n] == '.'
    ensures forall k :: lo <= k < n ==> s[k] != '.'
    decreases hi - lo
  {
    if lo == hi || s[lo] == '.' then lo else SegmentEnd(s, lo + 1, hi)
  }

  /** Canonical numerals separated by single dots. */
  predicate NumericDotted(s: string, lo: nat, hi: nat)
    requires Range(s, lo, hi)
    decreases hi - lo
  {
    var n := SegmentEnd(s, lo, hi);
    Canonical(s, lo, n) && (n < hi ==> NumericDotted(s, n + 1, hi))
  }

  function BaseValues(s: string, lo: nat, hi: nat): (r: seq<nat>)
    requires Range(s, lo, hi) && NumericDotted(s, lo, hi)
    ensures |r| > 0
    decreases hi - lo
  {
    var n := SegmentEnd(s, lo, hi);
    [Value(s, lo, n)] + if n == hi then [] else BaseValues(s, n + 1, hi)
  }

  /** The cursor loop that accepts a dotted numeric base. */
  method ParseNumericDotted(s: string, hi: nat) returns (ok: bool)
    requires hi <= |s|
    ensures ok <==> NumericDotted(s, 0, hi)
  {
    if hi == 0 {
      return false;
    }
    var cursor := 0;
    while true
      invariant 0 <= cursor < hi
      invariant NumericDotted(s, 0, hi) <==> NumericDotted(s, cursor, hi)
      decreases hi - cursor
    {
      var segment := cursor;
      while cursor < hi && IsDigit(s[cursor])
        invariant segment <= cursor <= hi
        invariant AllDigits(s, segment, cursor)
      {
        cursor := cursor + 1;
      }
      ghost var n := SegmentEnd(s, segment, hi);
      assert cursor <= n && (cursor < n ==> !IsDigit(s[cursor]));
      if cursor - segment > 1 && s[segment] == '0' {
        return false;
      }
      if cursor == hi {
        return segment < cursor;
      }
      if cursor == segment || s[cursor] != '.' {
        return false;
      }
      cursor := cursor + 1;
      if cursor == hi {
        assert !NumericDotted(s, hi, hi);
        return false;
      }
    }
  }

  method NextDot(s: string, start: nat, hi: nat) returns (cursor: nat)
    requires Range(s, start, hi)
    ensures cursor == SegmentEnd(s, start, hi)
  {
    cursor := start;
    while cursor < hi && s[cursor] != '.'
      invariant start <= cursor <= hi
      invariant SegmentEnd(s, start, hi) == SegmentEnd(s, cursor, hi)
    {
      cursor := cursor + 1;
    }
  }

  /** Compares two accepted bases segment by segment. */
  method CompareBaseVersions(left: string, leftEnd: nat, right: string, rightEnd: nat) returns (result: int)
    requires leftEnd <= |left| && NumericDotted(left, 0, leftEnd)
    requires rightEnd <= |right| && NumericDotted(right, 0, rightEnd)
    ensures result == LexCmp(BaseValues(left, 0, leftEnd), BaseValues(right, 0, rightEnd))
  {
    hide LexCmp, NumericDotted, BaseValues, Value, SegmentEnd;
    var l, r := 0, 0;
    while true
      invariant 0 <= l <= leftEnd && 0 <= r <= rightEnd
      invariant NumericDotted(left, l, leftEnd) && NumericDotted(right, r, rightEnd)
      invariant LexCmp(BaseValues(left, 0, leftEnd), BaseValues(right, 0, rightEnd))
             == LexCmp(BaseValues(left, l, leftEnd), BaseValues(right, r, rightEnd))
      decreases leftEnd - l
    {
      var leftSegment, rightSegment := l, r;
      HeadSegment(left, l, leftEnd);
      HeadSegment(right, r, rightEnd);
      LexStep(BaseValues(left, l, leftEnd), BaseValues(right, r, rightEnd));
      l := NextDot(left, l, leftEnd);
      r := NextDot(right, r, rightEnd);
      result := CompareNumericText(left, leftSegment, l, right, rightSegment, r);
      if result != 0 {
        return;
      }
      if l == leftEnd || r == rightEnd {
        LexEmpty(BaseValues(left, leftSegment, leftEnd)[1..], BaseValues(right, rightSegment, rightEnd)[1..]);
        return if l == leftEnd && r == rightEnd then 0 else if l == leftEnd then -1 else 1;
      }
      l, r := l + 1, r + 1;
    }
  }

  /** The first segment of a base and what is left behind it. */
  lemma HeadSegment(s: string, lo: nat, hi: nat)
    requires Range(s, lo, hi) && NumericDotted(s, lo, hi)
    ensures var n := SegmentEnd(s, lo, hi);
            && Canonical(s, lo, n) && BaseValues(s, lo, hi)[0] == Value(s, lo, n)
            && (n == hi ==> BaseValues(s, lo, hi)[1..] == [])
            && (n < hi ==> NumericDotted(s, n + 1, hi)
                           && BaseValues(s, lo, hi)[1..] == BaseValues(s, n + 1, hi))
  {
    hide Value;
  }

  lemma LexEmpty(a: seq<int>, b: seq<int>)
    requires a == [] || b == []
    ensures LexCmp(a, b) == if a == [] && b == [] then 0 else if a == [] then -1 else 1
  {}

  lemma LexStep(a: seq<int>, b: seq<int>)
    requires |a| > 0 && |b| > 0
    ensures LexCmp(a, b) == if a[0] != b[0] then Sign(a[0] - b[0]) else LexCmp(a[1..], b[1..])
  {}

  // ---- Whole versions ----

  const REVISION_MARKER := "-rev"

  predicate MarkerHere(s: string, i: nat) {
    i + 4 <= |s| && s[i] == '-' && s[i + 1] == 'r' && s[i + 2] == 'e' && s[i + 3] == 'v'
  }

  /** First position of the revision marker at or after `from` (`strstr`), or |s|. */
  function MarkerFrom(s: string, from: nat): (i: nat)
    requires from <= |s|
    ensures from <= i <= |s|
    ensures i < |s| ==> MarkerHere(s, i)
    ensures forall j :: from <= j < i ==> !MarkerHere(s, j)
    decreases |s| - from
  {
    if from == |s| || MarkerHere(s, from) then from else MarkerFrom(s, from + 1)
  }

  predicate IsRevision(s: string, lo: nat) {
    lo < |s| && s[lo] != '0' && AllDigits(s, lo, |s|)
  }

  /** An accepted concrete version. */
  predicate IsVersion(s: string) {
    var m := MarkerFrom(s, 0);
    && 0 < |s| < MAX_IDENTIFIER_LEN
    && NumericDotted(s, 0, m)
    && (m < |s| ==> IsRevision(s, m + 4))
  }

  function KeyOf(s: string): Key
    requires IsVersion(s)
  {
    var m := MarkerFrom(s, 0);
    Key(BaseValues(s, 0, m), if m == |s| then 0 else Value(s, m + 4, |s|))
  }

  method ParseRevision(s: string, lo: nat) returns (ok: bool)
    requires lo <= |s|
    ensures ok <==> IsRevision(s, lo)
  {
    if lo == |s| || !('1' <= s[lo] <= '9') {
      return false;
    }
    for i := lo + 1 to |s|
      invariant AllDigits(s, lo, i)
    {
      if !IsDigit(s[i]) {
        return false;
      }
    }
    return true;
  }

  /** Splits a release into base and revision; `ok` is the verdict of `parse_package_version`. */
  method ParsePackageVersion(release: string) returns (ok: bool, marker: nat)
    ensures marker == MarkerFrom(release, 0)
    ensures ok <==> IsVersion(release)
  {
    marker := MarkerFrom(release, 0);
    if release == "" || |release| >= MAX_IDENTIFIER_LEN {
      return false, marker;
    }
    if marker < |release| && MarkerFrom(release, marker + 1) < |release| {
      assert !IsDigit(release[MarkerFrom(release, marker + 1)]);
      return false, marker;
    }
    ok := ParseNumericDotted(release, marker);
    if ok && marker < |release| {
      ok := ParseRevision(release, marker + 4);
    }
  }

  function KeyCmp(a: Key, b: Key): int {
    var base := LexCmp(a.base, b.base);
    if base != 0 then base else Sign(a.revision - b.revision)
  }

  /** What it is for a version to be older: its numbers come before those of the other, or they are the same
      and its revision is smaller, a missing one being 0. */
  ghost predicate Older(a: Key, b: Key) {
    Before(a.base, b.base) || (a.base == b.base && a.revision < b.revision)
  }

  lemma KeyCmpIsAge(a: Key, b: Key)
    ensures KeyCmp(a, b) < 0 <==> Older(a, b)
    ensures KeyCmp(a, b) > 0 <==> Older(b, a)
    ensures KeyCmp(a, b) == 0 <==> a == b
    ensures KeyCmp(a, b) in {-1, 0, 1}
  {
    hide LexCmp, Before;
    LexIsBefore(a.base, b.base);
    LexIsBefore(b.base, a.base);
    LexSwap(a.base, b.base);
    LexZero(a.base, b.base);
  }

  /** `package_release_compare`: rejects anything but two accepted versions, and otherwise orders
      them as the numbers they denote. */
  method ReleaseCompare(left: string, right: string) returns (err: Error, result: int)
    ensures err == Ok <==> IsVersion(left) && IsVersion(right)
    ensures err == InvalidInput <==> left == "" || right == ""
    ensures err == Ok ==> result == KeyCmp(KeyOf(left), KeyOf(right))
    ensures err == Ok ==>
              && (result == -1 <==> Older(KeyOf(left), KeyOf(right)))
              && (result == 1 <==> Older(KeyOf(right), KeyOf(left)))
              && (result == 0 <==> KeyOf(left) == KeyOf(right))
  {
    hide Older, LexCmp, NumericDotted, BaseValues, Value, MarkerFrom;
    result := 0;
    if left == "" || right == "" {
      return InvalidInput, 0;
    }
    var leftOk, l := ParsePackageVersion(left);
    var rightOk, r := ParsePackageVersion(right);
    if !leftOk || !rightOk {
      return InvalidRelease, 0;
    }
    result := CompareBaseVersions(left, l, right, r);
    if result == 0 {
      RevisionIsPositive(left);
      RevisionIsPositive(right);
      if l == |left| || r == |right| {
        result := if l == |left| && r == |right| then 0 else if l == |left| then -1 else 1;
      } else {
        result := CompareNumericText(left, l + 4, |left|, right, r + 4, |right|);
      }
    }
    KeyCmpIsAge(KeyOf(left), KeyOf(right));
    err := Ok;
  }

  lemma RevisionIsPositive(s: string)
    requires IsVersion(s)
    ensures KeyOf(s).revision == 0 <==> MarkerFrom(s, 0) == |s|
  {
    var m := MarkerFrom(s, 0);
    if m < |s| {
      ValueBound(s, m + 4, |s|);
      Pow10Monotone(0, |s| - m - 5);
    }
  }

  // ---- Versions and keys are the same thing ----

  /** The decimal numeral of `n`. */
  function Numeral(n: nat): (s: string)
    ensures Canonical(s, 0, |s|) && Value(s, 0, |s|) == n
  {
    var last := ('0' as int + n % 10) as char;
    if n < 10 then
      [last]
    else
      var high := Numeral(n / 10);
      var s := high + [last];
      ValueLocal(high, 0, |high|, s, 0);
      s
  }

  function RenderBase(base: seq<nat>): string
    requires |base| > 0
  {
    Numeral(base[0]) + if |base| == 1 then "" else "." + RenderBase(base[1..])
  }

  function Render(k: Key): string
    requires |k.base| > 0
  {
    RenderBase(k.base) + if k.revision == 0 then "" else REVISION_MARKER + Numeral(k.revision)
  }

  lemma NumeralOf(s: string, lo: nat, hi: nat)
    requires Canonical(s, lo, hi)
    ensures Numeral(Value(s, lo, hi)) == s[lo..hi]
  {
    hide Numeral;
    var t := Numeral(Value(s, lo, hi));
    CanonicalInjective(t, 0, |t|, s, lo, hi);
    assert t[0..|t|] == t;
  }

  lemma RenderCons(base: seq<nat>)
    requires |base| > 0
    ensures |base| == 1 ==> RenderBase(base) == Numeral(base[0])
    ensures |base| > 1 ==> RenderBase(base) == Numeral(base[0]) + ("." + RenderBase(base[1..]))
    ensures |RenderBase(base)| > 0
  {
    hide Numeral;
  }

  /** The parts of a range that is `head`, one separator and `rest`. */
  lemma RangeParts(s: string, lo: nat, hi: nat, head: string, sep: string, rest: string)
    requires Range(s, lo, hi) && s[lo..hi] == head + (sep + rest)
    ensures var n := lo + |head|;
            && n + |sep| + |rest| == hi
            && (forall i :: 0 <= i < |head| ==> s[i + lo] == head[i])
            && (forall i :: 0 <= i < |sep| ==> s[i + n] == sep[i])
            && s[lo..n] == head && s[n..n + |sep|] == sep && s[n + |sep|..hi] == rest
  {
    var t := s[lo..hi];
    assert forall i :: 0 <= i < |t| ==> t[i] == s[i + lo];
    assert forall i :: 0 <= i < |sep| ==> sep[i] == t[i + |head|];
    assert forall i :: 0 <= i < |rest| ==> rest[i] == t[i + (|head| + |sep|)];
  }

  lemma {:induction false} RenderBaseValues(s: string, lo: nat, hi: nat)
    requires Range(s, lo, hi) && NumericDotted(s, lo, hi)
    ensures RenderBase(BaseValues(s, lo, hi)) == s[lo..hi]
    decreases hi - lo
  {
    hide RenderBase, Numeral, Value, BaseValues, NumericDotted, SegmentEnd;
    var n, base := SegmentEnd(s, lo, hi), BaseValues(s, lo, hi);
    HeadSegment(s, lo, hi);
    NumeralOf(s, lo, n);
    RenderCons(base);
    if n < hi {
      RenderBaseValues(s, n + 1, hi);
      assert base[1..] == BaseValues(s, n + 1, hi);
      assert s[lo..hi] == s[lo..n] + ("." + s[n + 1..hi]);
    }
  }

  /** Every accepted text is the rendering of the key it denotes. */
  lemma RenderKeyOf(s: string)
    requires IsVersion(s)
    ensures |KeyOf(s).base| > 0 && Render(KeyOf(s)) == s
  {
    hide RenderBase, Numeral, Value, BaseValues;
    var m := MarkerFrom(s, 0);
    RenderBaseValues(s, 0, m);
    RevisionIsPositive(s);
    if m < |s| {
      NumeralOf(s, m + 4, |s|);
      assert s == s[0..m] + (REVISION_MARKER + s[m + 4..|s|]);
    } else {
      assert s[0..m] == s;
    }
  }

  /** A base rendered inside a longer text reads back as the same numbers. */
  lemma {:induction false} BaseOfRender(base: seq<nat>, s: string, lo: nat, hi: nat)
    requires |base| > 0 && Range(s, lo, hi) && s[lo..hi] == RenderBase(base)
    ensures NumericDotted(s, lo, hi) && BaseValues(s, lo, hi) == base
    ensures forall i :: lo <= i < hi ==> s[i] != '-'
    decreases |base|
  {
    hide RenderBase, Numeral, Value, NumericDotted, BaseValues;
    var head := Numeral(base[0]);
    var n := lo + |head|;
    RenderCons(base);
    if |base| > 1 {
      RangeParts(s, lo, hi, head, ".", RenderBase(base[1..]));
      assert s[n] == s[n..n + 1][0] == '.';
      BaseOfRender(base[1..], s, n + 1, hi);
      assert base == [base[0]] + base[1..];
    } else {
      assert head == head + ("" + "");
      RangeParts(s, lo, hi, head, "", "");
    }
    ValueLocal(head, 0, |head|, s, lo);
    ConsSegment(s, lo, n, hi);
  }

  lemma ConsSegment(s: string, lo: nat, n: nat, hi: nat)
    requires Canonical(s, lo, n) && n <= hi <= |s|
    requires n < hi ==> s[n] == '.' && NumericDotted(s, n + 1, hi)
    ensures NumericDotted(s, lo, hi)
    ensures BaseValues(s, lo, hi) == [Value(s, lo, n)] + if n == hi then [] else BaseValues(s, n + 1, hi)
  {
    hide Value;
    assert SegmentEnd(s, lo, hi) == n;
  }

  lemma KeyFromParts(s: string, n: nat)
    requires 0 < |s| < MAX_IDENTIFIER_LEN && n <= |s| && NumericDotted(s, 0, n)
    requires forall i :: 0 <= i < n ==> s[i] != '-'
    requires n < |s| ==> MarkerHere(s, n) && IsRevision(s, n + 4)
    ensures IsVersion(s)
    ensures KeyOf(s) == Key(BaseValues(s, 0, n), if n == |s| then 0 else Value(s, n + 4, |s|))
  {
    hide NumericDotted, BaseValues, Value;
    assert forall j :: 0 <= j < n ==> !MarkerHere(s, j);
    assert MarkerFrom(s, 0) == n;
  }

  /** Every key whose rendering is short enough is the key of exactly that text. */
  lemma KeyOfRender(k: Key)
    requires |k.base| > 0 && |Render(k)| < MAX_IDENTIFIER_LEN
    ensures IsVersion(Render(k)) && KeyOf(Render(k)) == k
  {
    hide RenderBase, Numeral, Value, NumericDotted, BaseValues, MarkerFrom;
    var base, s := RenderBase(k.base), Render(k);
    var n := |base|;
    RenderCons(k.base);
    assert s[0..n] == base;
    BaseOfRender(k.base, s, 0, n);
    if k.revision != 0 {
      var digits := Numeral(k.revision);
      assert s[0..|s|] == s == base + (REVISION_MARKER + digits);
      RangeParts(s, 0, |s|, base, REVISION_MARKER, digits);
      RevisionParts(s, n, digits);
    }
    KeyFromParts(s, n);
  }

  lemma RevisionParts(s: string, n: nat, digits: string)
    requires n + 4 + |digits| == |s| && s[n + 4..] == digits
    requires s[n..n + 4] == REVISION_MARKER
    requires Canonical(digits, 0, |digits|) && Value(digits, 0, |digits|) != 0
    ensures MarkerHere(s, n) && IsRevision(s, n + 4)
    ensures Value(s, n + 4, |s|) == Value(digits, 0, |digits|)
  {
    hide Value;
    var marker := s[n..n + 4];
    assert marker[0] == s[n] && marker[1] == s[n + 1] && marker[2] == s[n + 2] && marker[3] == s[n + 3];
    assert forall i :: 0 <= i < |digits| ==> digits[i] == s[n + 4..][i] == s[i + (n + 4)];
    ValueLocal(digits, 0, |digits|, s, n + 4);
    ZeroNumeral(digits);
    assert digits[0] == s[0 + (n + 4)];
  }

  lemma ZeroNumeral(s: string)
    requires Canonical(s, 0, |s|) && Value(s, 0, |s|) != 0
    ensures s[0] != '0'
  {}

  // ---- The order ----

  function Cmp(a: string, b: string): int
    requires IsVersion(a) && IsVersion(b)
  {
    KeyCmp(KeyOf(a), KeyOf(b))
  }

  ghost predicate IsOlder(a: string, b: string) {
    IsVersion(a) && IsVersion(b) && Older(KeyOf(a), KeyOf(b))
  }

  /** Comparison decides age. With equal numbers the smaller revision is older, and so a version without one
      is older than all its revisions; otherwise the first number that differs decides, and a version whose
      numbers merely begin those of the other is older. */
  lemma CmpIsAge(a: string, b: string)
    requires IsVersion(a) && IsVersion(b)
    ensures Cmp(a, b) < 0 <==> Older(KeyOf(a), KeyOf(b))
    ensures Cmp(a, b) > 0 <==> Older(KeyOf(b), KeyOf(a))
    ensures KeyOf(a).base == KeyOf(b).base ==> (Cmp(a, b) < 0 <==> KeyOf(a).revision < KeyOf(b).revision)
    ensures KeyOf(a).base != KeyOf(b).base ==> (Cmp(a, b) < 0 <==> Before(KeyOf(a).base, KeyOf(b).base))
  {
    hide IsVersion, KeyOf, KeyCmp;
    KeyCmpIsAge(KeyOf(a), KeyOf(b));
    NotBeforeItself(KeyOf(a).base);
  }

  lemma NotBeforeItself(a: seq<int>)
    ensures !Before(a, a)
  {}

  /** A revision is newer than the release it revises, and a later revision newer than an earlier one. */
  lemma RevisionsFollow(k: Key, later: nat)
    requires |k.base| > 0 && k.revision < later
    requires |Render(k)| < MAX_IDENTIFIER_LEN && |Render(k.(revision := later))| < MAX_IDENTIFIER_LEN
    ensures IsVersion(Render(k)) && IsVersion(Render(k.(revision := later)))
    ensures Cmp(Render(k), Render(k.(revision := later))) < 0
  {
    hide IsVersion, KeyOf, Render, Cmp;
    KeyOfRender(k);
    KeyOfRender(k.(revision := later));
    CmpIsAge(Render(k), Render(k.(revision := later)));
  }

  /** How a version is read. */
  lemma VersionExample()
    ensures IsVersion("23.1.0-rev4") && KeyOf("23.1.0-rev4") == Key([23, 1, 0], 4)
    ensures IsVersion("23.1.0") && KeyOf("23.1.0") == Key([23, 1, 0], 0)
  {
    hide IsVersion, KeyOf, Numeral, NumericDotted;
    ExampleNumerals();
    ExampleBase();
    var base: seq<nat> := [23, 1, 0];
    assert Render(Key(base, 4)) == "23.1.0" + ("-rev" + "4") == "23.1.0-rev4";
    assert Render(Key(base, 0)) == "23.1.0" + "" == "23.1.0";
    KeyOfRender(Key(base, 4));
    KeyOfRender(Key(base, 0));
  }

  lemma ExampleNumerals()
    ensures Numeral(23) == "23" && Numeral(1) == "1" && Numeral(0) == "0" && Numeral(4) == "4"
  {
    assert Numeral(2) == "2";
  }

  lemma ExampleBase()
    ensures RenderBase([23, 1, 0]) == "23.1.0"
  {
    hide Numeral;
    ExampleNumerals();
    assert [23, 1, 0][1..] == [1, 0] && [1, 0][1..] == [0];
    assert RenderBase([0]) == "0";
    assert RenderBase([1, 0]) == "1.0";
  }

  /** Comparison is 0 only for equal texts. */
  lemma CmpZero(a: string, b: string)
    requires IsVersion(a) && IsVersion(b)
    ensures Cmp(a, b) == 0 <==> a == b
  {
    LexZero(KeyOf(a).base, KeyOf(b).base);
    if Cmp(a, b) == 0 {
      RenderKeyOf(a);
      RenderKeyOf(b);
    }
  }

  lemma CmpSwap(a: string, b: string)
    requires IsVersion(a) && IsVersion(b)
    ensures Cmp(b, a) == -Cmp(a, b)
  {
    LexSwap(KeyOf(a).base, KeyOf(b).base);
  }

  lemma CmpTransitive(a: string, b: string, c: string)
    requires IsVersion(a) && IsVersion(b) && IsVersion(c)
    requires Cmp(a, b) <= 0 && Cmp(b, c) <= 0
    ensures Cmp(a, c) <= 0
    ensures Cmp(a, c) == 0 ==> a == b == c
  {
    var x, y, z := KeyOf(a).base, KeyOf(b).base, KeyOf(c).base;
    LexTransitive(x, y, z);
    LexZero(x, y);
    LexZero(y, z);
    LexZero(x, z);
    CmpZero(a, b);
    CmpZero(b, c);
  }
}
