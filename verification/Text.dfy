/** String helpers shared by every persistent text format: comparison, splitting and joining. */
module Text {

  datatype Option<+T> = None | Some(value: T)

  function Sign(x: int): int {
    if x < 0 then -1 else if x > 0 then 1 else 0
  }

  /** Lexicographic comparison with a proper prefix first, as `strcmp` and `memcmp` order bytes. */
  function LexCmp(a: seq<int>, b: seq<int>): int {
    if a == [] && b == [] then 0
    else if a == [] then -1
    else if b == [] then 1
    else if a[0] != b[0] then Sign(a[0] - b[0])
    else LexCmp(a[1..], b[1..])
  }

  lemma {:induction false} LexZero(a: seq<int>, b: seq<int>)
    ensures LexCmp(a, b) == 0 <==> a == b
  {
    if a != [] && b != [] && a[0] == b[0] {
      LexZero(a[1..], b[1..]);
      assert a == [a[0]] + a[1..] && b == [b[0]] + b[1..];
    }
  }

  lemma {:induction false} LexSwap(a: seq<int>, b: seq<int>)
    ensures LexCmp(b, a) == -LexCmp(a, b)
  {
    if a != [] && b != [] && a[0] == b[0] {
      LexSwap(a[1..], b[1..]);
    }
  }

  lemma {:induction false} LexTransitive(a: seq<int>, b: seq<int>, c: seq<int>)
    requires LexCmp(a, b) <= 0 && LexCmp(b, c) <= 0
    ensures LexCmp(a, c) <= 0
    ensures LexCmp(a, c) == 0 ==> LexCmp(a, b) == 0 && LexCmp(b, c) == 0
  {
    if a != [] && b != [] && c != [] && a[0] == b[0] && b[0] == c[0] {
      LexTransitive(a[1..], b[1..], c[1..]);
    }
  }

  /** One sequence comes before another: at the first place where they differ it has the smaller value, or
      it ends there. */
  ghost predicate Before(a: seq<int>, b: seq<int>) {
    exists n: nat :: n <= |a| && n < |b| && a[..n] == b[..n] && (n == |a| || a[n] < b[n])
  }

  /** The comparison follows the first difference. */
  lemma {:induction false} LexIsBefore(a: seq<int>, b: seq<int>)
    ensures LexCmp(a, b) < 0 <==> Before(a, b)
    ensures LexCmp(a, b) in {-1, 0, 1}
  {
    if a == [] {
      if b != [] {
        assert a[..0] == b[..0];
      }
    } else if b != [] {
      LexIsBefore(a[1..], b[1..]);
      if a[0] < b[0] {
        assert a[..0] == b[..0];
      }
      if a[0] == b[0] && Before(a[1..], b[1..]) {
        var n: nat :| n <= |a[1..]| && n < |b[1..]| && a[1..][..n] == b[1..][..n]
                      && (n == |a[1..]| || a[1..][n] < b[1..][n]);
        assert a[..n + 1] == [a[0]] + a[1..][..n] == b[..n + 1];
      }
      if Before(a, b) && a[0] >= b[0] {
        var n: nat :| n <= |a| && n < |b| && a[..n] == b[..n] && (n == |a| || a[n] < b[n]);
        assert n > 0;
        assert a[0] == a[..n][0] == b[..n][0] == b[0];
        assert a[1..][..n - 1] == a[..n][1..] == b[..n][1..] == b[1..][..n - 1];
      }
    }
  }

  function Codes(s: string): (r: seq<int>)
    ensures |r| == |s|
    ensures forall i :: 0 <= i < |s| ==> r[i] == s[i] as int
  {
    seq(|s|, i requires 0 <= i < |s| => s[i] as int)
  }

  /** `strcmp`, normalised to -1, 0 and 1. */
  function StrCmp(a: string, b: string): int {
    LexCmp(Codes(a), Codes(b))
  }

  lemma StrZero(a: string, b: string)
    ensures StrCmp(a, b) == 0 <==> a == b
  {
    LexZero(Codes(a), Codes(b));
    if Codes(a) == Codes(b) {
      assert |a| == |b|;
      forall i | 0 <= i < |a| ensures a[i] == b[i] {
        assert Codes(a)[i] == Codes(b)[i];
      }
    }
  }

  lemma StrSwap(a: string, b: string)
    ensures StrCmp(b, a) == -StrCmp(a, b)
  {
    LexSwap(Codes(a), Codes(b));
  }

  lemma StrTransitive(a: string, b: string, c: string)
    requires StrCmp(a, b) <= 0 && StrCmp(b, c) <= 0
    ensures StrCmp(a, c) <= 0
    ensures StrCmp(a, c) == 0 ==> a == b == c
  {
    LexTransitive(Codes(a), Codes(b), Codes(c));
    StrZero(a, b);
    StrZero(b, c);
  }

  /** One text comes before another, byte by byte. */
  ghost predicate TextBefore(a: string, b: string) {
    Before(Codes(a), Codes(b))
  }

  lemma StrIsBefore(a: string, b: string)
    ensures StrCmp(a, b) < 0 <==> TextBefore(a, b)
    ensures StrCmp(a, b) == 0 <==> a == b
  {
    LexIsBefore(Codes(a), Codes(b));
    StrZero(a, b);
  }

  /** `strcmp` is a total order that separates texts. */
  lemma StrOrder(a: string, b: string, c: string)
    ensures (StrCmp(a, b) == 0 <==> a == b) && (StrCmp(b, c) == 0 <==> b == c) && (StrCmp(a, c) == 0 <==> a == c)
    ensures StrCmp(b, a) == -StrCmp(a, b)
    ensures StrCmp(a, b) <= 0 && StrCmp(b, c) <= 0 ==> StrCmp(a, c) <= 0
    ensures StrCmp(a, b) < 0 && StrCmp(b, c) <= 0 ==> StrCmp(a, c) < 0
    ensures StrCmp(a, b) <= 0 && StrCmp(b, c) < 0 ==> StrCmp(a, c) < 0
  {
    StrZero(a, b);
    StrZero(b, c);
    StrZero(a, c);
    StrSwap(a, b);
    if StrCmp(a, b) <= 0 && StrCmp(b, c) <= 0 {
      StrTransitive(a, b, c);
    }
  }

  /** Position of the first `c` in `s` at or after `from`, or |s|. */
  function IndexFrom(s: string, c: char, from: nat): (i: nat)
    requires from <= |s|
    ensures from <= i <= |s|
    ensures i < |s| ==> s[i] == c
    ensures forall k :: from <= k < i ==> s[k] != c
    decreases |s| - from
  {
    if from == |s| || s[from] == c then from else IndexFrom(s, c, from + 1)
  }

  /** Position of the first `c` in `s`, or |s|. */
  function IndexOf(s: string, c: char): (i: nat)
    ensures i <= |s|
    ensures i < |s| ==> s[i] == c
    ensures forall k :: 0 <= k < i ==> s[k] != c
  {
    IndexFrom(s, c, 0)
  }

  lemma IndexOfUnique(s: string, c: char, i: nat)
    requires i <= |s| && (forall k :: 0 <= k < i ==> s[k] != c) && (i < |s| ==> s[i] == c)
    ensures IndexOf(s, c) == i
  {}

  /** A sequence repeats nothing exactly when each of its values occurs once. */
  lemma {:induction false} DistinctIffOnce<T>(values: seq<T>)
    ensures (forall i, j :: 0 <= i < j < |values| ==> values[i] != values[j])
            <==> forall e :: e in values ==> multiset(values)[e] == 1
  {
    if values != [] {
      var n := |values| - 1;
      var rest, last := values[..n], values[n];
      DistinctIffOnce(rest);
      assert values == rest + [last];
      assert multiset(values) == multiset(rest) + multiset{last};
      if last in rest {
        var i :| 0 <= i < n && rest[i] == last;
        assert values[i] == values[n];
        assert multiset(values)[last] == multiset(rest)[last] + 1 > 1;
      } else {
        forall e | e in values ensures multiset(values)[e] == multiset(rest)[e] + if e == last then 1 else 0 {
        }
        if forall i, j :: 0 <= i < j < n ==> rest[i] != rest[j] {
          forall i, j | 0 <= i < j <= n ensures values[i] != values[j] {
          }
        }
      }
    }
  }

  /** Reordering keeps the values, and keeps them distinct. */
  lemma SameBag<T>(a: seq<T>, b: seq<T>)
    requires multiset(a) == multiset(b)
    ensures forall x :: x in a <==> x in b
    ensures (forall i, j :: 0 <= i < j < |a| ==> a[i] != a[j]) <==> (forall i, j :: 0 <= i < j < |b| ==> b[i] != b[j])
  {
    forall x ensures x in a <==> x in b {
      assert x in a <==> x in multiset(a);
      assert x in b <==> x in multiset(b);
    }
    DistinctIffOnce(a);
    DistinctIffOnce(b);
  }

  /** Texts in strictly ascending order, each compared only with its predecessor, are all distinct. */
  predicate StrictlyAscending(s: seq<string>) {
    forall i :: 0 < i < |s| ==> StrCmp(s[i - 1], s[i]) < 0
  }

  lemma {:induction false} AscendingIsDistinct(s: seq<string>, i: nat, j: nat)
    requires StrictlyAscending(s) && i < j < |s|
    ensures StrCmp(s[i], s[j]) < 0 && s[i] != s[j]
    decreases j
  {
    hide StrCmp;
    StrOrder(s[i], s[j], s[j]);
    if i < j - 1 {
      AscendingIsDistinct(s, i, j - 1);
      StrOrder(s[i], s[j - 1], s[j]);
    } else {
      assert StrCmp(s[j - 1], s[j]) < 0;
    }
  }

  predicate Sorted(s: seq<string>) {
    forall i :: 0 < i < |s| ==> StrCmp(s[i - 1], s[i]) <= 0
  }

  function InsertText(x: string, s: seq<string>): (r: seq<string>)
    ensures |r| == |s| + 1 && r[0] == (if s != [] && StrCmp(s[0], x) < 0 then s[0] else x)
  {
    if s != [] && StrCmp(s[0], x) < 0 then [s[0]] + InsertText(x, s[1..]) else [x] + s
  }

  /** What `qsort` with `strcmp` makes of a list. */
  function SortTexts(s: seq<string>): seq<string> {
    if s == [] then [] else InsertText(s[0], SortTexts(s[1..]))
  }

  lemma PrependText(x: string, s: seq<string>)
    requires Sorted(s) && (s != [] ==> StrCmp(x, s[0]) <= 0)
    ensures Sorted([x] + s) && multiset([x] + s) == multiset(s) + multiset{x}
  {
    hide StrCmp;
    var r := [x] + s;
    forall i | 0 < i < |r| ensures StrCmp(r[i - 1], r[i]) <= 0 {
      assert i > 1 ==> r[i - 1] == s[i - 2];
      assert r[i] == s[i - 1];
    }
  }

  lemma SortedTail(s: seq<string>)
    requires s != [] && Sorted(s)
    ensures Sorted(s[1..]) && (|s| > 1 ==> StrCmp(s[0], s[1]) <= 0)
  {
    hide StrCmp;
    var rest := s[1..];
    forall i | 0 < i < |rest| ensures StrCmp(rest[i - 1], rest[i]) <= 0 {
      assert rest[i - 1] == s[i] && rest[i] == s[i + 1];
    }
  }

  lemma {:induction false} InsertTextSorts(x: string, s: seq<string>)
    requires Sorted(s)
    ensures Sorted(InsertText(x, s)) && multiset(InsertText(x, s)) == multiset(s) + multiset{x}
  {
    if s != [] && StrCmp(s[0], x) < 0 {
      var rest := s[1..];
      SortedTail(s);
      InsertTextSorts(x, rest);
      hide StrCmp, Sorted;
      assert s == [s[0]] + rest;
      PrependText(s[0], InsertText(x, rest));
    } else {
      hide StrCmp, Sorted;
      if s != [] {
        StrOrder(s[0], x, x);
      }
      PrependText(x, s);
    }
  }

  lemma {:induction false} SortTextsSorts(s: seq<string>)
    ensures Sorted(SortTexts(s)) && multiset(SortTexts(s)) == multiset(s)
  {
    if s != [] {
      SortTextsSorts(s[1..]);
      InsertTextSorts(s[0], SortTexts(s[1..]));
      assert s == [s[0]] + s[1..];
    }
  }
}
