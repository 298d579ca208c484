/** Syntax of path segments, as the POSIX branches decide it. */
module Paths {
  import opened Text

  const MAX_PATH_SEGMENT_LEN := 256
  const MAX_PATH_LEN := 1024
  const MAX_PACKAGE_PATH_DEPTH: nat := 64
  const MAX_PACKAGE_PATH_TABLE_BYTES: nat := 256 * 1024 * 1024

  const RESERVED_NAMES: set<string> :=
    {"con", "prn", "aux", "nul", "com1", "com2", "com3", "com4", "com5", "com6", "com7", "com8", "com9",
     "lpt1", "lpt2", "lpt3", "lpt4", "lpt5", "lpt6", "lpt7", "lpt8", "lpt9"}

  function LowerChar(c: char): char {
    if 'A' <= c <= 'Z' then (c as int + 32) as char else c
  }

  /** ASCII case folding. */
  function Lower(s: string): (r: string)
    ensures |r| == |s| && forall i :: 0 <= i < |s| ==> r[i] == LowerChar(s[i])
  {
    seq(|s|, i requires 0 <= i < |s| => LowerChar(s[i]))
  }

  /** Equal, or the upper and the lower form of one ASCII letter. */
  predicate SameLetter(c: char, d: char) {
    || c == d
    || ('A' <= c <= 'Z' && d as int == c as int + 32)
    || ('A' <= d <= 'Z' && c as int == d as int + 32)
  }

  /** The same text but for the case of letters. */
  predicate SameButCase(a: string, b: string) {
    |a| == |b| && forall i :: 0 <= i < |a| ==> SameLetter(a[i], b[i])
  }

  /** One path is a proper ancestor of another but for the case of letters. */
  predicate AncestorButCase(a: string, b: string) {
    |a| < |b| && b[|a|] == '/' && SameButCase(a, b[..|a|])
  }

  lemma FoldsLetter(c: char, d: char)
    ensures LowerChar(c) == LowerChar(d) <==> SameLetter(c, d)
    ensures LowerChar(c) == '/' <==> c == '/'
  {}

  /** Folding makes two texts equal exactly when they differ in case alone. */
  lemma FoldedEqualIff(a: string, b: string)
    ensures Lower(a) == Lower(b) <==> SameButCase(a, b)
  {
    hide LowerChar, SameLetter;
    if |a| == |b| {
      forall i | 0 <= i < |a| ensures Lower(a)[i] == Lower(b)[i] <==> SameLetter(a[i], b[i]) {
        FoldsLetter(a[i], b[i]);
      }
    }
  }

  predicate SegmentChar(c: char) {
    && '!' <= c <= '~' && c != '/' && c != '\\' && c != ':' && c != '*' && c != '?'
    && c != '"' && c != '<' && c != '>' && c != '|'
  }

  /** `path_is_safe_segment`: printable, no separator, no traversal, no platform alias. */
  predicate SafeSegment(s: string) {
    && s != "" && |s| < MAX_PATH_SEGMENT_LEN && s != "." && s != ".."
    && (forall i :: 0 <= i < |s| ==> SegmentChar(s[i]))
    && s[|s| - 1] != '.'
    && Lower(s[..IndexOf(s, '.')]) !in RESERVED_NAMES
  }

  /** A platform alias is no safe segment, in any case and with any extension. */
  lemma AliasIsUnsafe(s: string, alias: string, extension: string)
    requires alias in RESERVED_NAMES && SameButCase(s, alias) && (extension == "" || extension[0] == '.')
    ensures !SafeSegment(s + extension)
  {
    hide SegmentChar;
    var whole := s + extension;
    AliasIsFolded(alias);
    FoldedEqualIff(s, alias);
    forall i | 0 <= i < |s| ensures s[i] != '.' {
      assert SameLetter(s[i], alias[i]) && alias[i] != '.';
    }
    assert forall k :: 0 <= k < |s| ==> whole[k] == s[k];
    IndexOfUnique(whole, '.', |s|);
    assert whole[..|s|] == s;
  }

  lemma AliasIsFolded(alias: string)
    requires alias in RESERVED_NAMES
    ensures Lower(alias) == alias && forall i :: 0 <= i < |alias| ==> alias[i] != '.'
  {}

  /** Position of the last `c`, or -1: `strrchr`. */
  function LastIndexOf(s: string, c: char): (i: int)
    ensures -1 <= i < |s|
    ensures i >= 0 ==> s[i] == c
    ensures forall k :: i < k < |s| ==> s[k] != c
  {
    if s == "" then -1
    else if s[|s| - 1] == c then |s| - 1
    else LastIndexOf(s[..|s| - 1], c)
  }

  /** `path_last_segment`. */
  function LastSegment(path: string): string {
    path[LastIndexOf(path, '/') + 1..]
  }

  /** The name joined under a directory is its last segment. */
  lemma LastOfJoined(directory: string, name: string)
    requires forall i :: 0 <= i < |name| ==> name[i] != '/'
    ensures LastSegment(directory + ("/" + name)) == name
  {
    var path := directory + ("/" + name);
    assert path[|directory|] == '/';
    assert forall k :: |directory| < k < |path| ==> path[k] == name[k - |directory| - 1];
    assert LastIndexOf(path, '/') == |directory|;
  }

  /** `path_parent` on a POSIX host. */
  function Parent(path: string): Option<string> {
    if path == "" || |path| >= MAX_PATH_LEN then None
    else
      var i := LastIndexOf(path, '/');
      Some(if i < 0 then "." else if i == 0 then "/" else path[..i])
  }

  /** The text between slashes, from position `from`; a trailing slash adds nothing. */
  function SegmentsFrom(path: string, from: nat): (r: seq<string>)
    requires from <= |path|
    decreases |path| - from
  {
    if from == |path| then []
    else
      var n := IndexFrom(path, '/', from);
      [path[from..n]] + if n == |path| then [] else SegmentsFrom(path, n + 1)
  }

  /** `path_is_safe_relative`: safe segments joined by single slashes. */
  predicate SafeRelative(path: string) {
    && path != "" && path[|path| - 1] != '/'
    && forall i :: 0 <= i < |SegmentsFrom(path, 0)| ==> SafeSegment(SegmentsFrom(path, 0)[i])
  }
}
