/** Verifying a package tree against its manifest, and what a passed verification says. */
module ManifestChecks {
  import opened Text
  import opened Domain
  import opened Paths
  import opened Manifests

  // ---- Lines ----

  datatype ListedEntry = ListedEntry(kind: string, mode: string, digest: string, relative: string)

  /** The text before the next tab, and the text after it. */
  function CutField(s: string): Option<(string, string)> {
    var n := IndexOf(s, '\t');
    if n == |s| then None else Some((s[..n], s[n + 1..]))
  }

  /** `split_manifest_entry`: four nonempty fields between exactly three tabs. */
  function SplitEntry(line: string): Option<ListedEntry> {
    match CutField(line)
    case None => None
    case Some((kind, first)) =>
      match CutField(first)
      case None => None
      case Some((mode, second)) =>
        match CutField(second)
        case None => None
        case Some((digest, relative)) =>
          if IndexOf(relative, '\t') < |relative| then None
          else if kind == "" || mode == "" || digest == "" || relative == "" then None
          else Some(ListedEntry(kind, mode, digest, relative))
  }

  predicate NoTab(s: string) {
    forall i :: 0 <= i < |s| ==> s[i] != '\t'
  }

  function JoinEntry(e: ListedEntry): string {
    e.kind + ("\t" + (e.mode + ("\t" + (e.digest + ("\t" + e.relative)))))
  }

  lemma CutIff(s: string, field: string, rest: string)
    ensures CutField(s) == Some((field, rest)) <==> s == field + ("\t" + rest) && NoTab(field)
  {
    if s == field + ("\t" + rest) && NoTab(field) {
      assert forall k :: 0 <= k < |field| ==> s[k] == field[k];
      IndexOfUnique(s, '\t', |field|);
      assert s[..|field|] == field && s[|field| + 1..] == rest;
    }
  }

  lemma LastField(s: string)
    ensures IndexOf(s, '\t') < |s| <==> !NoTab(s)
  {}

  /** A line splits as an entry exactly when it is the entry's fields joined by tabs. */
  lemma SplitIff(line: string, e: ListedEntry)
    ensures SplitEntry(line) == Some(e) <==>
              && line == JoinEntry(e) && e.kind != "" && e.mode != "" && e.digest != "" && e.relative != ""
              && NoTab(e.kind) && NoTab(e.mode) && NoTab(e.digest) && NoTab(e.relative)
  {
    hide CutField, NoTab, IndexOf;
    var third := e.relative;
    var second := e.digest + ("\t" + third);
    var first := e.mode + ("\t" + second);
    forall s, field, rest ensures CutField(s) == Some((field, rest)) <==> s == field + ("\t" + rest) && NoTab(field) {
      CutIff(s, field, rest);
    }
    LastField(e.relative);
    assert line == JoinEntry(e) <==> line == e.kind + ("\t" + first);
  }

  // ---- Case-folded keys ----

  function NextCapacity(capacity: nat, count: nat): nat {
    if count < capacity then capacity else if capacity == 0 then 64 else capacity * 2
  }

  /** Capacity of the key array after `n` additions. */
  function CapacityFor(n: nat): nat {
    if n == 0 then 0 else NextCapacity(CapacityFor(n - 1), n - 1)
  }

  function KeyBytes(paths: seq<string>, n: nat): nat
    requires n <= |paths|
  {
    if n == 0 then 0
    else KeyBytes(paths, n - 1) + (CapacityFor(n) as int - CapacityFor(n - 1) as int) * 8 + |paths[n - 1]| + 1
  }

  /** The key array is still within its limits after the n-th key. */
  predicate KeyFits(paths: seq<string>, n: nat)
    requires 0 < n <= |paths|
  {
    && |paths[n - 1]| < MAX_PATH_LEN && CapacityFor(n) <= MAX_PACKAGE_ARCHIVE_ENTRIES
    && KeyBytes(paths, n) <= MAX_PACKAGE_PATH_TABLE_BYTES
  }

  class ManifestPathKeys {
    var items: seq<string>
    var capacity: nat
    var bytes: nat

    constructor (ghost paths: seq<string>)
      ensures Holds(paths, 0)
    {
      items, capacity, bytes := [], 0, 0;
    }

    /** The folded keys of the first `n` paths, and the space they take. */
    ghost predicate Holds(paths: seq<string>, n: nat)
      reads this
    {
      && n <= |paths| && |items| == n && (forall k :: 0 <= k < n ==> items[k] == Lower(paths[k]))
      && capacity == CapacityFor(n) && bytes == KeyBytes(paths, n) <= MAX_PACKAGE_PATH_TABLE_BYTES
    }

    /** `add_folded_path`. */
    method Add(relative: string, ghost paths: seq<string>, ghost n: nat) returns (err: CupError)
      requires Holds(paths, n) && n < |paths| && relative == paths[n]
      modifies this
      ensures err == if KeyFits(paths, n + 1) then Ok else Validation
      ensures err == Ok ==> Holds(paths, n + 1)
    {
      if |relative| >= MAX_PATH_LEN {
        return Validation;
      }
      var folded := Lower(relative);
      var stringBytes := |folded| + 1;
      var grown := if |items| < capacity then capacity else if capacity == 0 then 64 else capacity * 2;
      if grown > MAX_PACKAGE_ARCHIVE_ENTRIES {
        return Validation;
      }
      var allocation := (grown - capacity) * 8;
      if allocation > MAX_PACKAGE_PATH_TABLE_BYTES - bytes
          || stringBytes > MAX_PACKAGE_PATH_TABLE_BYTES - bytes - allocation {
        return Validation;
      }
      items, capacity, bytes := items + [folded], grown, bytes + allocation + stringBytes;
      return Ok;
    }

    /** `path_keys_have_collision`: sort, then compare neighbours. */
    method HaveCollision() returns (found: bool)
      modifies this`items
      ensures found <==> exists i, j :: 0 <= i < j < |old(items)| && old(items)[i] == old(items)[j]
    {
      hide StrCmp, InsertText;
      if |items| < 2 {
        return false;
      }
      SortTextsSorts(items);
      var sorted := SortTexts(items);
      SameBag(items, sorted);
      items := sorted;
      for i := 1 to |sorted|
        invariant forall k :: 0 < k < i ==> StrCmp(sorted[k - 1], sorted[k]) < 0
      {
        StrOrder(sorted[i - 1], sorted[i], sorted[i]);
        if sorted[i - 1] == sorted[i] {
          return true;
        }
        assert StrCmp(sorted[i - 1], sorted[i]) <= 0;
      }
      forall i, j | 0 <= i < j < |sorted| ensures sorted[i] != sorted[j] {
        AscendingIsDistinct(sorted, i, j);
      }
      return false;
    }
  }

  // ---- One entry against the tree ----

  /** What inspecting a relative path reports. Only the last component is not followed, so a path that
      runs through a link is reported as whatever the link leads to. */
  type View = string -> Option<Facts>

  function Find(objects: seq<Object>, path: string): (r: Option<Facts>)
    ensures r.None? <==> forall o :: o in objects ==> o.path != path
    ensures r.Some? ==> Object(path, r.value) in objects
  {
    if objects == [] then None
    else if objects[0].path == path then Some(objects[0].facts)
    else Find(objects[1..], path)
  }

  function Physical(tree: seq<Child>, path: string): Option<Facts> {
    Find(Inventory("", tree), path)
  }

  predicate ThroughLink(tree: seq<Child>, path: string) {
    exists i :: 0 <= i < |path| && path[i] == '/'
                && Physical(tree, path[..i]).Some? && Physical(tree, path[..i]).value.LinkFacts?
  }

  /** Inspection tells the truth about every relative path that no link redirects. */
  ghost predicate Honest(tree: seq<Child>, view: View) {
    forall path :: SafeRelative(path) && path != MANIFEST_NAME && !ThroughLink(tree, path) ==>
      view(path) == Physical(tree, path)
  }

  /** A lower-case SHA-256 digest. */
  predicate CanonicalDigest(s: string) {
    |s| == 64 && forall i :: 0 <= i < |s| ==> '0' <= s[i] <= '9' || 'a' <= s[i] <= 'f'
  }

  /** The entry states the kind, mode and digest of the object. */
  predicate Describes(e: ListedEntry, facts: Facts) {
    match facts
    case FileFacts(mode, digest) =>
      && e.kind == "f" && (e.mode == "0644" || e.mode == "0755") && CanonicalDigest(e.digest)
      && mode == (if e.mode == "0755" then PUBLIC_MODE else PRIVATE_MODE) && digest == e.digest
    case DirectoryFacts(mode) => e.kind == "d" && e.digest == "-" && e.mode == "0755" && mode == PUBLIC_MODE
    case LinkFacts(digest, resolves) =>
      e.kind == "l" && e.mode == "-" && CanonicalDigest(e.digest) && digest == e.digest && resolves
    case OtherFacts => false
  }

  /** `verify_manifest_entry`. File contents are opened without following any link on the way. */
  predicate EntryMatches(tree: seq<Child>, view: View, host: string, base: nat, e: ListedEntry) {
    && SafeRelative(e.relative) && e.relative != MANIFEST_NAME && e.relative != ".manifest.paths"
    && PathFits(base, e.relative)
    && view(e.relative).Some? && Describes(e, view(e.relative).value)
    && (e.kind == "f" ==> Physical(tree, e.relative) == view(e.relative))
    && (e.kind == "l" ==> host != "windows-x64")
  }

  // ---- The whole manifest ----

  function EntryOf(line: string): ListedEntry {
    var e := SplitEntry(line);
    if e.Some? then e.value else ListedEntry("", "", "", "")
  }

  function Entries(lines: seq<string>): (r: seq<ListedEntry>)
    ensures |r| == |lines| && forall i :: 0 <= i < |r| ==> r[i] == EntryOf(lines[i])
  {
    seq(|lines|, i requires 0 <= i < |lines| => EntryOf(lines[i]))
  }

  function Relatives(lines: seq<string>): (r: seq<string>)
    ensures |r| == |lines| && forall i :: 0 <= i < |r| ==> r[i] == Entries(lines)[i].relative
  {
    seq(|lines|, i requires 0 <= i < |lines| => Entries(lines)[i].relative)
  }

  /** What the loop over the lines has checked about the first `n` of them. */
  predicate LinesPass(lines: seq<string>, n: nat, tree: seq<Child>, view: View, host: string, base: nat)
    requires n <= |lines|
  {
    && n <= MAX_PACKAGE_ARCHIVE_ENTRIES
    && (forall i :: 0 <= i < n ==> LinePasses(lines, i, tree, view, host, base))
  }

  predicate LinePasses(lines: seq<string>, i: nat, tree: seq<Child>, view: View, host: string, base: nat)
    requires i < |lines|
  {
    && SplitEntry(lines[i]).Some? && EntryMatches(tree, view, host, base, Entries(lines)[i])
    && (i > 0 ==> StrCmp(Relatives(lines)[i - 1], Relatives(lines)[i]) < 0)
    && KeyFits(Relatives(lines), i + 1)
  }

  /** Two paths that differ only in case. */
  predicate FoldedCollision(paths: seq<string>) {
    exists i, j :: 0 <= i < j < |paths| && Lower(paths[i]) == Lower(paths[j])
  }

  lemma FoldedCollisionIff(paths: seq<string>)
    ensures FoldedCollision(paths) <==> exists i, j :: 0 <= i < j < |paths| && SameButCase(paths[i], paths[j])
  {
    hide SameButCase, Lower;
    forall i, j | 0 <= i < j < |paths| ensures Lower(paths[i]) == Lower(paths[j]) <==> SameButCase(paths[i], paths[j]) {
      FoldedEqualIff(paths[i], paths[j]);
    }
  }

  /** What a passed verification has checked, on the lines after the format line. */
  predicate Verified(lines: seq<string>, tree: seq<Child>, view: View, host: string, base: nat) {
    && lines != [] && LinesPass(lines, |lines|, tree, view, host, base)
    && !FoldedCollision(Relatives(lines))
    && Countable("", tree, base, 0) && |Inventory("", tree)| == |lines|
  }

  lemma VerifiedLines(lines: seq<string>, tree: seq<Child>, view: View, host: string, base: nat)
    requires Verified(lines, tree, view, host, base)
    ensures StrictlyAscending(Relatives(lines)) && |Inventory("", tree)| == |lines|
    ensures forall i :: 0 <= i < |lines| ==> EntryMatches(tree, view, host, base, Entries(lines)[i])
  {
    hide EntryMatches, StrCmp, KeyFits, SplitEntry, Inventory, Countable;
    forall i | 0 <= i < |lines|
      ensures i > 0 ==> StrCmp(Relatives(lines)[i - 1], Relatives(lines)[i]) < 0
      ensures EntryMatches(tree, view, host, base, Entries(lines)[i])
    {
      assert LinePasses(lines, i, tree, view, host, base);
    }
  }

  /** Distinct values of one list that all occur in another of the same length make up all of it. */
  lemma {:induction false} SameSizeSameMembers<T>(listed: seq<T>, all: seq<T>)
    requires |listed| == |all| && (forall i :: 0 <= i < |listed| ==> listed[i] in all)
    requires forall i, j :: 0 <= i < j < |listed| ==> listed[i] != listed[j]
    ensures forall x :: x in all ==> x in listed
    decreases |listed|
  {
    if listed != [] {
      var n := |listed| - 1;
      var last := listed[n];
      var h :| 0 <= h < |all| && all[h] == last;
      var rest := all[..h] + all[h + 1..];
      forall i | 0 <= i < n ensures listed[i] in rest {
        var k :| 0 <= k < |all| && all[k] == listed[i];
        assert k != h;
        assert rest[if k < h then k else k - 1] == listed[i];
      }
      SameSizeSameMembers(listed[..n], rest);
      forall x | x in all ensures x in listed {
        if x != last {
          var k :| 0 <= k < |all| && all[k] == x;
          assert rest[if k < h then k else k - 1] == x;
          assert x in listed[..n];
        }
      }
    }
  }

  function ObjectPaths(objects: seq<Object>): (r: seq<string>)
    ensures |r| == |objects| && forall i :: 0 <= i < |r| ==> r[i] == objects[i].path
  {
    seq(|objects|, i requires 0 <= i < |objects| => objects[i].path)
  }

  /** An object of the tree is never reached through a link. */
  lemma ObjectsAreDirect(tree: seq<Child>, o: Object)
    requires WellNamed(tree) && o in Inventory("", tree)
    ensures Physical(tree, o.path) == Some(o.facts) && !ThroughLink(tree, o.path)
  {
    hide Inventory, WellNamed;
    var objects := Inventory("", tree);
    PathsAreDistinct("", tree);
    forall a, b | a in objects && b in objects && a.path == b.path ensures a == b {
      var i :| 0 <= i < |objects| && objects[i] == a;
      var j :| 0 <= j < |objects| && objects[j] == b;
      assert i < j || j < i || i == j;
    }
    forall i | 0 <= i < |o.path| && o.path[i] == '/'
      ensures Physical(tree, o.path[..i]).Some? && Physical(tree, o.path[..i]).value.DirectoryFacts?
    {
      AncestorsAreDirectories("", tree, o, i);
    }
  }

  /** A passed verification lists exactly the objects of the tree, if and only if no listed path runs
      through a link. */
  lemma ListedAreTheObjects(lines: seq<string>, tree: seq<Child>, view: View, host: string, base: nat)
    requires WellNamed(tree) && Honest(tree, view) && Verified(lines, tree, view, host, base)
    ensures (forall path :: path in Relatives(lines) <==> path in ObjectPaths(Inventory("", tree)))
            <==> forall i :: 0 <= i < |lines| ==> !ThroughLink(tree, Relatives(lines)[i])
  {
    hide Inventory, WellNamed, EntryMatches, ThroughLink, Verified, StrictlyAscending, Physical;
    VerifiedLines(lines, tree, view, host, base);
    var listed, objects := Relatives(lines), Inventory("", tree);
    var all := ObjectPaths(objects);
    if forall i :: 0 <= i < |lines| ==> !ThroughLink(tree, listed[i]) {
      forall i | 0 <= i < |listed| ensures listed[i] in all {
        MatchedIsObject(tree, view, host, base, Entries(lines)[i]);
      }
      forall i, j | 0 <= i < j < |listed| ensures listed[i] != listed[j] {
        AscendingIsDistinct(listed, i, j);
      }
      SameSizeSameMembers(listed, all);
    }
    if forall path :: path in listed <==> path in all {
      forall i | 0 <= i < |lines| ensures !ThroughLink(tree, listed[i]) {
        assert listed[i] in all;
        var k :| 0 <= k < |objects| && all[k] == listed[i];
        ObjectsAreDirect(tree, objects[k]);
      }
    }
  }

  lemma MatchedIsObject(tree: seq<Child>, view: View, host: string, base: nat, e: ListedEntry)
    requires Honest(tree, view) && EntryMatches(tree, view, host, base, e) && !ThroughLink(tree, e.relative)
    ensures e.relative in ObjectPaths(Inventory("", tree))
    ensures Physical(tree, e.relative).Some? && Describes(e, Physical(tree, e.relative).value)
  {
    hide Inventory, ThroughLink, SafeRelative, Describes;
    var objects, facts := Inventory("", tree), Physical(tree, e.relative).value;
    var k :| 0 <= k < |objects| && objects[k] == Object(e.relative, facts);
    assert ObjectPaths(objects)[k] == e.relative;
  }

  /** The manifest then pins the tree: every object has exactly one line, which states its kind, mode and
      digest. */
  lemma ManifestPinsTree(lines: seq<string>, tree: seq<Child>, view: View, host: string, base: nat, o: Object)
    requires WellNamed(tree) && Honest(tree, view) && Verified(lines, tree, view, host, base)
    requires forall i :: 0 <= i < |lines| ==> !ThroughLink(tree, Relatives(lines)[i])
    requires o in Inventory("", tree)
    ensures exists i :: 0 <= i < |lines| && Entries(lines)[i].relative == o.path
              && Describes(Entries(lines)[i], o.facts)
    ensures forall i, j :: 0 <= i < |lines| && 0 <= j < |lines| && Relatives(lines)[i] == Relatives(lines)[j] ==> i == j
  {
    hide Inventory, WellNamed, EntryMatches, ThroughLink, Verified, StrictlyAscending, Physical, Describes;
    VerifiedLines(lines, tree, view, host, base);
    ListedAreTheObjects(lines, tree, view, host, base);
    ObjectsAreDirect(tree, o);
    var objects, listed := Inventory("", tree), Relatives(lines);
    var k :| 0 <= k < |objects| && objects[k] == o;
    assert ObjectPaths(objects)[k] == o.path;
    assert o.path in ObjectPaths(objects);
    assert o.path in listed;
    var i :| 0 <= i < |listed| && listed[i] == o.path;
    MatchedIsObject(tree, view, host, base, Entries(lines)[i]);
    forall a, b | 0 <= a < b < |listed| ensures listed[a] != listed[b] {
      AscendingIsDistinct(listed, a, b);
    }
  }

  // ---- The operation ----

  lemma MatchingIsSafe(tree: seq<Child>, view: View, host: string, base: nat, e: ListedEntry)
    requires EntryMatches(tree, view, host, base, e)
    ensures SafeRelative(e.relative) && e.relative != ""
  {}

  /** One line of the list, against the previous path. */
  method CheckLine(lines: seq<string>, i: nat, previous: string, keys: ManifestPathKeys,
                   tree: seq<Child>, view: View, host: string, base: nat)
    returns (err: CupError, relative: string)
    requires i < |lines| && keys.Holds(Relatives(lines), i)
    requires previous == (if i == 0 then "" else Relatives(lines)[i - 1]) && (i > 0 ==> previous != "")
    modifies keys
    ensures err == if LinePasses(lines, i, tree, view, host, base) then Ok else Validation
    ensures err == Ok ==> relative == Relatives(lines)[i] != "" && keys.Holds(Relatives(lines), i + 1)
  {
    hide SplitEntry, StrCmp, SafeRelative, EntryMatches, KeyFits;
    relative := "";
    var split := SplitEntry(lines[i]);
    if split.None? {
      return Validation, relative;
    }
    var entry := split.value;
    assert entry == Entries(lines)[i];
    if EntryMatches(tree, view, host, base, entry) {
      MatchingIsSafe(tree, view, host, base, entry);
    }
    if !SafeRelative(entry.relative) || (previous != "" && StrCmp(previous, entry.relative) >= 0) {
      return Validation, relative;
    }
    err := keys.Add(entry.relative, Relatives(lines), i);
    if err == Ok && !EntryMatches(tree, view, host, base, entry) {
      err := Validation;
    }
    relative := entry.relative;
  }

  lemma NoLines(lines: seq<string>, tree: seq<Child>, view: View, host: string, base: nat)
    ensures LinesPass(lines, 0, tree, view, host, base)
  {}

  /** The lines pass up to the next one exactly when that one passes; a failing prefix fails the whole. */
  lemma OneMoreLine(lines: seq<string>, i: nat, tree: seq<Child>, view: View, host: string, base: nat)
    requires i < |lines| && LinesPass(lines, i, tree, view, host, base)
    ensures LinesPass(lines, i + 1, tree, view, host, base) <==>
              i < MAX_PACKAGE_ARCHIVE_ENTRIES && LinePasses(lines, i, tree, view, host, base)
    ensures !LinesPass(lines, i + 1, tree, view, host, base) ==> !LinesPass(lines, |lines|, tree, view, host, base)
  {
    hide LinePasses;
  }

  lemma KeysShowCollision(keys: ManifestPathKeys, paths: seq<string>)
    requires keys.Holds(paths, |paths|)
    ensures FoldedCollision(paths) <==> exists i, j :: 0 <= i < j < |keys.items| && keys.items[i] == keys.items[j]
  {
    hide KeyBytes, CapacityFor, Lower;
    var items := keys.items;
    assert forall k :: 0 <= k < |paths| ==> items[k] == Lower(paths[k]);
    if FoldedCollision(paths) {
      var i, j :| 0 <= i < j < |paths| && Lower(paths[i]) == Lower(paths[j]);
      assert items[i] == items[j];
    }
    if i, j :| 0 <= i < j < |items| && items[i] == items[j] {
      assert Lower(paths[i]) == Lower(paths[j]);
    }
  }

  /** `package_manifest_verify_with_progress` after the format line. */
  method VerifyManifest(lines: seq<string>, tree: seq<Child>, view: View, host: string, base: nat)
    returns (err: CupError)
    ensures err == if Verified(lines, tree, view, host, base) then Ok else Validation
    ensures (exists i, j :: 0 <= i < j < |lines| && SameButCase(Relatives(lines)[i], Relatives(lines)[j])) ==>
              err == Validation
  {
    hide LinePasses, Inventory, Countable, Relatives, LinesPass, FoldedCollision, KeyBytes, CapacityFor, Lower,
         SameButCase;
    FoldedCollisionIff(Relatives(lines));
    NoLines(lines, tree, view, host, base);
    ghost var listed := Relatives(lines);
    var keys := new ManifestPathKeys(listed);
    var previous := "";
    for i := 0 to |lines|
      invariant fresh(keys) && keys.Holds(listed, i) && LinesPass(lines, i, tree, view, host, base)
      invariant previous == (if i == 0 then "" else listed[i - 1]) && (i > 0 ==> previous != "")
    {
      OneMoreLine(lines, i, tree, view, host, base);
      if i >= MAX_PACKAGE_ARCHIVE_ENTRIES {
        return Validation;
      }
      err, previous := CheckLine(lines, i, previous, keys, tree, view, host, base);
      if err != Ok {
        return;
      }
    }
    KeysShowCollision(keys, listed);
    var found := keys.HaveCollision();
    if found {
      return Validation;
    }
    if |lines| == 0 {
      return Validation;
    }
    var count;
    err, count := CountTree("", tree, 0, base, 0);
    if err == Ok && count != |lines| {
      err := Validation;
    }
  }
}
