/** The manifest that a tree calls for, line by line, and that verification accepts it and nothing else. */
module ManifestTexts {
  import opened Text
  import opened Domain
  import opened Paths
  import opened Manifests
  import opened SymlinkTargets
  import opened ManifestChecks

  /** The line of one object. */
  function LineFor(o: Object): string {
    match o.facts
    case FileFacts(mode, digest) =>
      "f" + ("\t" + ((if mode == 0x1ed then "0755" else "0644") + ("\t" + (digest + ("\t" + o.path)))))
    case DirectoryFacts(_) => "d" + ("\t" + ("0755" + ("\t" + ("-" + ("\t" + o.path)))))
    case LinkFacts(digest, _) => "l" + ("\t" + ("-" + ("\t" + (digest + ("\t" + o.path)))))
    case OtherFacts => ""
  }

  /** Objects that a manifest can list: files that are executable or not and nothing else, public directories,
      and links that lead to a regular file of the package, where there are links. */
  predicate Listable(o: Object, host: string, base: nat) {
    && SafeRelative(o.path) && o.path != "manifest.txt" && o.path != ".manifest.paths" && base + 1 + |o.path| < 1024
    && match o.facts
       case FileFacts(mode, digest) => (mode == 0x1a4 || mode == 0x1ed) && IsDigest(digest)
       case DirectoryFacts(mode) => mode == 0x1ed
       case LinkFacts(digest, resolves) => IsDigest(digest) && resolves && host != "windows-x64"
       case OtherFacts => false
  }

  predicate IsDigest(s: string) {
    |s| == 64 && forall i :: 0 <= i < |s| ==> s[i] in "0123456789abcdef"
  }

  function EntryFor(o: Object): ListedEntry {
    match o.facts
    case FileFacts(mode, digest) => ListedEntry("f", if mode == 0x1ed then "0755" else "0644", digest, o.path)
    case DirectoryFacts(_) => ListedEntry("d", "0755", "-", o.path)
    case LinkFacts(digest, _) => ListedEntry("l", "-", digest, o.path)
    case OtherFacts => ListedEntry("", "", "", "")
  }

  lemma DigestIff(s: string)
    ensures CanonicalDigest(s) <==> IsDigest(s)
    ensures IsDigest(s) ==> s != "" && NoTab(s)
  {
    forall c: char ensures c in "0123456789abcdef" <==> '0' <= c <= '9' || 'a' <= c <= 'f' {
      HexDigit(c);
    }
  }

  lemma HexDigit(c: char)
    ensures c in "0123456789abcdef" <==> '0' <= c <= '9' || 'a' <= c <= 'f'
  {
    var hex := "0123456789abcdef";
    if '0' <= c <= '9' {
      assert hex[c as int - '0' as int] == c;
    } else if 'a' <= c <= 'f' {
      assert hex[c as int - 'a' as int + 10] == c;
    }
  }

  lemma SafeHasNoTab(s: string)
    requires SafeSegment(s)
    ensures NoTab(s)
  {}

  lemma {:induction false} SegmentsHaveNoTab(path: string, from: nat)
    requires from <= |path|
    requires forall i :: 0 <= i < |SegmentsFrom(path, from)| ==> SafeSegment(SegmentsFrom(path, from)[i])
    ensures forall i :: from <= i < |path| ==> path[i] != '\t'
    decreases |path| - from
  {
    hide IndexFrom, SegmentsFrom, SafeSegment;
    if from < |path| {
      FirstSegment(path, from);
      var n := IndexFrom(path, '/', from);
      var name, next := path[from..n], if n == |path| then n else n + 1;
      var segments, rest := SegmentsFrom(path, from), SegmentsFrom(path, next);
      assert segments == [name] + rest && segments[0] == name;
      SafeHasNoTab(name);
      forall i | 0 <= i < |rest| ensures SafeSegment(rest[i]) {
        assert segments[i + 1] == rest[i];
      }
      SegmentsHaveNoTab(path, next);
      forall i | from <= i < |path| ensures path[i] != '\t' {
        if i < n {
          assert path[i] == name[i - from];
        }
      }
    }
  }

  /** The line of a listable object splits into its entry, and the entry describes the object. */
  lemma LineSplits(o: Object, host: string, base: nat)
    requires Listable(o, host, base)
    ensures SplitEntry(LineFor(o)) == Some(EntryFor(o)) && Describes(EntryFor(o), o.facts)
    ensures EntryFor(o).relative == o.path
  {
    hide SplitEntry, SegmentsFrom, SafeSegment;
    SegmentsHaveNoTab(o.path, 0);
    match o.facts {
      case FileFacts(_, digest) => DigestIff(digest);
      case LinkFacts(digest, _) => DigestIff(digest);
      case DirectoryFacts(_) =>
    }
    SplitIff(LineFor(o), EntryFor(o));
  }

  /** An entry that describes an object is the entry of its line. */
  lemma DescribedIsListable(e: ListedEntry, o: Object, host: string, base: nat)
    requires e.relative == o.path && Describes(e, o.facts)
    requires SafeRelative(o.path) && o.path != MANIFEST_NAME && o.path != ".manifest.paths" && PathFits(base, o.path)
    requires e.kind == "l" ==> host != "windows-x64"
    ensures Listable(o, host, base) && e == EntryFor(o) && JoinEntry(e) == LineFor(o)
  {
    hide SafeRelative;
    DigestIff(e.digest);
  }

  /** The lines are those of the objects, in the order of their paths, each object once. */
  ghost predicate Lists(lines: seq<string>, objects: seq<Object>, tree: seq<Child>, host: string, base: nat) {
    && |lines| == |objects| > 0 && (forall o :: o in objects <==> o in Inventory("", tree))
    && (forall i :: 0 <= i < |objects| ==> Listable(objects[i], host, base) && lines[i] == LineFor(objects[i]))
    && (forall i :: 0 < i < |objects| ==> TextBefore(objects[i - 1].path, objects[i].path))
    && (forall i, j :: 0 <= i < j < |objects| ==> !SameButCase(objects[i].path, objects[j].path))
  }

  /** The paths and their keys are within the limits of the reader. */
  predicate WithinLimits(objects: seq<Object>) {
    && |objects| <= MAX_PACKAGE_ARCHIVE_ENTRIES
    && forall n :: 0 < n <= |objects| ==> KeyFits(ObjectPaths(objects), n)
  }

  lemma ListedPaths(lines: seq<string>, objects: seq<Object>, tree: seq<Child>, host: string, base: nat)
    requires Lists(lines, objects, tree, host, base)
    ensures Relatives(lines) == ObjectPaths(objects)
    ensures forall i :: 0 <= i < |lines| ==> SplitEntry(lines[i]) == Some(EntryFor(objects[i]))
    ensures forall i :: 0 <= i < |lines| ==> Entries(lines)[i] == EntryFor(objects[i])
  {
    hide SplitEntry, Listable, LineFor, EntryFor, Inventory, TextBefore, SameButCase, Describes;
    forall i | 0 <= i < |lines|
      ensures SplitEntry(lines[i]) == Some(EntryFor(objects[i])) && Relatives(lines)[i] == objects[i].path
    {
      LineSplits(objects[i], host, base);
    }
  }

  /** The manifest of a tree passes. */
  lemma ManifestOfTreePasses(lines: seq<string>, objects: seq<Object>, tree: seq<Child>, view: View, host: string,
                             base: nat)
    requires WellNamed(tree) && Honest(tree, view) && Countable("", tree, base, 0)
    requires Lists(lines, objects, tree, host, base) && WithinLimits(objects)
    ensures Verified(lines, tree, view, host, base)
  {
    hide Inventory, WellNamed, Countable, KeyFits, SplitEntry, TextBefore, SameButCase, Describes, SafeRelative, Honest,
         EntryMatches, StrCmp, LineFor, EntryFor, Physical, FoldedCollision;
    ListedPaths(lines, objects, tree, host, base);
    var paths := ObjectPaths(objects);
    FoldedCollisionIff(paths);
    forall i | 0 <= i < |lines| ensures LinePasses(lines, i, tree, view, host, base) {
      ListedMatches(tree, view, host, base, objects[i]);
      assert KeyFits(paths, i + 1);
      if i > 0 {
        StrIsBefore(paths[i - 1], paths[i]);
      }
    }
    PathsDiffer(objects);
    PathsAreDistinct("", tree);
    SameCount(objects, Inventory("", tree));
  }

  lemma PathsDiffer(objects: seq<Object>)
    requires forall i :: 0 < i < |objects| ==> TextBefore(objects[i - 1].path, objects[i].path)
    ensures DistinctPaths(objects)
  {
    hide TextBefore, StrCmp;
    var paths := ObjectPaths(objects);
    forall i | 0 < i < |paths| ensures StrCmp(paths[i - 1], paths[i]) < 0 {
      StrIsBefore(paths[i - 1], paths[i]);
    }
    forall i, j | 0 <= i < j < |objects| ensures objects[i].path != objects[j].path {
      AscendingIsDistinct(paths, i, j);
    }
  }

  /** Lists of the same distinct values are of one length. */
  lemma SameCount(a: seq<Object>, b: seq<Object>)
    requires DistinctPaths(a) && DistinctPaths(b) && forall o :: o in a <==> o in b
    ensures |a| == |b|
  {
    forall i | 0 <= i < |a| ensures a[i] in b {
      assert a[i] in a;
    }
    forall i | 0 <= i < |b| ensures b[i] in a {
      assert b[i] in b;
    }
    NoMore(a, b);
    NoMore(b, a);
  }

  lemma {:induction false} NoMore(a: seq<Object>, b: seq<Object>)
    requires (forall i, j :: 0 <= i < j < |a| ==> a[i].path != a[j].path) && forall i :: 0 <= i < |a| ==> a[i] in b
    ensures |a| <= |b|
    decreases |a|
  {
    if a != [] {
      var last := a[|a| - 1];
      var h :| 0 <= h < |b| && b[h] == last;
      var rest := b[..h] + b[h + 1..];
      forall i | 0 <= i < |a| - 1 ensures a[i] in rest {
        var k :| 0 <= k < |b| && b[k] == a[i];
        assert k != h;
        assert rest[if k < h then k else k - 1] == a[i];
      }
      NoMore(a[..|a| - 1], rest);
    }
  }

  lemma ListedMatches(tree: seq<Child>, view: View, host: string, base: nat, o: Object)
    requires WellNamed(tree) && Honest(tree, view) && o in Inventory("", tree) && Listable(o, host, base)
    ensures EntryMatches(tree, view, host, base, EntryFor(o))
  {
    hide Inventory, WellNamed, SafeRelative, SplitEntry, ThroughLink;
    ObjectsAreDirect(tree, o);
    LineSplits(o, host, base);
  }

  /** And a list that passes is the manifest of the tree, unless it names a path through a link. */
  lemma PassedIsManifestOfTree(lines: seq<string>, tree: seq<Child>, view: View, host: string, base: nat)
    returns (objects: seq<Object>)
    requires WellNamed(tree) && Honest(tree, view) && Verified(lines, tree, view, host, base)
    requires forall i :: 0 <= i < |lines| ==> !ThroughLink(tree, Relatives(lines)[i])
    ensures Lists(lines, objects, tree, host, base) && WithinLimits(objects)
  {
    hide Inventory, WellNamed, EntryMatches, ThroughLink, StrictlyAscending, Physical, Describes, SafeRelative,
         Listable, LineFor, Countable, SplitEntry, TextBefore, SameButCase, KeyFits, StrCmp, FoldedCollision,
         JoinEntry, Honest;
    VerifiedLines(lines, tree, view, host, base);
    ListedAreTheObjects(lines, tree, view, host, base);
    objects := seq(|lines|, i requires 0 <= i < |lines| => TheObject(tree, Relatives(lines)[i]));
    var paths := Relatives(lines);
    FoldedCollisionIff(paths);
    forall i | 0 <= i < |lines|
      ensures objects[i] in Inventory("", tree) && objects[i].path == paths[i]
      ensures Listable(objects[i], host, base) && lines[i] == LineFor(objects[i])
    {
      assert LinePasses(lines, i, tree, view, host, base);
      MatchedIsListed(lines[i], tree, view, host, base);
    }
    assert ObjectPaths(objects) == paths;
    forall n | 0 < n <= |lines| ensures KeyFits(paths, n) && (n < |lines| ==> TextBefore(paths[n - 1], paths[n])) {
      assert LinePasses(lines, n - 1, tree, view, host, base);
      if n < |lines| {
        assert LinePasses(lines, n, tree, view, host, base);
        StrIsBefore(paths[n - 1], paths[n]);
      }
    }
    forall i | 0 < i < |objects| ensures TextBefore(objects[i - 1].path, objects[i].path) {
      assert ObjectPaths(objects)[i] == objects[i].path && TextBefore(paths[i - 1], paths[i]);
    }
    AllListed(tree, objects);
  }

  /** What stands at a path. */
  function TheObject(tree: seq<Child>, path: string): Object {
    var facts := Physical(tree, path);
    Object(path, if facts.Some? then facts.value else OtherFacts)
  }

  lemma MatchedIsListed(line: string, tree: seq<Child>, view: View, host: string, base: nat)
    requires Honest(tree, view) && SplitEntry(line).Some?
    requires EntryMatches(tree, view, host, base, SplitEntry(line).value)
    requires !ThroughLink(tree, SplitEntry(line).value.relative)
    ensures var o := TheObject(tree, SplitEntry(line).value.relative);
            o in Inventory("", tree) && Listable(o, host, base) && line == LineFor(o)
  {
    hide Inventory, ThroughLink, SafeRelative, Listable, LineFor, Describes, SplitEntry;
    var e := SplitEntry(line).value;
    SplitIff(line, e);
    DescribedIsListable(e, TheObject(tree, e.relative), host, base);
  }

  /** If the paths of some objects are those of all, the objects are all. */
  lemma AllListed(tree: seq<Child>, objects: seq<Object>)
    requires WellNamed(tree) && forall i :: 0 <= i < |objects| ==> objects[i] in Inventory("", tree)
    requires forall path :: path in ObjectPaths(objects) <==> path in ObjectPaths(Inventory("", tree))
    ensures forall o :: o in objects <==> o in Inventory("", tree)
  {
    hide Inventory, WellNamed;
    var all := Inventory("", tree);
    PathsAreDistinct("", tree);
    forall o | o in all ensures o in objects {
      var k :| 0 <= k < |all| && all[k] == o;
      assert ObjectPaths(all)[k] == o.path;
      assert o.path in ObjectPaths(objects);
      var i :| 0 <= i < |objects| && ObjectPaths(objects)[i] == o.path;
      var m :| 0 <= m < |all| && all[m] == objects[i];
      assert k < m || m < k || k == m;
    }
  }

  // ---- The limits ----

  function Pow2(k: nat): nat {
    if k == 0 then 1 else 2 * Pow2(k - 1)
  }

  /** The array of keys holds 64 and is doubled whenever it is full. */
  lemma {:induction false} CapacityIs(n: nat) returns (k: nat)
    requires n > 0
    ensures CapacityFor(n) == 64 * Pow2(k) >= n && (k > 0 ==> 32 * Pow2(k) < n)
    decreases n
  {
    k := 0;
    if n == 1 {
      assert CapacityFor(0) == 0;
    } else {
      k := CapacityIs(n - 1);
      if CapacityFor(n - 1) == n - 1 {
        k := k + 1;
      }
    }
  }

  function Lengths(paths: seq<string>, n: nat): nat
    requires n <= |paths|
  {
    if n == 0 then 0 else Lengths(paths, n - 1) + |paths[n - 1]| + 1
  }

  /** The bytes counted are those of the array and of the texts in it. */
  lemma {:induction false} KeyBytesAre(paths: seq<string>, n: nat)
    requires n <= |paths|
    ensures KeyBytes(paths, n) == 8 * CapacityFor(n) + Lengths(paths, n)
  {
    if n > 0 {
      KeyBytesAre(paths, n - 1);
    }
  }

  // ---- What the inventory holds ----

  /** The node that stands at a path, found name by name; the manifest itself is passed over. */
  ghost predicate StandsAt(prefix: string, children: seq<Child>, path: string, node: Node)
    decreases children
  {
    exists i :: 0 <= i < |children| && LeadsTo(prefix, children[i], path, node)
  }

  ghost predicate LeadsTo(prefix: string, child: Child, path: string, node: Node)
    decreases child
  {
    var own := prefix + child.name;
    own != "manifest.txt"
    && ((path == own && node == child.node)
        || (child.node.Directory? && StandsAt(own + "/", child.node.children, path, node)))
  }

  /** The inventory holds an object for every node of the tree that can be reached, and nothing else. */
  lemma {:induction false} InventoryIff(prefix: string, children: seq<Child>, o: Object)
    ensures o in Inventory(prefix, children) <==>
              exists node :: StandsAt(prefix, children, o.path, node) && o.facts == FactsOf(node)
    decreases children
  {
    if children == [] {
      NothingToCount(prefix, 0, 0);
    } else {
      var first, rest := children[0], children[1..];
      InventoryParts(prefix, children);
      InventoryIff(prefix, rest, o);
      FirstObjectsIff(prefix, first, o) by {
        if first.node.Directory? {
          InventoryIff(prefix + first.name + "/", first.node.children, o);
        }
      }
      hide Inventory, FirstObjects, LeadsTo;
      forall node ensures StandsAt(prefix, children, o.path, node) <==>
                            LeadsTo(prefix, first, o.path, node) || StandsAt(prefix, rest, o.path, node)
      {
        StandsFirst(prefix, children, o.path, node);
      }
    }
  }

  lemma StandsFirst(prefix: string, children: seq<Child>, path: string, node: Node)
    requires children != []
    ensures StandsAt(prefix, children, path, node) <==>
              LeadsTo(prefix, children[0], path, node) || StandsAt(prefix, children[1..], path, node)
  {
    hide LeadsTo;
    var rest := children[1..];
    assert forall i :: 0 <= i < |rest| ==> rest[i] == children[i + 1];
    if i :| 0 <= i < |children| && LeadsTo(prefix, children[i], path, node) {
      if i > 0 {
        assert LeadsTo(prefix, rest[i - 1], path, node);
      }
    }
    if i :| 0 <= i < |rest| && LeadsTo(prefix, rest[i], path, node) {
      assert LeadsTo(prefix, children[i + 1], path, node);
    }
  }

  lemma FirstObjectsIff(prefix: string, child: Child, o: Object)
    requires child.node.Directory? ==>
               (o in Inventory(prefix + child.name + "/", child.node.children) <==>
                  exists node :: StandsAt(prefix + child.name + "/", child.node.children, o.path, node)
                                 && o.facts == FactsOf(node))
    ensures o in FirstObjects(prefix, child) <==>
              exists node :: LeadsTo(prefix, child, o.path, node) && o.facts == FactsOf(node)
  {
    hide Inventory, StandsAt;
    if o == Object(prefix + child.name, FactsOf(child.node)) && o in FirstObjects(prefix, child) {
      assert LeadsTo(prefix, child, o.path, child.node);
    }
  }

  // ---- What the counter accepts ----

  /** How many directories a path passes through. */
  function Slashes(path: string): nat {
    if path == "" then 0 else (if path[0] == '/' then 1 else 0) + Slashes(path[1..])
  }

  lemma {:induction false} SlashesAppend(a: string, b: string)
    ensures Slashes(a + b) == Slashes(a) + Slashes(b)
    decreases |a|
  {
    if a == "" {
      assert a + b == b;
    } else {
      SlashesAppend(a[1..], b);
      assert (a + b)[1..] == a[1..] + b && (a + b)[0] == a[0];
    }
  }

  lemma {:induction false} NoSlashes(name: string)
    requires forall k :: 0 <= k < |name| ==> name[k] != '/'
    ensures Slashes(name) == 0
  {
    if name != "" {
      NoSlashes(name[1..]);
    }
  }

  /** A node that may be counted at its path. */
  predicate MayStand(path: string, node: Node, base: nat) {
    && base + 1 + |path| < 1024 && !node.Other?
    && (node.Directory? ==> Slashes(path) < 64)
  }

  /** The counter accepts a directory exactly when whatever stands in it may stand there, and the paths of its
      own entries fit, the manifest included. */
  lemma {:induction false} CountableIff(prefix: string, children: seq<Child>, base: nat, depth: nat)
    requires WellNamed(children) && Slashes(prefix) == depth
    ensures Countable(prefix, children, base, depth) <==>
              && (forall i :: 0 <= i < |children| ==> base + 1 + |prefix + children[i].name| < 1024)
              && forall path, node :: StandsAt(prefix, children, path, node) ==> MayStand(path, node, base)
    decreases children
  {
    hide LeadsTo, MayStand, CountableChild;
    forall i | 0 <= i < |children|
      ensures CountableChild(prefix, children[i], base, depth) <==>
                && base + 1 + |prefix + children[i].name| < 1024
                && forall path, node :: LeadsTo(prefix, children[i], path, node) ==> MayStand(path, node, base)
    {
      var child := children[i];
      if child.node.Directory? {
        SlashesBelow(prefix, child.name);
        CountableIff(prefix + child.name + "/", child.node.children, base, depth + 1);
      }
      ChildIff(prefix, child, base, depth);
    }
    if forall path, node :: StandsAt(prefix, children, path, node) ==> MayStand(path, node, base) {
      forall i, path, node | 0 <= i < |children| && LeadsTo(prefix, children[i], path, node)
        ensures MayStand(path, node, base)
      {
        assert StandsAt(prefix, children, path, node);
      }
    }
  }

  lemma SlashesBelow(prefix: string, name: string)
    requires forall k :: 0 <= k < |name| ==> name[k] != '/'
    ensures Slashes(prefix + name) == Slashes(prefix) && Slashes(prefix + name + "/") == Slashes(prefix) + 1
  {
    hide Slashes;
    SlashesAppend(prefix, name);
    NoSlashes(name);
    SlashesAppend(prefix + name, "/");
    OneSlash();
  }

  lemma OneSlash()
    ensures Slashes("/") == 1
  {
    assert "/"[1..] == "";
  }

  lemma ChildIff(prefix: string, child: Child, base: nat, depth: nat)
    requires (forall k :: 0 <= k < |child.name| ==> child.name[k] != '/') && Slashes(prefix) == depth
    requires child.node.Directory? ==>
               var below, inner := prefix + child.name + "/", child.node.children;
               Countable(below, inner, base, depth + 1) <==>
                 && (forall i :: 0 <= i < |inner| ==> base + 1 + |below + inner[i].name| < 1024)
                 && forall path, node :: StandsAt(below, inner, path, node) ==> MayStand(path, node, base)
    requires child.node.Directory? ==> WellNamed(child.node.children)
    ensures CountableChild(prefix, child, base, depth) <==>
              && base + 1 + |prefix + child.name| < 1024
              && forall path, node :: LeadsTo(prefix, child, path, node) ==> MayStand(path, node, base)
  {
    hide Slashes, StandsAt, Countable;
    var own := prefix + child.name;
    SlashesBelow(prefix, child.name);
    if own != MANIFEST_NAME {
      assert LeadsTo(prefix, child, own, child.node);
      if child.node.Directory? {
        var below, inner := own + "/", child.node.children;
        forall i | 0 <= i < |inner| ensures StandsAt(below, inner, below + inner[i].name, inner[i].node) {
          NestedIsNoManifest(own, inner[i].name);
          EntryStands(below, inner, i);
        }
        forall path, node | StandsAt(below, inner, path, node) ensures LeadsTo(prefix, child, path, node) {
        }
        if forall path, node :: LeadsTo(prefix, child, path, node) ==> MayStand(path, node, base) {
          forall i | 0 <= i < |inner| ensures base + 1 + |below + inner[i].name| < 1024 {
            assert LeadsTo(prefix, child, below + inner[i].name, inner[i].node);
          }
        }
      }
    }
  }

  lemma NestedIsNoManifest(own: string, name: string)
    ensures own + "/" + name != MANIFEST_NAME
  {
    var path := own + "/" + name;
    assert path[|own|] == '/';
    assert forall k :: 0 <= k < |MANIFEST_NAME| ==> MANIFEST_NAME[k] != '/';
  }

  lemma EntryStands(prefix: string, children: seq<Child>, i: nat)
    requires i < |children| && prefix + children[i].name != MANIFEST_NAME
    ensures StandsAt(prefix, children, prefix + children[i].name, children[i].node)
  {
    assert LeadsTo(prefix, children[i], prefix + children[i].name, children[i].node);
  }
}
