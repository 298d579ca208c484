/** The package manifest check: a sorted list whose entries all exist, as many as there are objects. */
module Manifests {
  import opened Text
  import opened Domain
  import opened Paths

  const MANIFEST_NAME := "manifest.txt"
  const MAX_PACKAGE_ARCHIVE_ENTRIES: nat := 262144
  const PRIVATE_MODE: nat := 0x1a4
  const PUBLIC_MODE: nat := 0x1ed

  // ---- The tree on disk ----

  /** An object of the package tree, in the order a directory lists its entries. The digest of a link is
      that of its target text; `resolves` says that it leads to a regular file inside the package. */
  datatype Node =
    | Regular(mode: nat, digest: string)
    | Directory(mode: nat, children: seq<Child>)
    | Link(digest: string, resolves: bool)
    | Other

  datatype Child = Child(name: string, node: Node)

  datatype Facts =
    | FileFacts(mode: nat, digest: string)
    | DirectoryFacts(mode: nat)
    | LinkFacts(digest: string, resolves: bool)
    | OtherFacts

  datatype Object = Object(path: string, facts: Facts)

  function FactsOf(n: Node): Facts {
    match n
    case Regular(mode, digest) => FileFacts(mode, digest)
    case Directory(mode, children) => DirectoryFacts(mode)
    case Link(digest, resolves) => LinkFacts(digest, resolves)
    case Other => OtherFacts
  }

  /** Every object below a directory but the manifest itself, with its path relative to the package. */
  function Inventory(prefix: string, children: seq<Child>): seq<Object>
    decreases children
  {
    if children == [] then []
    else
      var path, node := prefix + children[0].name, children[0].node;
      (if path == MANIFEST_NAME then []
       else [Object(path, FactsOf(node))] + (if node.Directory? then Inventory(path + "/", node.children) else []))
      + Inventory(prefix, children[1..])
  }

  /** Names within one directory are distinct and contain no separator. */
  predicate WellNamed(children: seq<Child>) {
    && (forall i :: 0 <= i < |children| ==>
          && children[i].name != "" && (forall k :: 0 <= k < |children[i].name| ==> children[i].name[k] != '/')
          && (children[i].node.Directory? ==> WellNamed(children[i].node.children)))
    && (forall i, j :: 0 <= i < j < |children| ==> children[i].name != children[j].name)
  }

  /** The absolute path of an object below a package root of this length fits a path buffer. */
  predicate PathFits(base: nat, path: string) {
    base + 1 + |path| < MAX_PATH_LEN
  }

  /** What the counter accepts: paths that fit, no special files, and directories no deeper than the limit. */
  predicate Countable(prefix: string, children: seq<Child>, base: nat, depth: nat)
    decreases children
  {
    forall i :: 0 <= i < |children| ==> CountableChild(prefix, children[i], base, depth)
  }

  predicate CountableChild(prefix: string, child: Child, base: nat, depth: nat)
    decreases child
  {
    && PathFits(base, prefix + child.name)
    && (prefix + child.name != MANIFEST_NAME ==>
          && !child.node.Other?
          && (child.node.Directory? ==>
                depth < MAX_PACKAGE_PATH_DEPTH
                && Countable(prefix + child.name + "/", child.node.children, base, depth + 1)))
  }

  /** The objects of the first entry of a directory, and those of the others. */
  function FirstObjects(prefix: string, child: Child): seq<Object> {
    var path := prefix + child.name;
    if path == MANIFEST_NAME then []
    else
      [Object(path, FactsOf(child.node))]
      + (if child.node.Directory? then Inventory(path + "/", child.node.children) else [])
  }

  lemma InventoryParts(prefix: string, children: seq<Child>)
    requires children != []
    ensures Inventory(prefix, children) == FirstObjects(prefix, children[0]) + Inventory(prefix, children[1..])
  {}

  /** The entries count up to the next one exactly when that one does; a failing prefix fails the whole. */
  lemma OneMoreChild(prefix: string, children: seq<Child>, base: nat, depth: nat, i: nat)
    requires i < |children| && Countable(prefix, children[..i], base, depth)
    ensures Countable(prefix, children[..i + 1], base, depth) <==> CountableChild(prefix, children[i], base, depth)
    ensures Countable(prefix, children, base, depth) ==> CountableChild(prefix, children[i], base, depth)
  {
    var most := children[..i + 1];
    assert forall k :: 0 <= k < i ==> most[k] == children[..i][k];
    assert most[i] == children[i];
  }

  /** `count_tree_entry` over one directory: the count is threaded through the recursion. */
  method CountTree(prefix: string, children: seq<Child>, before: nat, base: nat, depth: nat)
    returns (err: CupError, count: nat)
    ensures err == if Countable(prefix, children, base, depth) then Ok else Validation
    ensures err == Ok ==> count == before + |Inventory(prefix, children)|
    decreases children
  {
    NothingToCount(prefix, base, depth);
    hide Inventory, Countable;
    count := before;
    assert children[0..] == children;
    for i := 0 to |children|
      invariant count + |Inventory(prefix, children[i..])| == before + |Inventory(prefix, children)|
      invariant Countable(prefix, children[..i], base, depth)
    {
      var child := children[i];
      assert children[i..][0] == child && children[i..][1..] == children[i + 1..];
      InventoryParts(prefix, children[i..]);
      OneMoreChild(prefix, children, base, depth, i);
      if !PathFits(base, prefix + child.name) {
        return Validation, count;
      }
      if prefix + child.name == MANIFEST_NAME {
        continue;
      }
      if child.node.Other? {
        return Validation, count;
      }
      count := count + 1;
      if child.node.Directory? {
        if depth >= MAX_PACKAGE_PATH_DEPTH {
          return Validation, count;
        }
        err, count := CountTree(prefix + child.name + "/", child.node.children, count, base, depth + 1);
        if err != Ok {
          return;
        }
      }
    }
    assert children[..|children|] == children && children[|children|..] == [];
    return Ok, count;
  }

  lemma NothingToCount(prefix: string, base: nat, depth: nat)
    ensures Countable(prefix, [], base, depth) && Inventory(prefix, []) == []
  {}

  // ---- Paths of the inventory ----

  /** A path below a directory: the prefix, the name of an entry, and possibly more after a slash. */
  predicate Below(prefix: string, children: seq<Child>, path: string) {
    exists i :: 0 <= i < |children| && Under(prefix + children[i].name, path)
  }

  predicate Under(ancestor: string, path: string) {
    path == ancestor || (|ancestor| < |path| && path[..|ancestor|] == ancestor && path[|ancestor|] == '/')
  }

  lemma {:induction false} PathsAreBelow(prefix: string, children: seq<Child>)
    requires WellNamed(children)
    ensures forall o :: o in Inventory(prefix, children) ==> Below(prefix, children, o.path)
    decreases children
  {
    if children != [] {
      var first, rest := children[0], children[1..];
      var path := prefix + first.name;
      PathsAreBelow(prefix, rest);
      if first.node.Directory? {
        PathsAreBelow(path + "/", first.node.children);
        forall p | Below(path + "/", first.node.children, p) ensures Under(path, p) {
          var k :| 0 <= k < |first.node.children| && Under(path + "/" + first.node.children[k].name, p);
          UnderLonger(path, first.node.children[k].name, p);
        }
      }
      forall p | Below(prefix, rest, p) ensures Below(prefix, children, p) {
        var k :| 0 <= k < |rest| && Under(prefix + rest[k].name, p);
        assert children[k + 1] == rest[k];
      }
      forall p | Under(path, p) ensures Below(prefix, children, p) {
        assert children[0] == first;
      }
    }
  }

  lemma UnderLonger(path: string, name: string, p: string)
    requires Under(path + "/" + name, p)
    ensures Under(path, p) && p != path
  {
    var longer := path + "/" + name;
    assert longer[..|path|] == path && longer[|path|] == '/';
    assert p[..|longer|] == longer;
    assert p[..|path|] == path;
  }

  /** Entries of different names have nothing below them in common. */
  lemma NamesSeparate(prefix: string, a: string, b: string, p: string)
    requires (forall k :: 0 <= k < |a| ==> a[k] != '/') && (forall k :: 0 <= k < |b| ==> b[k] != '/')
    requires Under(prefix + a, p) && Under(prefix + b, p)
    ensures a == b
  {
    var n := |prefix|;
    assert p[..n + |a|] == prefix + a && p[..n + |b|] == prefix + b;
    assert forall k :: 0 <= k < |a| ==> p[n + k] == (prefix + a)[n + k] == a[k];
    assert forall k :: 0 <= k < |b| ==> p[n + k] == (prefix + b)[n + k] == b[k];
    assert |p| > n + |a| ==> p[n + |a|] == '/';
    assert |p| > n + |b| ==> p[n + |b|] == '/';
    assert forall k :: n <= k < n + |a| ==> p[k] == a[k - n];
    assert forall k :: n <= k < n + |b| ==> p[k] == b[k - n];
  }

  predicate DistinctPaths(objects: seq<Object>) {
    forall i, j :: 0 <= i < j < |objects| ==> objects[i].path != objects[j].path
  }

  lemma DistinctAppend(a: seq<Object>, b: seq<Object>)
    requires DistinctPaths(a) && DistinctPaths(b)
    requires forall x, y :: x in a && y in b ==> x.path != y.path
    ensures DistinctPaths(a + b)
  {
    var s := a + b;
    forall i, j | 0 <= i < j < |s| ensures s[i].path != s[j].path {
      if i < |a| && j >= |a| {
        assert s[i] in a && s[j] in b;
      }
    }
  }

  lemma {:induction false} PathsAreDistinct(prefix: string, children: seq<Child>)
    requires WellNamed(children)
    ensures DistinctPaths(Inventory(prefix, children))
    decreases children
  {
    if children != [] {
      var first, rest := children[0], children[1..];
      var path := prefix + first.name;
      PathsAreDistinct(prefix, rest);
      FirstIsDistinct(prefix, first) by {
        if first.node.Directory? {
          PathsAreDistinct(path + "/", first.node.children);
        }
      }
      PathsAreBelow(prefix, rest);
      hide Inventory, WellNamed, FirstObjects, DistinctPaths;
      InventoryParts(prefix, children);
      forall x, y | x in FirstObjects(prefix, first) && y in Inventory(prefix, rest) ensures x.path != y.path {
        var k :| 0 <= k < |rest| && Under(prefix + rest[k].name, y.path);
        assert rest[k] == children[k + 1];
        NameFacts(children, k + 1);
        if x.path == y.path {
          NamesSeparate(prefix, first.name, rest[k].name, y.path);
        }
      }
      DistinctAppend(FirstObjects(prefix, first), Inventory(prefix, rest));
    }
  }

  lemma NameFacts(children: seq<Child>, k: nat)
    requires WellNamed(children) && 0 < k < |children|
    ensures children[0].name != children[k].name
    ensures forall m :: 0 <= m < |children[0].name| ==> children[0].name[m] != '/'
    ensures forall m :: 0 <= m < |children[k].name| ==> children[k].name[m] != '/'
  {}

  lemma FirstIsDistinct(prefix: string, child: Child)
    requires child.node.Directory? ==>
               && WellNamed(child.node.children)
               && DistinctPaths(Inventory(prefix + child.name + "/", child.node.children))
    ensures DistinctPaths(FirstObjects(prefix, child))
    ensures forall o :: o in FirstObjects(prefix, child) ==> Under(prefix + child.name, o.path)
  {
    var path := prefix + child.name;
    if child.node.Directory? {
      var below := Inventory(path + "/", child.node.children);
      PathsAreBelow(path + "/", child.node.children);
      forall o | o in below ensures Under(path, o.path) && o.path != path {
        var k :| 0 <= k < |child.node.children| && Under(path + "/" + child.node.children[k].name, o.path);
        UnderLonger(path, child.node.children[k].name, o.path);
      }
      DistinctAppend([Object(path, FactsOf(child.node))], below);
    }
  }

  /** A slash in the path of an object of one entry comes at or after the end of the entry's own path. */
  lemma OwnOrBelow(prefix: string, child: Child, o: Object, i: nat)
    requires o in FirstObjects(prefix, child) && (child.node.Directory? ==> WellNamed(child.node.children))
    requires forall k :: 0 <= k < |child.name| ==> child.name[k] != '/'
    requires |prefix| <= i < |o.path| && o.path[i] == '/'
    ensures var path := prefix + child.name;
            && i >= |path| && o.path[..|path|] == path && child.node.Directory?
            && o in Inventory(path + "/", child.node.children)
            && Object(path, FactsOf(child.node)) in FirstObjects(prefix, child)
            && forall d :: d in Inventory(path + "/", child.node.children) ==> d in FirstObjects(prefix, child)
  {
    var path := prefix + child.name;
    if child.node.Directory? {
      PathsAreBelow(path + "/", child.node.children);
      if o in Inventory(path + "/", child.node.children) {
        var k :| 0 <= k < |child.node.children| && Under(path + "/" + child.node.children[k].name, o.path);
        UnderLonger(path, child.node.children[k].name, o.path);
      }
    }
    assert o.path[..|path|] == path;
    assert forall k :: |prefix| <= k < |path| ==> o.path[k] == path[k] == child.name[k - |prefix|];
  }

  lemma NamedParts(children: seq<Child>)
    requires WellNamed(children) && children != []
    ensures WellNamed(children[1..]) && forall k :: 0 <= k < |children[0].name| ==> children[0].name[k] != '/'
    ensures children[0].node.Directory? ==> WellNamed(children[0].node.children)
  {}

  /** Whatever stands before a slash of an object's path is a directory of the tree. */
  lemma {:induction false} AncestorsAreDirectories(prefix: string, children: seq<Child>, o: Object, i: nat)
    requires WellNamed(children) && o in Inventory(prefix, children)
    requires |prefix| <= i < |o.path| && o.path[i] == '/'
    ensures exists d :: d in Inventory(prefix, children) && d.path == o.path[..i] && d.facts.DirectoryFacts?
    decreases children
  {
    hide Inventory, WellNamed, FirstObjects;
    NothingToCount(prefix, 0, 0);
    var first, rest := children[0], children[1..];
    var path := prefix + first.name;
    InventoryParts(prefix, children);
    NamedParts(children);
    if o in Inventory(prefix, rest) {
      AncestorsAreDirectories(prefix, rest, o, i);
    } else {
      OwnOrBelow(prefix, first, o, i);
      if i > |path| {
        AncestorsAreDirectories(path + "/", first.node.children, o, i);
      }
    }
  }
}
