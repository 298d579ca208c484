/** A passed verification that does not list the tree: a list that names a path through an undeclared link. */
module ManifestLinks {
  import opened Text
  import opened Domain
  import opened Paths
  import opened Manifests
  import opened ManifestChecks

  const LINKED_TREE: seq<Child> :=
    [Child("a", Directory(PUBLIC_MODE, [Child("x", Directory(PUBLIC_MODE, []))])), Child("b", Link("", false))]

  /** Inspection of this tree, where `b` is a link to `a`. */
  function LinkedView(path: string): Option<Facts> {
    if path == "b/x" then Some(DirectoryFacts(PUBLIC_MODE)) else Physical(LINKED_TREE, path)
  }

  function DirectoryLine(path: string): ListedEntry {
    ListedEntry("d", "0755", "-", path)
  }

  const LINKED_LINES: seq<string> :=
    [JoinEntry(DirectoryLine("a")), JoinEntry(DirectoryLine("a/x")), JoinEntry(DirectoryLine("b/x"))]

  lemma LinkedInventory()
    ensures Inventory("", LINKED_TREE)
         == [Object("a", DirectoryFacts(PUBLIC_MODE)), Object("a/x", DirectoryFacts(PUBLIC_MODE)),
             Object("b", LinkFacts("", false))]
  {
    var x := [Child("x", Directory(PUBLIC_MODE, []))];
    var b := [Child("b", Link("", false))];
    assert Inventory("a/", x) == [Object("a/x", DirectoryFacts(PUBLIC_MODE))] by {
      assert x[1..] == [];
      assert "a/" + "x" == "a/x";
    }
    assert Inventory("", b) == [Object("b", LinkFacts("", false))] by {
      assert b[1..] == [];
      assert "" + "b" == "b";
    }
    assert LINKED_TREE[1..] == b;
    assert "" + "a" == "a" && "a" + "/" == "a/";
  }

  lemma LinkedPhysical(path: string)
    ensures Physical(LINKED_TREE, path)
         == if path == "a" || path == "a/x" then Some(DirectoryFacts(PUBLIC_MODE))
            else if path == "b" then Some(LinkFacts("", false)) else None
  {
    LinkedInventory();
    hide Inventory;
    var objects := Inventory("", LINKED_TREE);
    assert objects[0].path == "a" && objects[1].path == "a/x" && objects[2].path == "b";
    var r := Find(objects, path);
    if r.Some? {
      var k :| 0 <= k < |objects| && objects[k] == Object(path, r.value);
    } else {
      assert objects[0] in objects && objects[1] in objects && objects[2] in objects;
    }
  }

  lemma LinkedViewIsHonest()
    ensures Honest(LINKED_TREE, LinkedView) && ThroughLink(LINKED_TREE, "b/x")
  {
    hide Physical;
    LinkedPhysical("b");
    var p := "b/x";
    assert p[..1] == "b" && p[1] == '/';
  }

  lemma LinkedTreeCounts()
    ensures WellNamed(LINKED_TREE) && Countable("", LINKED_TREE, 0, 0)
  {
    var x := [Child("x", Directory(PUBLIC_MODE, []))];
    assert WellNamed(x);
    assert Countable("a/", x, 0, 1);
    assert "" + "a" == "a" && "a" + "/" == "a/" && "" + "b" == "b";
  }

  lemma PlainName(s: string)
    requires s == "a" || s == "b" || s == "x"
    ensures SafeSegment(s)
  {
    assert s[..IndexOf(s, '.')] == s;
    assert |Lower(s)| == 1;
  }

  lemma NestedIsSafe(s: string)
    requires s == "a/x" || s == "b/x"
    ensures SafeRelative(s)
  {
    hide SafeSegment;
    PlainName(s[..1]);
    PlainName("x");
    assert IndexFrom(s, '/', 0) == 1 && IndexFrom(s, '/', 2) == 3;
    assert s[0..1] == s[..1] && s[2..3] == "x";
    assert SegmentsFrom(s, 3) == [];
    assert SegmentsFrom(s, 2) == ["x"];
    assert SegmentsFrom(s, 0) == [s[0..1], "x"];
  }

  lemma TopIsSafe()
    ensures SafeRelative("a")
  {
    hide SafeSegment;
    var s := "a";
    PlainName(s);
    assert IndexFrom(s, '/', 0) == 1 && s[0..1] == s;
    assert SegmentsFrom(s, 0) == [s];
  }

  lemma LinkedOrder()
    ensures StrictlyAscending(["a", "a/x", "b/x"])
  {
    var a, ax, bx := Codes("a"), Codes("a/x"), Codes("b/x");
    assert a[0] == ax[0] && a[1..] == [] && ax[1..] != [] && ax[0] < bx[0];
    assert StrCmp("a", "a/x") == LexCmp(a[1..], ax[1..]) == -1;
    assert StrCmp("a/x", "b/x") == -1;
  }

  lemma LinkedKeys()
    ensures var r := ["a", "a/x", "b/x"]; KeyFits(r, 1) && KeyFits(r, 2) && KeyFits(r, 3)
    ensures !FoldedCollision(["a", "a/x", "b/x"])
  {
    var r := ["a", "a/x", "b/x"];
    assert CapacityFor(1) == CapacityFor(2) == CapacityFor(3) == 64;
    assert KeyBytes(r, 1) == 514;
    assert KeyBytes(r, 2) == 518;
    assert KeyBytes(r, 3) == 522;
    assert Lower(r[0]) != Lower(r[1]) && Lower(r[0]) != Lower(r[2]);
    assert Lower(r[1])[0] != Lower(r[2])[0];
  }

  lemma LinkedLine(path: string)
    requires path == "a" || path == "a/x" || path == "b/x"
    ensures SplitEntry(JoinEntry(DirectoryLine(path))) == Some(DirectoryLine(path))
    ensures EntryMatches(LINKED_TREE, LinkedView, "linux-x64", 0, DirectoryLine(path))
  {
    SplitIff(JoinEntry(DirectoryLine(path)), DirectoryLine(path));
    hide SplitEntry, JoinEntry, SafeRelative, Physical;
    LinkedPhysical(path);
    if path == "a" {
      TopIsSafe();
    } else {
      NestedIsSafe(path);
    }
  }

  /** Without the condition the claim fails: every check passes, the counts agree, and yet the list has
      `b/x`, which is no object of the tree, and lacks `b`, which is one. */
  lemma UndeclaredLinkPasses()
    ensures WellNamed(LINKED_TREE) && Honest(LINKED_TREE, LinkedView)
    ensures Verified(LINKED_LINES, LINKED_TREE, LinkedView, "linux-x64", 0)
    ensures "b/x" in Relatives(LINKED_LINES) && "b" !in Relatives(LINKED_LINES)
    ensures ObjectPaths(Inventory("", LINKED_TREE)) == ["a", "a/x", "b"]
  {
    hide Inventory, WellNamed, Countable, EntryMatches, SplitEntry, JoinEntry, Honest, KeyFits, StrCmp, FoldedCollision;
    LinkedInventory();
    LinkedViewIsHonest();
    LinkedTreeCounts();
    LinkedOrder();
    LinkedKeys();
    LinkedLine("a");
    LinkedLine("a/x");
    LinkedLine("b/x");
    var listed := Relatives(LINKED_LINES);
    assert listed[0] == "a" && listed[1] == "a/x" && listed[2] == "b/x";
    assert listed == ["a", "a/x", "b/x"];
  }
}
