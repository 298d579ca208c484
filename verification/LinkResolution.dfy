/** What the lexical check of link targets is worth once the links are really followed. The check alone
    keeps nothing inside: a target may run through another link. It is enough together with the check that
    every link of the package resolves to a regular file below its root. */
module LinkResolution {
  import opened Text
  import opened Paths
  import opened SymlinkTargets
  import ManifestLinks

  /** An absolute place, name by name. */
  type Place = seq<string>

  datatype Node = RegularFile | Directory | Link(target: string)

  type Files = map<Place, Node>

  predicate IsDirectory(files: Files, at: Place) {
    at in files && files[at].Directory?
  }

  predicate IsLink(files: Files, at: Place) {
    at in files && files[at].Link?
  }

  predicate IsName(segment: string) {
    segment != ".." && !Stays(segment)
  }

  /** Where a link found in a directory leads on from. */
  function Base(at: Place, target: string): Place {
    if target != "" && target[0] == '/' then [] else at
  }

  /** `realpath`: where the segments lead from a directory when no more than `links` links are followed. */
  function Resolve(files: Files, at: Place, segments: seq<string>, links: nat): Option<Place>
    decreases links, |segments|
  {
    if segments == [] then Some(at)
    else if !IsDirectory(files, at) then None
    else
      var next, rest := Step(at, segments[0]), segments[1..];
      if !IsName(segments[0]) then Resolve(files, next, rest, links)
      else if next !in files then None
      else if !IsLink(files, next) then Resolve(files, next, rest, links)
      else if links == 0 then None
      else Resolve(files, Base(at, files[next].target), SegmentsFrom(files[next].target, 0) + rest, links - 1)
  }

  /** Every place that resolution comes to is the package root or below it, wherever it ends or fails. */
  predicate StaysBelow(files: Files, root: Place, at: Place, segments: seq<string>, links: nat)
    decreases links, |segments|
  {
    && root <= at
    && if segments == [] || !IsDirectory(files, at) then true
       else
         var next, rest := Step(at, segments[0]), segments[1..];
         if !IsName(segments[0]) then StaysBelow(files, root, next, rest, links)
         else if next !in files then true
         else if !IsLink(files, next) then StaysBelow(files, root, next, rest, links)
         else if links == 0 then true
         else
           StaysBelow(files, root, Base(at, files[next].target), SegmentsFrom(files[next].target, 0) + rest, links - 1)
  }

  // ---- What is checked of the links of a package ----

  /** The relative path of a place below the root. */
  function PathText(names: seq<string>): string
    requires names != []
  {
    if |names| == 1 then names[0] else names[0] + ("/" + PathText(names[1..]))
  }

  /** Extraction: the path of every link is safe and fits, and its target passed the lexical check. */
  ghost predicate LinksAccepted(files: Files, root: Place) {
    forall p :: IsLink(files, p) && root < p ==>
      && (forall i :: |root| <= i < |p| ==> SafeSegment(p[i]))
      && |PathText(p[|root|..])| < MAX_PATH_LEN
      && Accepted(PathText(p[|root|..]), files[p].target, root)
  }

  /** Manifest verification: every link resolves to a regular file below the root. */
  ghost predicate LinksResolve(files: Files, root: Place, limit: nat) {
    forall p :: IsLink(files, p) && root < p ==> ResolvesBelow(files, root, p, limit)
  }

  predicate ResolvesBelow(files: Files, root: Place, p: Place, limit: nat)
    requires p != []
  {
    var end := Resolve(files, p[..|p| - 1], [p[|p| - 1]], limit);
    end.Some? && root < end.value && end.value in files && files[end.value].RegularFile?
  }

  // ---- The segments that the lexical check counts ----

  lemma {:induction false} IndexShift(p: string, u: string, k: nat)
    requires k <= |u|
    ensures IndexFrom(p + u, '/', |p| + k) == |p| + IndexFrom(u, '/', k)
    decreases |u| - k
  {
    if k < |u| {
      assert (p + u)[|p| + k] == u[k];
      if u[k] != '/' {
        IndexShift(p, u, k + 1);
      }
    }
  }

  lemma {:induction false} SegmentsShift(p: string, u: string, k: nat)
    requires k <= |u|
    ensures SegmentsFrom(p + u, |p| + k) == SegmentsFrom(u, k)
    decreases |u| - k
  {
    hide IndexFrom, SegmentsFrom;
    if k == |u| {
      NoSegments(u);
      NoSegments(p + u);
    } else {
      FirstSegment(u, k);
      FirstSegment(p + u, |p| + k);
      IndexShift(p, u, k);
      var n := IndexFrom(u, '/', k);
      assert (p + u)[|p| + k..|p| + n] == u[k..n];
      SegmentsShift(p, u, if n == |u| then n else n + 1);
    }
  }

  lemma NoSegments(path: string)
    ensures SegmentsFrom(path, |path|) == []
  {}

  lemma {:induction false} NameEnds(path: string, from: nat, n: nat)
    requires from <= n <= |path| && (n < |path| ==> path[n] == '/')
    requires forall k :: from <= k < n ==> path[k] != '/'
    ensures IndexFrom(path, '/', from) == n
    decreases n - from
  {
    if from < n {
      NameEnds(path, from + 1, n);
    }
  }

  lemma NameFirst(name: string, rest: string)
    requires name != "" && forall k :: 0 <= k < |name| ==> name[k] != '/'
    ensures SegmentsFrom(name + ("/" + rest), 0) == [name] + SegmentsFrom(rest, 0)
  {
    hide IndexFrom, SegmentsFrom;
    var path := (name + "/") + rest;
    assert path == name + ("/" + rest);
    NameEnds(path, 0, |name|);
    assert path[0..|name|] == name;
    FirstSegment(path, 0);
    SegmentsShift(name + "/", rest, 0);
  }

  lemma SafeIsPlain(name: string)
    requires SafeSegment(name)
    ensures name != "" && IsName(name) && forall k :: 0 <= k < |name| ==> name[k] != '/'
  {}

  lemma {:induction false} PathSegments(names: seq<string>, target: string)
    requires names != [] && forall i :: 0 <= i < |names| ==> SafeSegment(names[i])
    ensures SegmentsFrom(PathText(names) + ("/" + target), 0) == names + SegmentsFrom(target, 0)
  {
    hide SegmentsFrom, SafeSegment;
    SafeIsPlain(names[0]);
    if |names| == 1 {
      NameFirst(names[0], target);
      assert names == [names[0]];
    } else {
      var rest := PathText(names[1..]) + ("/" + target);
      PathSegments(names[1..], target);
      NameFirst(names[0], rest);
      assert PathText(names) + ("/" + target) == names[0] + ("/" + rest);
      assert [names[0]] + (names[1..] + SegmentsFrom(target, 0)) == names + SegmentsFrom(target, 0);
    }
  }

  /** A safe relative path is safe names joined by single slashes, and every such text is one. */
  lemma SafeRelativeIff(path: string)
    ensures SafeRelative(path) <==>
              exists names :: names != [] && (forall i :: 0 <= i < |names| ==> SafeSegment(names[i]))
                              && PathText(names) == path
  {
    hide SafeSegment, SegmentsFrom, PathText;
    if SafeRelative(path) {
      PathOfSegments(path, 0);
      assert path[0..] == path;
    }
    if names: seq<string> :| names != [] && (forall i :: 0 <= i < |names| ==> SafeSegment(names[i]))
                            && PathText(names) == path {
      SegmentsOfPath(names);
      PathEnds(names);
    }
  }

  lemma {:induction false} PathOfSegments(path: string, from: nat)
    requires from < |path| && path[|path| - 1] != '/'
    ensures SegmentsFrom(path, from) != [] && PathText(SegmentsFrom(path, from)) == path[from..]
    decreases |path| - from
  {
    hide IndexFrom, SegmentsFrom;
    FirstSegment(path, from);
    var n := IndexFrom(path, '/', from);
    if n == |path| {
      NoSegments(path);
      assert path[from..n] == path[from..];
    } else {
      PathOfSegments(path, n + 1);
      assert ([path[from..n]] + SegmentsFrom(path, n + 1))[1..] == SegmentsFrom(path, n + 1);
      assert path[from..] == path[from..n] + ("/" + path[n + 1..]);
    }
  }

  lemma {:induction false} SegmentsOfPath(names: seq<string>)
    requires names != [] && forall i :: 0 <= i < |names| ==> SafeSegment(names[i])
    ensures SegmentsFrom(PathText(names), 0) == names
  {
    hide SegmentsFrom, SafeSegment;
    SafeIsPlain(names[0]);
    if |names| == 1 {
      OneName(names[0]);
      assert names == [names[0]];
    } else {
      SegmentsOfPath(names[1..]);
      NameFirst(names[0], PathText(names[1..]));
      assert [names[0]] + names[1..] == names;
    }
  }

  lemma OneName(name: string)
    requires name != "" && forall k :: 0 <= k < |name| ==> name[k] != '/'
    ensures SegmentsFrom(name, 0) == [name]
  {
    hide IndexFrom, SegmentsFrom;
    NameEnds(name, 0, |name|);
    FirstSegment(name, 0);
    NoSegments(name);
    assert name[0..|name|] == name;
  }

  lemma {:induction false} PathEnds(names: seq<string>)
    requires names != [] && forall i :: 0 <= i < |names| ==> SafeSegment(names[i])
    ensures PathText(names) != "" && PathText(names)[|PathText(names)| - 1] != '/'
  {
    hide SafeSegment;
    SafeIsPlain(names[0]);
    if |names| > 1 {
      PathEnds(names[1..]);
    }
  }

  lemma {:induction false} PathOfChild(names: seq<string>, name: string)
    requires names != []
    ensures PathText(names + [name]) == PathText(names) + ("/" + name)
  {
    assert (names + [name])[1..] == names[1..] + [name];
    if |names| > 1 {
      PathOfChild(names[1..], name);
    }
  }

  /** What the lexical check counts for a link in the directory `inner` below the root. */
  lemma CountedSegments(inner: seq<string>, name: string, target: string)
    requires forall i :: 0 <= i < |inner| ==> SafeSegment(inner[i])
    requires SafeSegment(name) && |PathText(inner + [name])| < MAX_PATH_LEN
    requires Combined(PathText(inner + [name]), target).Some?
    ensures SegmentsFrom(Combined(PathText(inner + [name]), target).value, 0)
         == (if inner == [] then ["."] else inner) + SegmentsFrom(target, 0)
  {
    hide SegmentsFrom, SafeSegment, LastIndexOf;
    SafeIsPlain(name);
    var path := PathText(inner + [name]);
    if inner == [] {
      assert path == name;
      NameFirst(".", target);
    } else {
      PathOfChild(inner, name);
      PathIsText(inner);
      LastSlash(PathText(inner), name);
      PathSegments(inner, target);
    }
  }

  lemma LastSlash(parent: string, name: string)
    requires forall k :: 0 <= k < |name| ==> name[k] != '/'
    ensures var path := parent + ("/" + name);
            LastIndexOf(path, '/') == |parent| && path[..|parent|] == parent
  {
    hide LastIndexOf;
    var path := parent + ("/" + name);
    assert path[|parent|] == '/';
    assert forall k :: |parent| < k < |path| ==> path[k] == name[k - |parent| - 1];
  }

  lemma PathIsText(names: seq<string>)
    requires names != [] && forall i :: 0 <= i < |names| ==> SafeSegment(names[i])
    ensures PathText(names) != ""
  {
    hide SafeSegment;
    SafeIsPlain(names[0]);
  }

  lemma {:induction false} CountNames(names: seq<string>, rest: seq<string>, depth: nat)
    requires (forall i :: 0 <= i < |names| ==> SafeSegment(names[i])) && CountsOk(names + rest, depth)
    ensures CountsOk(rest, depth + |names|)
  {
    if names == [] {
      assert names + rest == rest;
    } else {
      assert (names + rest)[1..] == names[1..] + rest;
      CountNames(names[1..], rest, depth + 1);
    }
  }

  /** An accepted target stays inside from the directory of its link. */
  lemma AcceptedIsConfined(files: Files, root: Place, at: Place, name: string)
    requires LinksAccepted(files, root) && root != []
    requires root <= at && |at| <= |root| + MAX_PACKAGE_PATH_DEPTH && IsLink(files, at + [name])
    ensures Relative(files[at + [name]].target)
    ensures Confined(root, at, SegmentsFrom(files[at + [name]].target, 0))
  {
    hide SafeSegment, Confined, SafeNames, CountsOk, SegmentsFrom, Combined, PathText;
    var p, inner := at + [name], at[|root|..];
    assert root < p && p[|root|..] == inner + [name] && at == root + inner;
    assert forall i :: 0 <= i < |inner| ==> inner[i] == p[|root| + i];
    assert name == p[|at|];
    var target := files[p].target;
    CountedSegments(inner, name, target);
    var segments := SegmentsFrom(target, 0);
    assert root + [] == root;
    if inner == [] {
      CounterIsStack(root, [], ["."] + segments);
      CountFirst(".", segments, 0);
    } else {
      CounterIsStack(root, [], inner + segments);
      CountNames(inner, segments, 0);
    }
    CounterIsStack(root, inner, segments);
  }

  // ---- Following the links ----

  /** Where a target leads to a regular file, nothing after it leads anywhere. */
  lemma {:induction false} RunsIntoFile(files: Files, root: Place, at: Place, target: seq<string>, rest: seq<string>,
                                        links: nat, limit: nat)
    requires rest != [] && Resolve(files, at, target, limit).Some?
    requires !IsDirectory(files, Resolve(files, at, target, limit).value)
    ensures Resolve(files, at, target + rest, links) == None
    ensures StaysBelow(files, root, at, target + rest, links) <==> StaysBelow(files, root, at, target, links)
    decreases links, |target|
  {
    hide SegmentsFrom;
    if target == [] {
      assert target + rest == rest;
    } else {
      var next, after := Step(at, target[0]), target[1..];
      assert (target + rest)[1..] == after + rest;
      if !IsName(target[0]) || !IsLink(files, next) {
        RunsIntoFile(files, root, next, after, rest, links, limit);
      } else if links > 0 {
        var path, base := SegmentsFrom(files[next].target, 0), Base(at, files[next].target);
        assert path + (after + rest) == (path + after) + rest;
        RunsIntoFile(files, root, base, path + after, rest, links - 1, limit - 1);
      }
    }
  }

  /** What the two checks of a package are worth together: no path that stays inside lexically, and so no
      link, leads outside, whatever links it meets. */
  lemma {:induction false} NothingLeadsOutside(files: Files, root: Place, at: Place, segments: seq<string>,
                                               links: nat, limit: nat)
    requires root != [] && LinksAccepted(files, root) && LinksResolve(files, root, limit)
    requires Confined(root, at, segments)
    ensures StaysBelow(files, root, at, segments, links)
    decreases links, |segments|
  {
    hide SegmentsFrom, Confined, LinksAccepted, LinksResolve;
    if segments == [] {
      ConfinedNothing(root, at);
    } else {
      ConfinedStep(root, at, segments);
      var next, rest := Step(at, segments[0]), segments[1..];
      if !IsName(segments[0]) || !IsLink(files, next) {
        NothingLeadsOutside(files, root, next, rest, links, limit);
      } else if IsDirectory(files, at) && links > 0 {
        AcceptedIsConfined(files, root, at, segments[0]);
        var target := SegmentsFrom(files[next].target, 0);
        NothingLeadsOutside(files, root, at, target, links - 1, limit);
        LinkEndsInFile(files, root, at, segments[0], limit);
        if rest == [] {
          assert target + rest == target;
        } else {
          RunsIntoFile(files, root, at, target, rest, links - 1, limit - 1);
        }
      }
    }
  }

  lemma LinkEndsInFile(files: Files, root: Place, at: Place, name: string, limit: nat)
    requires LinksResolve(files, root, limit) && root <= at && IsDirectory(files, at)
    requires IsName(name) && IsLink(files, at + [name]) && Relative(files[at + [name]].target)
    ensures limit > 0
    ensures var end := Resolve(files, at, SegmentsFrom(files[at + [name]].target, 0), limit - 1);
            end.Some? && end.value in files && files[end.value].RegularFile?
  {
    hide SegmentsFrom;
    var p := at + [name];
    assert ResolvesBelow(files, root, p, limit);
    assert p[..|p| - 1] == at && Step(at, name) == p && [name][1..] == [];
    assert SegmentsFrom(files[p].target, 0) + [] == SegmentsFrom(files[p].target, 0);
  }

  // ---- The lexical check alone ----

  const ROOT: Place := ["r"]

  const NESTED: Place := ["r", "a", "b", "x"]

  const OUTER: Place := ["r", "x"]

  /** `a/b/x` leads to the package root, and `x` through it and one step up. */
  const ESCAPING: Files :=
    map[["r"] := Directory, ["r", "a"] := Directory, ["r", "a", "b"] := Directory,
        NESTED := Link("../.."), OUTER := Link("a/b/x/..")]

  lemma EscapingSegments()
    ensures SegmentsFrom("../..", 0) == ["..", ".."]
    ensures SegmentsFrom("a/b/x/..", 0) == ["a", "b", "x", ".."]
  {
    hide SegmentsFrom;
    OneName("..");
    NameFirst("..", "..");
    assert "../.." == ".." + ("/" + "..");
    NameFirst("x", "..");
    NameFirst("b", "x/..");
    NameFirst("a", "b/x/..");
    assert "x/.." == "x" + ("/" + "..") && "b/x/.." == "b" + ("/" + "x/..");
    assert "a/b/x/.." == "a" + ("/" + "b/x/..");
  }

  lemma NestedText()
    ensures PathText(["a", "b", "x"]) == "a/b/x"
  {
    assert ["a", "b", "x"][1..] == ["b", "x"] && ["b", "x"][1..] == ["x"];
  }

  lemma CountedIsAccepted(path: string, target: string, segments: seq<string>)
    requires path != "" && Relative(target) && Combined(path, target).Some?
    requires SegmentsFrom(Combined(path, target).value, 0) == segments && CountsOk(segments, 0)
    ensures Accepted(path, target, ROOT)
  {
    hide SegmentsFrom, Confined, SafeNames, Combined, CountsOk, Relative;
    CounterIsStack(ROOT, [], segments);
    assert ROOT + [] == ROOT;
  }

  lemma NestedIsAccepted()
    ensures Accepted("a/b/x", "../..", ROOT)
  {
    hide SegmentsFrom, SafeSegment, Accepted, CountsOk, Combined, PathText;
    EscapingSegments();
    NestedText();
    ManifestLinks.PlainName("a");
    ManifestLinks.PlainName("b");
    ManifestLinks.PlainName("x");
    assert ["a", "b"] + ["x"] == ["a", "b", "x"];
    CombinedFits("a/b/x", "../..");
    CountedSegments(["a", "b"], "x", "../..");
    CountNested();
    CountedIsAccepted("a/b/x", "../..", ["a", "b"] + ["..", ".."]);
  }

  lemma OuterIsAccepted()
    ensures PathText(["x"]) == "x" && Accepted("x", "a/b/x/..", ROOT)
  {
    hide SegmentsFrom, SafeSegment, Accepted, CountsOk, Combined;
    EscapingSegments();
    ManifestLinks.PlainName("x");
    assert [] + ["x"] == ["x"];
    CombinedFits("x", "a/b/x/..");
    CountedSegments([], "x", "a/b/x/..");
    CountOuter();
    CountedIsAccepted("x", "a/b/x/..", ["."] + ["a", "b", "x", ".."]);
  }

  lemma CombinedFits(path: string, target: string)
    requires path != "" && |path| + |target| < 100
    ensures Combined(path, target).Some?
  {}

  lemma CountNested()
    ensures CountsOk(["a", "b"] + ["..", ".."], 0)
  {
    hide SafeSegment;
    ManifestLinks.PlainName("a");
    ManifestLinks.PlainName("b");
    CountFirst("..", [], 0);
    CountFirst("..", [".."], 1);
    CountFirst("b", ["..", ".."], 1);
    CountFirst("a", ["b", "..", ".."], 0);
    assert [".."] + [] == [".."] && [".."] + [".."] == ["..", ".."];
    assert ["b"] + ["..", ".."] == ["b", "..", ".."];
    assert ["a"] + ["b", "..", ".."] == ["a", "b"] + ["..", ".."];
  }

  lemma CountOuter()
    ensures CountsOk(["."] + ["a", "b", "x", ".."], 0)
  {
    hide SafeSegment;
    ManifestLinks.PlainName("a");
    ManifestLinks.PlainName("b");
    ManifestLinks.PlainName("x");
    CountFirst("..", [], 2);
    CountFirst("x", [".."], 2);
    CountFirst("b", ["x", ".."], 1);
    CountFirst("a", ["b", "x", ".."], 0);
    CountFirst(".", ["a", "b", "x", ".."], 0);
    assert [".."] + [] == [".."] && ["x"] + [".."] == ["x", ".."];
    assert ["b"] + ["x", ".."] == ["b", "x", ".."] && ["a"] + ["b", "x", ".."] == ["a", "b", "x", ".."];
  }

  lemma EscapingIsAccepted()
    ensures LinksAccepted(ESCAPING, ROOT)
  {
    hide Accepted, SafeSegment;
    NestedText();
    NestedIsAccepted();
    OuterIsAccepted();
    ManifestLinks.PlainName("a");
    ManifestLinks.PlainName("b");
    ManifestLinks.PlainName("x");
    forall p | IsLink(ESCAPING, p) && ROOT < p
      ensures (forall i :: |ROOT| <= i < |p| ==> SafeSegment(p[i])) && |PathText(p[|ROOT|..])| < MAX_PATH_LEN
      ensures Accepted(PathText(p[|ROOT|..]), ESCAPING[p].target, ROOT)
    {
      hide PathText;
      assert p == NESTED || p == OUTER;
      assert p[|ROOT|..] == if p == NESTED then ["a", "b", "x"] else ["x"];
    }
  }

  lemma UpOne(at: Place, segments: seq<string>, links: nat)
    requires IsDirectory(ESCAPING, at) && ROOT < at && segments != [] && segments[0] == ".."
    ensures Resolve(ESCAPING, at, segments, links) == Resolve(ESCAPING, at[..|at| - 1], segments[1..], links)
    ensures StaysBelow(ESCAPING, ROOT, at, segments, links)
        <==> StaysBelow(ESCAPING, ROOT, at[..|at| - 1], segments[1..], links)
  {}

  /** Following `a/b/x` leads to the package root. */
  lemma FollowingNested(rest: seq<string>, links: nat)
    requires links > 0
    ensures Resolve(ESCAPING, ["r", "a", "b"], ["x"] + rest, links) == Resolve(ESCAPING, ROOT, rest, links - 1)
    ensures StaysBelow(ESCAPING, ROOT, ["r", "a", "b"], ["x"] + rest, links)
        <==> StaysBelow(ESCAPING, ROOT, ROOT, rest, links - 1)
  {
    hide SegmentsFrom;
    EscapingSegments();
    var b := ["r", "a", "b"];
    assert Step(b, "x") == NESTED && (["x"] + rest)[1..] == rest;
    var up := ["..", ".."] + rest;
    UpOne(b, up, links - 1);
    UpOne(["r", "a"], [".."] + rest, links - 1);
    assert up[1..] == [".."] + rest && ([".."] + rest)[1..] == rest;
    assert b[..2] == ["r", "a"] && ["r", "a"][..1] == ROOT;
  }

  lemma FollowingOuter()
    ensures !StaysBelow(ESCAPING, ROOT, ROOT, ["x"], 2)
  {
    hide SegmentsFrom;
    EscapingSegments();
    var target := ["a", "b", "x", ".."];
    assert Step(ROOT, "x") == OUTER && ["x"][1..] == [] && target + [] == target;
    assert target[1..] == ["b", "x", ".."] && target[1..][1..] == ["x"] + [".."];
    assert Step(ROOT, "a") == ["r", "a"] && Step(["r", "a"], "b") == ["r", "a", "b"];
    FollowingNested([".."], 1);
    assert Step(ROOT, "..") == [] && [".."][1..] == [];
  }

  lemma NestedIsNoFile(limit: nat)
    ensures !LinksResolve(ESCAPING, ROOT, limit)
  {
    hide Resolve;
    assert NESTED[..3] == ["r", "a", "b"] && ["x"] + [] == ["x"];
    if limit > 0 {
      FollowingNested([], limit);
      AtRest(ESCAPING, ROOT, limit - 1);
    } else {
      NoLinkLeft();
    }
    assert !ResolvesBelow(ESCAPING, ROOT, NESTED, limit);
  }

  lemma AtRest(files: Files, at: Place, links: nat)
    ensures Resolve(files, at, [], links) == Some(at)
  {}

  lemma NoLinkLeft()
    ensures Resolve(ESCAPING, ["r", "a", "b"], ["x"], 0) == None
  {
    hide SegmentsFrom;
    assert Step(["r", "a", "b"], "x") == NESTED;
  }

  /** Both links pass the lexical check, and yet following `x` leaves the package. The manifest check
      refuses it: `a/b/x` resolves to no regular file, however many links may be followed. */
  lemma LexicalCheckAlone(limit: nat)
    ensures LinksAccepted(ESCAPING, ROOT) && Confined(ROOT, ROOT, ["x"])
    ensures !StaysBelow(ESCAPING, ROOT, ROOT, ["x"], 2)
    ensures !LinksResolve(ESCAPING, ROOT, limit)
  {
    hide Confined, LinksAccepted, LinksResolve, StaysBelow;
    EscapingIsAccepted();
    FollowingOuter();
    NestedIsNoFile(limit);
    assert ROOT + [] == ROOT;
    CountPlain();
    CounterIsStack(ROOT, [], ["x"]);
  }

  lemma CountPlain()
    ensures CountsOk(["x"], 0)
  {
    hide SafeSegment;
    ManifestLinks.PlainName("x");
    CountFirst("x", [], 0);
    assert ["x"] + [] == ["x"];
  }
}
