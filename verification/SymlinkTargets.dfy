/** Lexical confinement of symlink targets: a depth counter that stands for a path stack. */
module SymlinkTargets {
  import opened Text
  import opened Domain
  import opened Paths

  /** A segment that moves nowhere. */
  predicate Stays(segment: string) {
    segment == "" || segment == "."
  }

  /** The counter: how the segments are checked. */
  predicate CountsOk(segments: seq<string>, depth: nat) {
    if segments == [] then true
    else if segments[0] == ".." then depth > 0 && CountsOk(segments[1..], depth - 1)
    else if Stays(segments[0]) then CountsOk(segments[1..], depth)
    else depth + 1 <= MAX_PACKAGE_PATH_DEPTH && SafeSegment(segments[0]) && CountsOk(segments[1..], depth + 1)
  }

  // ---- The reference: walking an absolute directory ----

  /** One lexical step from an absolute directory; the parent of the file system root is itself. */
  function Step(at: seq<string>, segment: string): seq<string> {
    if segment == ".." then (if at == [] then [] else at[..|at| - 1])
    else if Stays(segment) then at
    else at + [segment]
  }

  function Walk(at: seq<string>, segments: seq<string>): seq<string>
    decreases |segments|
  {
    if segments == [] then at else Walk(Step(at, segments[0]), segments[1..])
  }

  /** After every segment the walk is at `root` or below it, and no deeper than allowed. */
  ghost predicate Confined(root: seq<string>, at: seq<string>, segments: seq<string>) {
    forall n :: 0 <= n <= |segments| ==>
      root <= Walk(at, segments[..n]) && |Walk(at, segments[..n])| <= |root| + MAX_PACKAGE_PATH_DEPTH
  }

  ghost predicate SafeNames(segments: seq<string>) {
    forall i :: 0 <= i < |segments| ==> segments[i] == ".." || Stays(segments[i]) || SafeSegment(segments[i])
  }

  lemma WalkPrefixes(at: seq<string>, segments: seq<string>, n: nat)
    requires segments != [] && n < |segments|
    ensures Walk(at, segments[..n + 1]) == Walk(Step(at, segments[0]), segments[1..][..n])
  {
    assert segments[..n + 1][0] == segments[0];
    assert segments[..n + 1][1..] == segments[1..][..n];
  }

  lemma ConfinedStep(root: seq<string>, at: seq<string>, segments: seq<string>)
    requires segments != []
    ensures Confined(root, at, segments) <==>
              && root <= at && |at| <= |root| + MAX_PACKAGE_PATH_DEPTH
              && Confined(root, Step(at, segments[0]), segments[1..])
  {
    hide Walk, Step;
    WalkNothing(at);
    assert segments[..0] == [];
    var after, rest := Step(at, segments[0]), segments[1..];
    forall n | 0 <= n <= |rest| ensures Walk(at, segments[..n + 1]) == Walk(after, rest[..n]) {
      WalkPrefixes(at, segments, n);
    }
    if Confined(root, at, segments) {
      forall n | 0 <= n <= |rest|
        ensures root <= Walk(after, rest[..n]) && |Walk(after, rest[..n])| <= |root| + MAX_PACKAGE_PATH_DEPTH
      {
        assert Walk(at, segments[..n + 1]) == Walk(after, rest[..n]);
      }
    }
    if root <= at && |at| <= |root| + MAX_PACKAGE_PATH_DEPTH && Confined(root, after, rest) {
      forall n | 0 <= n <= |segments|
        ensures root <= Walk(at, segments[..n]) && |Walk(at, segments[..n])| <= |root| + MAX_PACKAGE_PATH_DEPTH
      {
        if n > 0 {
          assert Walk(at, segments[..n - 1 + 1]) == Walk(after, rest[..n - 1]);
        }
      }
    }
  }

  lemma WalkNothing(at: seq<string>)
    ensures Walk(at, []) == at
  {}

  lemma ConfinedNothing(root: seq<string>, at: seq<string>)
    ensures Confined(root, at, []) <==> root <= at && |at| <= |root| + MAX_PACKAGE_PATH_DEPTH
  {
    WalkNothing(at);
    var nothing: seq<string> := [];
    assert nothing[..0] == nothing;
  }

  /** The counter accepts exactly the walks that never leave the package root, wherever the package is,
      never go too deep, and use safe names. */
  lemma {:induction false} CounterIsStack(root: seq<string>, inner: seq<string>, segments: seq<string>)
    requires root != [] && |inner| <= MAX_PACKAGE_PATH_DEPTH
    ensures CountsOk(segments, |inner|) <==> SafeNames(segments) && Confined(root, root + inner, segments)
    decreases |segments|
  {
    hide Confined, SafeSegment;
    var at := root + inner;
    if segments == [] {
      ConfinedNothing(root, at);
    } else {
      var first, rest := segments[0], segments[1..];
      ConfinedStep(root, at, segments);
      SafeNamesStep(segments);
      if first == ".." {
        if inner == [] {
          assert Step(at, first) == root[..|root| - 1];
          NotConfined(root, root[..|root| - 1], rest);
        } else {
          assert Step(at, first) == root + inner[..|inner| - 1];
          CounterIsStack(root, inner[..|inner| - 1], rest);
        }
      } else if Stays(first) {
        CounterIsStack(root, inner, rest);
      } else {
        assert Step(at, first) == root + (inner + [first]);
        if |inner| < MAX_PACKAGE_PATH_DEPTH {
          CounterIsStack(root, inner + [first], rest);
        } else {
          NotConfined(root, root + (inner + [first]), rest);
        }
      }
    }
  }

  /** Segments that move nowhere may stand anywhere, as doubled slashes and dots do. */
  lemma {:induction false} IdleSegments(before: seq<string>, idle: string, after: seq<string>, depth: nat)
    requires idle == "" || idle == "."
    ensures CountsOk(before + [idle] + after, depth) <==> CountsOk(before + after, depth)
    decreases |before|
  {
    hide SafeSegment;
    var longer, shorter := before + [idle] + after, before + after;
    if before == [] {
      assert longer == [idle] + after && shorter == after;
      assert longer[1..] == after;
    } else {
      var rest := before[1..];
      assert longer[0] == shorter[0] == before[0];
      assert longer[1..] == rest + [idle] + after && shorter[1..] == rest + after;
      IdleSegments(rest, idle, after, depth + 1);
      IdleSegments(rest, idle, after, depth);
      if depth > 0 {
        IdleSegments(rest, idle, after, depth - 1);
      }
    }
  }

  lemma SafeNamesStep(segments: seq<string>)
    requires segments != []
    ensures SafeNames(segments) <==>
              (segments[0] == ".." || Stays(segments[0]) || SafeSegment(segments[0])) && SafeNames(segments[1..])
  {
    hide SafeSegment;
    assert segments == [segments[0]] + segments[1..];
  }

  lemma NotConfined(root: seq<string>, at: seq<string>, segments: seq<string>)
    requires !(root <= at) || |at| > |root| + MAX_PACKAGE_PATH_DEPTH
    ensures !Confined(root, at, segments)
  {
    WalkNothing(at);
    assert segments[..0] == [];
  }

  // ---- The check ----

  /** The directory of the link, followed by the target, as one relative path. */
  function Combined(relativePath: string, target: string): Option<string> {
    match Parent(relativePath)
    case None => if |target| < MAX_PATH_LEN then Some(target) else None
    case Some(parent) =>
      var joined := parent + ("/" + target);
      if |joined| < MAX_PATH_LEN then Some(joined) else None
  }

  predicate Relative(target: string) {
    target != "" && target[0] != '/' && forall i :: 0 <= i < |target| ==> target[i] != '\\'
  }

  /** Following the target from the link's directory, segment by segment, never leaves the package. */
  ghost predicate Accepted(relativePath: string, target: string, root: seq<string>) {
    && relativePath != "" && Relative(target) && Combined(relativePath, target).Some?
    && var segments := SegmentsFrom(Combined(relativePath, target).value, 0);
       SafeNames(segments) && Confined(root, root, segments)
  }

  /** `validate_symlink_target`: accepted exactly when following the target from the link's directory,
      segment by segment, never leaves a package unpacked anywhere. */
  method ValidateSymlinkTarget(relativePath: string, target: string, ghost root: seq<string>) returns (err: CupError)
    requires root != []
    ensures err == Ok <==> Accepted(relativePath, target, root)
    ensures err == Ok || err == ArchiveUnsafe
  {
    hide SafeSegment, Confined, SafeNames, CountsOk, SegmentsFrom, Combined, IndexFrom;
    if relativePath == "" || !Relative(target) {
      return ArchiveUnsafe;
    }
    var joined := Combined(relativePath, target);
    if joined.None? {
      return ArchiveUnsafe;
    }
    var combined := joined.value;
    CounterIsStack(root, [], SegmentsFrom(combined, 0));
    assert root + [] == root;
    var segment, depth := 0, 0;
    while segment < |combined|
      invariant segment <= |combined| && depth >= 0
      invariant CountsOk(SegmentsFrom(combined, 0), 0) == CountsOk(SegmentsFrom(combined, segment), depth)
    {
      CountStep(combined, segment, depth);
      var next := IndexFrom(combined, '/', segment);
      var name := combined[segment..next];
      if name == ".." {
        if depth == 0 {
          return ArchiveUnsafe;
        }
        depth := depth - 1;
      } else if name != "." && name != "" {
        depth := depth + 1;
        if depth > MAX_PACKAGE_PATH_DEPTH || !SafeSegment(name) {
          return ArchiveUnsafe;
        }
      }
      segment := if next == |combined| then next else next + 1;
    }
    CountNothing(combined, depth);
    return Ok;
  }

  /** What the segment at a position asks of the counter. */
  lemma CountStep(path: string, from: nat, depth: nat)
    requires from < |path|
    ensures var next := IndexFrom(path, '/', from);
            && from <= next <= |path|
            && var name, after := path[from..next], if next == |path| then next else next + 1;
               CountsOk(SegmentsFrom(path, from), depth)
                 == if name == ".." then depth > 0 && CountsOk(SegmentsFrom(path, after), depth - 1)
                    else if Stays(name) then CountsOk(SegmentsFrom(path, after), depth)
                    else depth + 1 <= MAX_PACKAGE_PATH_DEPTH && SafeSegment(name)
                         && CountsOk(SegmentsFrom(path, after), depth + 1)
  {
    hide SafeSegment, IndexFrom, SegmentsFrom, CountsOk;
    var next := IndexFrom(path, '/', from);
    var after := if next == |path| then next else next + 1;
    FirstSegment(path, from);
    CountFirst(path[from..next], SegmentsFrom(path, after), depth);
  }

  lemma FirstSegment(path: string, from: nat)
    requires from < |path|
    ensures var next := IndexFrom(path, '/', from);
            && from <= next <= |path|
            && SegmentsFrom(path, from)
               == [path[from..next]] + SegmentsFrom(path, if next == |path| then next else next + 1)
  {
    hide IndexFrom;
  }

  lemma CountFirst(name: string, rest: seq<string>, depth: nat)
    ensures CountsOk([name] + rest, depth)
         == if name == ".." then depth > 0 && CountsOk(rest, depth - 1)
            else if Stays(name) then CountsOk(rest, depth)
            else depth + 1 <= MAX_PACKAGE_PATH_DEPTH && SafeSegment(name) && CountsOk(rest, depth + 1)
  {
    hide SafeSegment;
    assert ([name] + rest)[1..] == rest;
  }

  lemma CountNothing(path: string, depth: nat)
    ensures CountsOk(SegmentsFrom(path, |path|), depth)
  {}
}
