/** Installing one package, also on behalf of an update: staging, journal, rename, state.txt, and the
    rollback that applies while the old state is still the authority. */
module Installs {
  import opened Text
  import opened Domain
  import opened States
  import opened Disks
  import opened Recovery
  import StateFiles

  /** What is to be installed and, for an update, what the plan saw when it was made. */
  datatype Request = Request(package: Identity, update: bool,
                             expectedReference: Option<Identity>, expectedDefault: Option<Identity>)

  predicate ScopeIsEmpty(d: Doc, s: Scope) {
    forall id :: id in d.installed ==> ScopeOf(id) != s
  }

  /** The installed reference is still the one the plan was made for. */
  predicate ReferenceUnchanged(d: Doc, r: Request)
    requires WellFormed(d) && r.expectedReference.Some?
  {
    && IsToolReference(d, ScopeOf(r.package), r.package.tool, r.expectedReference.value, r.expectedDefault.Some?)
    && (r.expectedDefault.Some? ==> r.expectedDefault.value == r.expectedReference.value)
  }

  /** An update whose plan no longer applies. */
  predicate Outdated(d: Doc, r: Request)
    requires WellFormed(d)
  {
    r.update && !(r.expectedReference.Some? && ReferenceUnchanged(d, r))
  }

  /** The state on the disk is valid, and the plan no longer applies to it. */
  ghost predicate OutdatedAt(w: World, r: Request) {
    StateOf(w).Some? && WellFormed(StateOf(w).value) && Outdated(StateOf(w).value, r)
  }

  /** The installs that nothing but a failing disk can stop: an update to what is installed, or a new
      package whose extracted tree is valid, with the plan still up to date and the new state, if it
      differs, small enough and of one host. */
  ghost predicate CanInstall(valid: Validator, host: string, d: Doc, r: Request, contents: seq<string>)
    requires WellFormed(d)
  {
    && !Outdated(d, r)
    && (if r.package in d.installed then r.update else valid(r.package, set entry | entry in contents))
    && (InstallGoal(d, r) != d ==> StateFiles.Storable(InstallGoal(d, r), host))
  }

  predicate DefaultMoves(d: Doc, r: Request) {
    var s := ScopeOf(r.package);
    && r.update && r.expectedDefault.Some? && s in d.defaults
    && d.defaults[s] == r.expectedDefault.value && d.defaults[s] != r.package
  }

  predicate DefaultMade(d: Doc, r: Request) {
    ScopeOf(r.package) !in d.defaults && ScopeIsEmpty(d, ScopeOf(r.package))
  }

  /** The state a completed install leaves. */
  function InstallGoal(d: Doc, r: Request): Doc {
    if r.package in d.installed then
      if DefaultMoves(d, r) then WithDefault(d, r.package) else d
    else
      var added := WithInstalled(d, r.package);
      if DefaultMade(d, r) || DefaultMoves(d, r) then WithDefault(added, r.package) else added
  }

  /** What becomes of a state when a package is installed: it is recorded, and no other scope changes. Its own
      scope keeps its default, unless this is an update whose planned default that still is; then the default
      is the package. A scope without a default gets the package only if nothing was installed in it. */
  ghost predicate Gains(before: Doc, r: Request, after: Doc) {
    var s := ScopeOf(r.package);
    && (forall q :: q in after.installed <==> q in before.installed || q == r.package)
    && (forall o :: o != s ==>
          (o in after.defaults <==> o in before.defaults)
          && (o in after.defaults ==> after.defaults[o] == before.defaults[o]))
    && if s in before.defaults then
         s in after.defaults
         && after.defaults[s] == if r.update && r.expectedDefault == Some(before.defaults[s]) then r.package
                                 else before.defaults[s]
       else
         (s in after.defaults <==> forall q :: q in before.installed ==> ScopeOf(q) != s)
         && (s in after.defaults ==> after.defaults[s] == r.package)
  }

  predicate OldOrNew(before: World, goal: Doc, w: World) {
    StateOf(w).Some? && (StateOf(w) == StateOf(before) || StateOf(w).value == goal)
  }

  lemma WithinIsOldOrNew(valid: Validator, before: World, id: Identity, goal: Doc, w: World)
    requires Within(valid, before, id, goal, w)
    ensures OldOrNew(before, goal, w)
  {}

  lemma GoalGains(d: Doc, r: Request)
    ensures Gains(d, r, InstallGoal(d, r))
  {
    var s, goal := ScopeOf(r.package), InstallGoal(d, r);
    if r.package in d.installed {
      assert !ScopeIsEmpty(d, s);
    }
  }

  /** A new package can be installed wherever it is valid and the state with it can be stored; an update to a
      release that is there already can always be made while its plan is up to date. */
  lemma FreshInstallIsPossible(valid: Validator, host: string, d: Doc, r: Request, contents: seq<string>, after: Doc)
    requires WellFormed(d) && Gains(d, r, after) && StateFiles.Storable(after, host)
    requires r.update ==> r.expectedReference.Some? && ReferenceUnchanged(d, r)
    requires if r.package in d.installed then r.update else valid(r.package, set entry | entry in contents)
    ensures CanInstall(valid, host, d, r, contents)
  {
    hide StateFiles.Storable, ReferenceUnchanged, WellFormed;
    GoalGains(d, r);
    GainsOneState(d, r, after, InstallGoal(d, r));
  }

  lemma GainsOneState(d: Doc, r: Request, a: Doc, b: Doc)
    requires Gains(d, r, a) && Gains(d, r, b)
    ensures a == b
  {
    assert a.installed == b.installed;
    var s := ScopeOf(r.package);
    forall o ensures o in a.defaults <==> o in b.defaults
      ensures o in a.defaults ==> a.defaults[o] == b.defaults[o]
    {
      assert o == s || o != s;
    }
    assert a.defaults == b.defaults;
  }

  lemma GoalIsWellFormed(d: Doc, r: Request)
    requires WellFormed(d) && ValidIdentity(r.package)
    ensures WellFormed(InstallGoal(d, r)) && r.package in InstallGoal(d, r).installed
  {}

  lemma GoalWhenNew(d: Doc, r: Request, made: bool, moved: bool)
    requires r.package !in d.installed
    requires made == DefaultMade(d, r) && moved == (!made && DefaultMoves(WithInstalled(d, r.package), r))
    ensures InstallGoal(d, r) == if made || moved then WithDefault(WithInstalled(d, r.package), r.package)
                                 else WithInstalled(d, r.package)
    ensures InstallGoal(d, r) != d
  {
    assert r.package in InstallGoal(d, r).installed;
  }

  lemma GoalWhenAbsent(d: Doc, r: Request)
    ensures r.package !in d.installed ==> InstallGoal(d, r) != d
  {
    assert r.package in InstallGoal(d, r).installed || r.package in d.installed;
  }

  lemma GoalWhenPresent(d: Doc, r: Request)
    requires r.package in d.installed
    ensures InstallGoal(d, r) == if DefaultMoves(d, r) then WithDefault(d, r.package) else d
    ensures DefaultMoves(d, r) ==> InstallGoal(d, r) != d
  {
    if DefaultMoves(d, r) {
      assert InstallGoal(d, r).defaults[ScopeOf(r.package)] != d.defaults[ScopeOf(r.package)];
    }
  }

  /** Every world a transaction on `id` may show: valid but for `id`, the state old or new, nothing
      else touched, and as long as the state is old, recovery brings the old package back. */
  ghost predicate Within(valid: Validator, before: World, id: Identity, goal: Doc, w: World) {
    && Inv(valid, w)
    && (StateOf(w) == StateOf(before) || StateOf(w) == Some(goal))
    && (JournalFile in w ==> Names(w, id))
    && (forall q :: q != id ==> Look(w, Package(q)) == Look(before, Package(q)))
    && (StateOf(w) == StateOf(before) ==> Look(Settle(valid, w), Package(id)) == Look(before, Package(id)))
  }

  /** The worlds of an install, described by what is on the disk. */
  ghost predicate InstallShape(valid: Validator, before: World, id: Identity, goal: Doc, w: World) {
    && (forall q :: q != id ==> Look(w, Package(q)) == Look(before, Package(q)))
    && (JournalFile in w ==> Names(w, id))
    && if Look(w, StateFile) == Look(before, StateFile)
       then (if JournalFile in w then !Installed(before, id) else Look(w, Package(id)) == Look(before, Package(id)))
       else
         && StateOf(w) == Some(goal) && Healthy(valid, w, Package(id), id)
         && (Installed(before, id) ==> JournalFile !in w && Look(w, Package(id)) == Look(before, Package(id)))
  }

  lemma ShapeIsWithin(valid: Validator, before: World, r: Request, w: World)
    requires Consistent(valid, before) && ValidIdentity(r.package)
    requires InstallShape(valid, before, r.package, InstallGoal(StateOf(before).value, r), w)
    ensures Within(valid, before, r.package, InstallGoal(StateOf(before).value, r), w)
  {
    var id, d := r.package, StateOf(before).value;
    GoalIsWellFormed(d, r);
    if Look(w, StateFile) == Look(before, StateFile) {
      assert StateOf(w) == StateOf(before);
    }
    forall q | !Names(w, q) ensures Agrees(valid, w, q) {
      assert Agrees(valid, before, q);
      assert q != id ==> Look(w, Package(q)) == Look(before, Package(q));
    }
    assert Agrees(valid, before, id);
  }

  // ---- The shape survives each kind of step ----

  /** Nothing but a staging path differs. */
  ghost predicate StagedOnly(w: World, n: nat, after: World) {
    forall name :: name != Staged(n) ==> Look(after, name) == Look(w, name)
  }

  lemma ShapeStaged(valid: Validator, before: World, id: Identity, goal: Doc, w: World, n: nat, after: World)
    requires InstallShape(valid, before, id, goal, w)
    requires Shrunk(w, Staged(n), after) || (Staged(n) in after && after == w[Staged(n) := after[Staged(n)]])
    ensures InstallShape(valid, before, id, goal, after) && StagedOnly(w, n, after)
  {
    assert StagedOnly(w, n, after);
    assert forall q :: Look(after, Package(q)) == Look(w, Package(q));
    assert Look(after, StateFile) == Look(w, StateFile) && Look(after, JournalFile) == Look(w, JournalFile);
  }

  lemma UnstagedSame(w: World, n: nat, after: World)
    requires StagedOnly(w, n, after)
    ensures Look(after, StateFile) == Look(w, StateFile) && Look(after, JournalFile) == Look(w, JournalFile)
    ensures forall q :: Look(after, Package(q)) == Look(w, Package(q))
  {}

  /** Nothing that outlives private staging has changed. */
  ghost predicate Quiet(before: World, w: World) {
    && JournalFile !in w && Look(w, StateFile) == Look(before, StateFile)
    && forall q :: Look(w, Package(q)) == Look(before, Package(q))
  }

  /** A failure that promises that nothing has happened. */
  predicate Plain(err: CupError) {
    err != Ok && err != Commit && err != Rollback
  }

  /** Whatever a log has gained that a power loss could still bring back shows nothing but private
      staging changed. */
  ghost predicate NothingHappened(start: seq<World>, log: seq<World>, durable: nat)
    requires |start| > 0
  {
    var found := start[|start| - 1];
    forall k :: |start| <= k < |log| && (durable <= k || k == |log| - 1) ==> log[k] == found || Quiet(found, log[k])
  }

  lemma QuietStaged(before: World, w: World, n: nat, after: World)
    requires Quiet(before, w) && StagedOnly(w, n, after)
    ensures Quiet(before, after)
  {
    assert Look(after, JournalFile) == Look(w, JournalFile);
  }

  lemma QuietSelf(before: World)
    requires JournalFile !in before
    ensures Quiet(before, before)
  {}

  lemma QuietShape(valid: Validator, before: World, id: Identity, goal: Doc, w: World)
    requires InstallShape(valid, before, id, goal, w)
    requires JournalFile !in w && Look(w, StateFile) == Look(before, StateFile)
    ensures Quiet(before, w)
  {}

  lemma ShapePublish(valid: Validator, before: World, id: Identity, goal: Doc, w: World, o: Object)
    requires InstallShape(valid, before, id, goal, w) && Look(w, StateFile) == Look(before, StateFile)
    requires !Installed(before, id) && o.body.JournalBody? && o.body.journal.package == id
    ensures var after := w[JournalFile := o];
            && InstallShape(valid, before, id, goal, after)
            && forall name :: name != JournalFile ==> Look(after, name) == Look(w, name)
  {
    var after := w[JournalFile := o];
    assert forall q :: Look(after, Package(q)) == Look(w, Package(q));
  }

  /** The rename into or out of the components tree, with the journal standing. */
  lemma ShapeMove(valid: Validator, before: World, id: Identity, goal: Doc, w: World, n: nat)
    requires InstallShape(valid, before, id, goal, w) && Look(w, StateFile) == Look(before, StateFile)
    requires !Installed(before, id) && JournalFile in w
    ensures Staged(n) in w ==>
              var after := Renamed(w, Staged(n), Package(id), w[Staged(n)]);
              && InstallShape(valid, before, id, goal, after)
              && Look(after, StateFile) == Look(w, StateFile) && Look(after, JournalFile) == Look(w, JournalFile)
              && (Healthy(valid, w, Staged(n), id) ==> Healthy(valid, after, Package(id), id))
    ensures Package(id) in w ==>
              var after := Renamed(w, Package(id), Staged(n), w[Package(id)]);
              && InstallShape(valid, before, id, goal, after) && Package(id) !in after
              && Look(after, StateFile) == Look(w, StateFile) && Look(after, JournalFile) == Look(w, JournalFile)
  {
    if Staged(n) in w {
      var after := Renamed(w, Staged(n), Package(id), w[Staged(n)]);
      assert forall q :: q != id ==> Look(after, Package(q)) == Look(w, Package(q));
    }
    if Package(id) in w {
      var after := Renamed(w, Package(id), Staged(n), w[Package(id)]);
      assert forall q :: q != id ==> Look(after, Package(q)) == Look(w, Package(q));
    }
  }

  lemma ShapeCommit(valid: Validator, before: World, id: Identity, goal: Doc, w: World, o: Object)
    requires InstallShape(valid, before, id, goal, w) && Healthy(valid, w, Package(id), id)
    requires o.body == StateBody(goal)
    requires Installed(before, id) ==> JournalFile !in w && Look(w, Package(id)) == Look(before, Package(id))
    requires Some(o) != Look(before, StateFile)
    ensures var after := w[StateFile := o];
            && InstallShape(valid, before, id, goal, after) && StateOf(after) == Some(goal)
            && forall name :: name != StateFile ==> Look(after, name) == Look(w, name)
  {
    var after := w[StateFile := o];
    assert forall q :: Look(after, Package(q)) == Look(w, Package(q));
  }

  lemma ShapeClear(valid: Validator, before: World, id: Identity, goal: Doc, w: World)
    requires InstallShape(valid, before, id, goal, w)
    requires Look(w, StateFile) == Look(before, StateFile) ==> Look(w, Package(id)) == Look(before, Package(id))
    ensures var after := w - {JournalFile};
            && InstallShape(valid, before, id, goal, after)
            && forall name :: name != JournalFile ==> Look(after, name) == Look(w, name)
  {
    var after := w - {JournalFile};
    assert forall q :: Look(after, Package(q)) == Look(w, Package(q));
  }

  /** The comparison behind `ReferenceUnchanged`, on the arrays: look the reference up, then compare it
      and its being the default with what the plan saw. */
  method CompareReference(state: CupState, r: Request) returns (err: CupError)
    requires state.Valid() && r.expectedReference.Some?
    ensures WellFormed(state.Contents())
    ensures err == if ReferenceUnchanged(state.Contents(), r) then Ok else NotInstalled
  {
    hide IsToolReference, WellFormed;
    var s, tool := ScopeOf(r.package), r.package.tool;
    var reference, isDefault;
    err, reference, isDefault := state.GetToolReference(s, tool);
    if err != Ok {
      return;
    }
    if ReferenceUnchanged(state.Contents(), r) {
      ToolReferenceUnique(state.Contents(), s, tool, reference, isDefault,
                          r.expectedReference.value, r.expectedDefault.Some?);
    }
    if reference != r.expectedReference.value || isDefault != r.expectedDefault.Some?
       || (isDefault && reference != r.expectedDefault.value) {
      return NotInstalled;
    }
  }

  lemma AdmissibleIsConsistent(valid: Validator, w: World, id: Identity)
    requires Admissible(w) && Inv(valid, w)
    ensures Consistent(valid, w) && Agrees(valid, w, id)
  {}

  /** One install, with everything it has learned and done so far. */
  class InstallOperation {
    const disk: Disk
    const valid: Validator
    const request: Request
    ghost var before: World
    ghost var goal: Doc
    ghost var past: seq<World>
    ghost var floor: nat
    var state: Doc
    var stateInode: nat
    var staging: nat
    var stagingCreated: bool
    var packageMoved: bool
    var journalStarted: bool
    var journalInode: nat
    var madeDefault: bool
    var defaultMoved: bool
    var packageAlreadyInstalled: bool
    var scopeWasEmpty: bool

    constructor (disk: Disk, valid: Validator, request: Request)
      ensures this.disk == disk && this.valid == valid && this.request == request
      ensures !stagingCreated && !packageMoved && !journalStarted && !packageAlreadyInstalled
      ensures !madeDefault && !defaultMoved
    {
      this.disk, this.valid, this.request := disk, valid, request;
      before, goal, past, floor := map[], Doc({}, map[]), [], 0;
      state, stateInode, staging, journalInode := Doc({}, map[]), 0, 0, 0;
      stagingCreated, packageMoved, journalStarted, madeDefault, defaultMoved := false, false, false, false, false;
      packageAlreadyInstalled, scopeWasEmpty := false, false;
    }

    ghost predicate Shape(w: World)
      reads this`before, this`goal
    {
      InstallShape(valid, before, request.package, goal, w)
    }

    /** The log still begins with the past, and every world shown since admission has the shape. */
    ghost predicate Traced()
      reads this`before, this`goal, this`past, this`floor, disk`now, disk`log, disk`durable
    {
      && |past| <= |disk.log| && floor <= disk.durable
      && (forall k :: 0 <= k < |past| ==> disk.log[k] == past[k])
      && (forall k :: |past| <= k < |disk.log| ==> Shape(disk.log[k]))
      && Shape(disk.now)
    }

    /** Every world shown since admission at or after the `n`-th is quiet: what a power loss can bring back. */
    ghost predicate QuietFrom(n: nat)
      reads this`before, this`past, disk`log
    {
      forall k :: |past| <= k < |disk.log| && n <= k ==> Quiet(before, disk.log[k])
    }

    /** What was loaded under the lock: a consistent root, and the goal that follows from it. */
    ghost predicate Root()
      reads this`before, this`goal, this`stateInode
    {
      && Consistent(valid, before) && ValidIdentity(request.package)
      && StateOf(before).Some? && goal == InstallGoal(StateOf(before).value, request)
      && stateInode == before[StateFile].inode
    }

    /** The root is loaded and the disk still shows nothing but it and private staging. */
    ghost predicate Loaded()
      reads this`before, this`goal, this`stateInode, disk`now, disk`log, disk`durable
    {
      disk.Valid() && Root() && Shape(disk.now) && Look(disk.now, StateFile) == Look(before, StateFile)
    }

    /** Locked admission: no pending journal, and a valid state document. */
    method LoadContext() returns (err: CupError)
      requires disk.Valid() && (Admissible(disk.now) ==> Inv(valid, disk.now)) && ValidIdentity(request.package)
      modifies this`before, this`goal, this`past, this`floor, this`state, this`stateInode
      ensures err != NotInstalled
      ensures before == disk.now && past == disk.log && floor == disk.durable
      ensures !Admissible(disk.now) ==> err != Ok
      ensures Admissible(disk.now) ==> Consistent(valid, before) && Loaded()
      ensures err == Ok ==> state == StateOf(before).value
      ensures disk.reliable && Admissible(disk.now) ==> err == Ok
    {
      hide InstallGoal, ValidIdentity;
      before, past, floor := disk.now, disk.log, disk.durable;
      if JournalFile in disk.now {
        return TransactionError;
      }
      var failed := disk.Fault();
      var loaded := StateOf(disk.now);
      if loaded.Some? {
        goal := InstallGoal(loaded.value, request);
        stateInode := disk.now[StateFile].inode;
      }
      if Admissible(disk.now) {
        AdmissibleIsConsistent(valid, before, request.package);
      }
      if failed || loaded.None? || !WellFormed(loaded.value) {
        return InconsistentState;
      }
      state := loaded.value;
      return Ok;
    }

    /** An update goes ahead only from the reference and default it was planned for. */
    method ValidateUpdateReference() returns (err: CupError)
      requires WellFormed(state)
      ensures err == Ok <==> !request.update || (request.expectedReference.Some? && ReferenceUnchanged(state, request))
      ensures err == Ok || err == if request.expectedReference.None? then InvalidInput else NotInstalled
    {
      if !request.update {
        return Ok;
      }
      if request.expectedReference.None? {
        return InvalidInput;
      }
      return if ReferenceUnchanged(state, request) then Ok else NotInstalled;
    }

    /** State and components must agree on the package before anything is prepared. */
    method CheckExistingInstall() returns (err: CupError)
      requires Loaded() && state == StateOf(before).value && disk.now == before
      modifies this`packageAlreadyInstalled
      ensures err != NotInstalled
      ensures err == Ok ==> packageAlreadyInstalled == Installed(before, request.package)
      ensures err == Ok && packageAlreadyInstalled ==> request.update
      ensures err != Ok ==> packageAlreadyInstalled == old(packageAlreadyInstalled)
      ensures err == AlreadyInstalled ==> Installed(before, request.package)
      ensures disk.reliable ==> (err == Ok <==> (Installed(before, request.package) ==> request.update))
    {
      assert Agrees(valid, before, request.package);
      var failed := disk.Fault();
      if failed {
        return Filesystem;
      }
      var inState, onDisk := request.package in state.installed, Package(request.package) in disk.now;
      if !inState && !onDisk {
        packageAlreadyInstalled := false;
        return Ok;
      }
      if !(inState && onDisk) {
        return InconsistentState;
      }
      if !request.update {
        return AlreadyInstalled;
      }
      if !Healthy(valid, disk.now, Package(request.package), request.package) {
        return InconsistentState;
      }
      packageAlreadyInstalled := true;
      return Ok;
    }

    /** Nothing but private staging exists so far. */
    ghost predicate Preparing()
      reads this`before, this`goal, this`past, this`floor, this`state, this`stateInode, this`packageMoved,
            this`journalStarted, this`packageAlreadyInstalled, this`madeDefault, this`defaultMoved, this`scopeWasEmpty,
            disk`now, disk`log, disk`durable
    {
      && Loaded() && Traced() && QuietFrom(0) && !Installed(before, request.package) && JournalFile !in disk.now
      && Package(request.package) !in before && Package(request.package) !in disk.now
      && state == StateOf(before).value && !packageMoved && !journalStarted && !packageAlreadyInstalled
      && !madeDefault && !defaultMoved
      && scopeWasEmpty == ScopeIsEmpty(state, ScopeOf(request.package))
    }

    lemma PreparingIsTraced()
      requires Preparing()
      ensures Traced()
    {}

    /** Private staging is written; nothing else changes. */
    method ShowStaged(tree: Object)
      requires Preparing()
      modifies disk`now, disk`log
      ensures Preparing() && disk.now == old(disk.now)[Staged(staging) := tree]
    {
      hide InstallShape, Root, ScopeIsEmpty, Quiet, StagedOnly, Names, Installed;
      ghost var start := disk.now;
      disk.Show(disk.now[Staged(staging) := tree]);
      ShapeStaged(valid, before, request.package, goal, start, staging, disk.now);
      UnstagedSame(start, staging, disk.now);
      QuietShape(valid, before, request.package, goal, disk.now);
    }

    method PrepareStaging() returns (err: CupError)
      requires Preparing() && !stagingCreated && disk.now == before
      modifies this`staging, this`stagingCreated, disk`now, disk`log, disk`nextInode
      ensures err != NotInstalled
      ensures Preparing()
      ensures Traced()
      ensures !stagingCreated ==> err != Ok && disk.now == old(disk.now)
      ensures stagingCreated ==> Staged(staging) in disk.now && IsDirectory(disk.now[Staged(staging)])
                                 && disk.now[Staged(staging)].body.tree.entries == {}
      ensures disk.reliable ==> err == Ok
    {
      hide Preparing, Traced, Installed;
      PreparingIsTraced();
      var failed := disk.Fault();
      if failed {
        return Interrupt;
      }
      FreshNames(disk.now);
      var name: nat :| Staged(name) !in disk.now;
      staging := name;
      ShowStaged(Object(disk.nextInode, PackageBody(Directory({}))));
      disk.nextInode := disk.nextInode + 1;
      stagingCreated := true;
      PreparingIsTraced();
      failed := disk.Fault();
      return if failed then BufferTooSmall else Ok;
    }

    /** Extraction may stop after any number of entries; only a fully valid tree goes on. */
    method ExtractPackage(contents: seq<string>) returns (err: CupError)
      requires Preparing() && stagingCreated && Staged(staging) in disk.now && IsDirectory(disk.now[Staged(staging)])
      modifies disk`now, disk`log
      ensures err != NotInstalled
      ensures Preparing() && Staged(staging) in disk.now && IsDirectory(disk.now[Staged(staging)])
      ensures Traced()
      ensures err == Ok ==> Healthy(valid, disk.now, Staged(staging), request.package)
      ensures disk.reliable && old(disk.now)[Staged(staging)].body.tree.entries == {} ==>
                (err == Ok <==> valid(request.package, set entry | entry in contents))
    {
      hide InstallShape, Root, ScopeIsEmpty, Quiet, Names, Installed, QuietFrom;
      var failed;
      for i := 0 to |contents|
        invariant Preparing() && Staged(staging) in disk.now && IsDirectory(disk.now[Staged(staging)])
        invariant disk.now[Staged(staging)].body.tree.entries
               == old(disk.now)[Staged(staging)].body.tree.entries + set entry | entry in contents[..i]
      {
        assert contents[..i + 1] == contents[..i] + [contents[i]];
        failed := disk.Fault();
        if failed {
          return Interrupt;
        }
        var tree := disk.now[Staged(staging)];
        ShowStaged(Object(tree.inode, PackageBody(Directory(tree.body.tree.entries + {contents[i]}))));
      }
      assert contents[..|contents|] == contents;
      assert {} + (set entry | entry in contents) == set entry | entry in contents;
      failed := disk.Fault();
      if failed {
        return Interrupt;
      }
      return if Healthy(valid, disk.now, Staged(staging), request.package) then Ok else Validation;
    }

    /** Sets the default in the candidate state when this install is entitled to. */
    method PrepareDefaultChange(packageIsNew: bool) returns (err: CupError)
      requires request.package in state.installed && !madeDefault && !defaultMoved
      modifies this`state, this`madeDefault, this`defaultMoved
      ensures err != NotInstalled
      ensures err == Ok ==>
                && madeDefault == (ScopeOf(request.package) !in old(state).defaults && packageIsNew && scopeWasEmpty)
                && defaultMoved == (!madeDefault && DefaultMoves(old(state), request))
                && state == if madeDefault || defaultMoved then WithDefault(old(state), request.package) else old(state)
      ensures disk.reliable ==> err == Ok
    {
      var s := ScopeOf(request.package);
      var should := false;
      if s !in state.defaults && packageIsNew && scopeWasEmpty {
        should, madeDefault := true, true;
      } else if request.update && request.expectedDefault.Some? && s in state.defaults
                && state.defaults[s] == request.expectedDefault.value && state.defaults[s] != request.package {
        should, defaultMoved := true, true;
      }
      if !should {
        return Ok;
      }
      state := WithDefault(state, request.package);
      var failed := disk.Fault();
      return if failed then InconsistentState else Ok;
    }

    /** The old state still rules, and the flags say what has to be undone. */
    ghost predicate Undoable()
      reads this`before, this`goal, this`past, this`floor, this`stateInode, this`packageMoved,
            this`journalStarted, this`journalInode, disk`now, disk`log, disk`durable
    {
      && Loaded() && Traced() && !Installed(before, request.package) && Package(request.package) !in before
      && (packageMoved ==> journalStarted)
      && (journalStarted ==> JournalFile in disk.now && disk.now[JournalFile].inode == journalInode)
      && (!packageMoved ==> Package(request.package) !in disk.now)
    }

    /** Publishes the journal; nothing else changes. */
    method PublishTransaction() returns (err: CupError)
      requires disk.Valid() && Traced() && JournalFile !in disk.now
      requires forall inode: nat :: Shape(disk.now[JournalFile := Object(inode, JournalBody(Started()))])
      modifies this`journalStarted, this`journalInode,
               disk`now, disk`temporaries, disk`log, disk`durable, disk`nextInode
      ensures disk.Valid() && disk.Grew() && Traced()
      ensures forall name :: name != JournalFile ==> Look(disk.now, name) == Look(old(disk.now), name)
      ensures Look(disk.now, JournalFile).Some? ==> JournalOf(disk.now) == Some(Started())
      ensures err in {Ok, TransactionError, Commit} && (disk.reliable ==> err == Ok)
      ensures err == Ok ==> journalStarted && JournalFile in disk.now && disk.now[JournalFile].inode == journalInode
      ensures err != Ok ==> journalStarted == old(journalStarted)
      ensures err == TransactionError ==>
                disk.now == old(disk.now) && (|disk.log| > |old(disk.log)| ==> disk.Settled())
    {
      hide InstallShape;
      var identity;
      err, identity := disk.PublishJournal(Started());
      if err == Ok {
        journalInode := identity.value;
        journalStarted := true;
      }
    }

    function Started(): Journal
      reads this`staging
    {
      Journal(Install, request.package, staging)
    }

    method BeginInstallCommit() returns (err: CupError)
      requires Preparing() && Healthy(valid, disk.now, Staged(staging), request.package)
      modifies this`journalStarted, this`journalInode,
               disk`now, disk`temporaries, disk`log, disk`durable, disk`nextInode
      ensures err != NotInstalled
      ensures Undoable()
      ensures Traced()
      ensures Healthy(valid, disk.now, Staged(staging), request.package)
      ensures err == Ok ==> journalStarted && JournalFile in disk.now
      ensures err != Ok ==> !journalStarted
      ensures err != Ok && err != Commit ==> JournalFile !in disk.now
      ensures err != Ok && err != Commit ==> QuietFrom(disk.durable)
      ensures disk.reliable ==> err == Ok
    {
      hide InstallShape, Root, ScopeIsEmpty, Quiet, Names, Installed;
      var failed := disk.Fault();
      if failed {
        return Interrupt;
      }
      ghost var start := disk.now;
      QuietShape(valid, before, request.package, goal, start);
      forall inode: nat ensures Shape(start[JournalFile := Object(inode, JournalBody(Started()))]) {
        ShapePublish(valid, before, request.package, goal, start, Object(inode, JournalBody(Started())));
      }
      err := PublishTransaction();
      assert Look(disk.now, StateFile) == Look(start, StateFile);
      assert Look(disk.now, Package(request.package)) == Look(start, Package(request.package));
      assert Look(disk.now, Staged(staging)) == Look(start, Staged(staging));
    }

    /** The journal stands and the old state rules. */
    ghost predicate Journaled()
      reads this, disk
    {
      && Undoable() && journalStarted && state == StateOf(before).value && !madeDefault && !defaultMoved
      && scopeWasEmpty == ScopeIsEmpty(state, ScopeOf(request.package))
    }

    /** A rename that keeps the shape. */
    method MoveTree(source: Name, destination: Name) returns (err: CupError, commit: CommitState)
      requires disk.Valid() && Traced() && !source.Temporary? && !destination.Temporary? && source != destination
      requires source in disk.now ==> Shape(Renamed(disk.now, source, destination, disk.now[source]))
      modifies disk`now, disk`temporaries, disk`log, disk`durable
      ensures disk.Valid() && Traced() && err != NotInstalled
      ensures err == Ok <==> commit == Durable
      ensures commit == NotApplied ==> err != Commit && disk.now == old(disk.now)
      ensures || disk.now == old(disk.now)
              || (source in old(disk.now)
                  && disk.now == Renamed(old(disk.now), source, destination, old(disk.now)[source]))
      ensures err == Ok ==>
                && source in old(disk.now)
                && disk.now == Renamed(old(disk.now), source, destination, old(disk.now)[source])
      ensures disk.reliable ==>
                (err == Ok <==>
                   MayMove(Look(old(disk.now), source), Look(old(disk.now), destination), false, None, None))
    {
      hide InstallShape, Renamed, MayMove;
      err, commit := disk.MovePath(source, destination);
    }

    /** The staged tree is renamed to its canonical path. */
    method MoveIntoPlace() returns (err: CupError)
      requires Journaled() && !packageMoved && Healthy(valid, disk.now, Staged(staging), request.package)
      modifies this`packageMoved, disk`now, disk`temporaries, disk`log, disk`durable
      ensures err != NotInstalled
      ensures disk.Valid()
      ensures Traced()
      ensures err == Commit ==> packageMoved
      ensures err != Commit ==> Journaled()
      ensures err == Ok ==> packageMoved && Healthy(valid, disk.now, Package(request.package), request.package)
      ensures disk.reliable ==> err == Ok
    {
      hide InstallShape, ScopeIsEmpty, Root, Renamed, Installed, Traced;
      var failed := disk.Fault();
      if failed {
        return Interrupt;
      }
      ShapeMove(valid, before, request.package, goal, disk.now, staging);
      var commit;
      err, commit := MoveTree(Staged(staging), Package(request.package));
      if err == Ok {
        packageMoved := true;
      } else if commit == Applied {
        packageMoved := true;
        return Commit;
      }
    }

    /** The candidate state, with its default: the goal. */
    method PrepareCandidate() returns (err: CupError)
      requires Journaled()
      modifies this`state, this`madeDefault, this`defaultMoved
      ensures err != NotInstalled && err != Commit
      ensures err == Ok ==> state == goal && WellFormed(goal) && Some(goal) != StateOf(before)
      ensures disk.reliable ==> err == Ok
    {
      hide InstallShape, Consistent, InstallGoal, ScopeIsEmpty, DefaultMoves, ValidIdentity, WellFormed, Traced;
      ConsistentAgrees(valid, before, request.package);
      GoalIsWellFormed(StateOf(before).value, request);
      state := WithInstalled(state, request.package);
      err := PrepareDefaultChange(true);
      if err != Ok {
        err := if err == Commit then InconsistentState else err;
        return;
      }
      GoalWhenNew(StateOf(before).value, request, madeDefault, defaultMoved);
    }

    /** The candidate state replaces state.txt: the commit point. */
    method RecordInstalled() returns (err: CupError)
      requires Journaled() && packageMoved && Healthy(valid, disk.now, Package(request.package), request.package)
      modifies this`state, this`madeDefault, this`defaultMoved,
               disk`now, disk`temporaries, disk`log, disk`durable, disk`nextInode
      ensures err != NotInstalled
      ensures disk.Valid()
      ensures Traced()
      ensures err != Ok && err != Commit ==> Undoable()
      ensures err == Ok ==>
                disk.Settled() && Shape(disk.now) && StateOf(disk.now) == Some(goal)
                && Look(disk.now, StateFile) != Look(before, StateFile)
                && Healthy(valid, disk.now, Package(request.package), request.package)
      ensures Look(disk.now, JournalFile) == Look(old(disk.now), JournalFile)
      ensures disk.reliable ==> (err == Ok <==> StateFiles.Storable(goal, disk.host))
    {
      hide InstallShape, Root, ScopeIsEmpty, WellFormed, StateFiles.Storable, Installed;
      RootStands();
      err := PrepareCandidate();
      if err != Ok {
        return;
      }
      ghost var renamed := disk.now;
      forall inode: nat ensures Shape(renamed[StateFile := Object(inode, StateBody(goal))]) {
        ShapeCommit(valid, before, request.package, goal, renamed, Object(inode, StateBody(goal)));
      }
      err := SaveCandidate();
      assert Look(disk.now, Package(request.package)) == Look(renamed, Package(request.package));
    }

    lemma RootStands()
      requires Root()
      ensures StateOf(before).Some? && stateInode == before[StateFile].inode
    {}

    /** Replaces state.txt by the candidate state; nothing else changes. */
    method SaveCandidate() returns (err: CupError)
      requires disk.Valid() && Traced() && WellFormed(state) && StateOf(before).Some?
      requires Look(disk.now, StateFile) == Look(before, StateFile) && stateInode == before[StateFile].inode
      requires forall inode: nat :: Shape(disk.now[StateFile := Object(inode, StateBody(state))])
      modifies disk`now, disk`temporaries, disk`log, disk`durable, disk`nextInode
      ensures err != NotInstalled
      ensures disk.Valid() && disk.Grew() && Traced()
      ensures forall name :: name != StateFile ==> Look(disk.now, name) == Look(old(disk.now), name)
      ensures err == Ok ==> disk.Settled() && StateOf(disk.now) == Some(state)
      ensures err != Ok && err != Commit ==> disk.now == old(disk.now)
      ensures err != Ok && err != Commit && |disk.log| > |old(disk.log)| ==> disk.Settled()
      ensures disk.reliable ==> (err == Ok <==> StateFiles.Storable(state, disk.host))
    {
      hide InstallShape, WellFormed;
      var identity;
      err, identity := SaveState(disk, state, stateInode);
    }

    /** Journal, rename, state.txt, clear the journal. */
    method CommitInstall() returns (err: CupError)
      requires Preparing() && stagingCreated && Healthy(valid, disk.now, Staged(staging), request.package)
      modifies this`state, this`packageMoved, this`journalStarted, this`journalInode, this`madeDefault,
               this`defaultMoved, disk`now, disk`temporaries, disk`log, disk`durable, disk`nextInode
      ensures err != NotInstalled
      ensures disk.Valid()
      ensures Traced()
      ensures err != Ok && !(err == Commit && packageMoved) ==> Undoable()
      ensures err != Ok && err != Commit && JournalFile in disk.now ==> journalStarted
      ensures err == Ok ==>
                disk.Settled() && StateOf(disk.now) == Some(goal) && JournalFile !in disk.now
      ensures err != Ok && err != Commit ==> journalStarted || QuietFrom(disk.durable)
      ensures disk.reliable ==> (err == Ok <==> StateFiles.Storable(goal, disk.host))
    {
      hide InstallShape, Consistent, InstallGoal, ScopeIsEmpty, DefaultMoves, ValidIdentity, WellFormed, Quiet, Traced, Root, Healthy, Installed;
      err := BeginInstallCommit();
      if err != Ok {
        return;
      }
      err := MoveIntoPlace();
      if err != Ok {
        return;
      }
      err := RecordInstalled();
      if err != Ok {
        return;
      }
      err := FinishCommit();
    }

    /** After the commit point a failure can only leave work for repair. */
    method FinishCommit() returns (err: CupError)
      requires disk.Valid() && Traced() && disk.Settled() && StateOf(disk.now) == Some(goal)
      requires Look(disk.now, StateFile) != Look(before, StateFile)
      modifies this`journalStarted, disk`now, disk`log, disk`durable
      ensures disk.Valid() && Traced()
      ensures err == Ok || err == Commit
      ensures err == Ok ==> disk.Settled() && StateOf(disk.now) == Some(goal) && JournalFile !in disk.now
      ensures disk.reliable && JournalFile in old(disk.now) && old(disk.now)[JournalFile].inode == journalInode ==>
                err == Ok
    {
      hide InstallShape;
      ShapeClear(valid, before, request.package, goal, disk.now);
      err := disk.ClearJournal(journalInode);
      var cleanupFailed := err != Ok;
      if !cleanupFailed {
        journalStarted := false;
      }
      var failed := disk.Fault();
      if (madeDefault || defaultMoved) && failed {
        return Commit;
      }
      return if cleanupFailed then Commit else Ok;
    }

    /** The package is there already: an update may still move the default onto it. */
    method CommitExistingUpdate() returns (err: CupError)
      requires Loaded() && state == StateOf(before).value && Installed(before, request.package) && disk.now == before
      requires Traced() && packageAlreadyInstalled && !madeDefault && !defaultMoved
      requires QuietFrom(0) && JournalFile !in before
      modifies this`state, this`madeDefault, this`defaultMoved,
               disk`now, disk`temporaries, disk`log, disk`durable, disk`nextInode
      ensures err != NotInstalled
      ensures disk.Valid()
      ensures Traced()
      ensures JournalFile !in disk.now
      ensures err == Ok ==> StateOf(disk.now) == Some(goal) && (goal != StateOf(before).value ==> disk.Settled())
      ensures err != Ok && err != Commit ==> disk.now == before
      ensures err != Ok && err != Commit ==> QuietFrom(disk.durable)
      ensures disk.reliable ==>
                (err == Ok <==> (goal != StateOf(before).value ==> StateFiles.Storable(goal, disk.host)))
    {
      hide InstallShape, Consistent, InstallGoal, ScopeIsEmpty, DefaultMoves, ValidIdentity, WellFormed;
      GoalWhenPresent(StateOf(before).value, request);
      err := PrepareDefaultChange(false);
      if err == Ok && (madeDefault || defaultMoved) {
        err := SaveDefaultChange();
      }
    }

    /** Replaces state.txt alone; nothing in the components tree moves. */
    method SaveDefaultChange() returns (err: CupError)
      requires Loaded() && Traced() && QuietFrom(0)
      requires disk.now == before && JournalFile !in before && Installed(before, request.package)
      requires state == goal && goal != StateOf(before).value
      modifies disk`now, disk`temporaries, disk`log, disk`durable, disk`nextInode
      ensures err != NotInstalled
      ensures disk.Valid() && Traced() && JournalFile !in disk.now
      ensures err == Ok ==> StateOf(disk.now) == Some(goal) && disk.Settled()
      ensures err != Ok && err != Commit ==> disk.now == before
      ensures err != Ok && err != Commit ==> QuietFrom(disk.durable)
      ensures disk.reliable ==> (err == Ok <==> StateFiles.Storable(goal, disk.host))
    {
      hide InstallShape, Consistent, InstallGoal, ValidIdentity, WellFormed, Healthy, Quiet, StateFiles.Storable,
           Traced, Installed;
      QuietSelf(before);
      ConsistentAgrees(valid, before, request.package);
      GoalIsWellFormed(StateOf(before).value, request);
      PresentIsHealthy(valid, before, request.package);
      var failed := disk.Fault();
      if failed {
        return Interrupt;
      }
      forall inode: nat ensures Shape(before[StateFile := Object(inode, StateBody(state))]) {
        ShapeCommit(valid, before, request.package, goal, before, Object(inode, StateBody(state)));
      }
      err := SaveCandidate();
      assert Look(disk.now, JournalFile) == Look(before, JournalFile);
      if err == Ok {
        failed := disk.Fault();
        if failed {
          return Commit;
        }
      }
    }

    /** Takes the package back out of the components tree. */
    method UndoMove() returns (err: CupError)
      requires Undoable()
      modifies this`packageMoved, disk`now, disk`temporaries, disk`log, disk`durable
      ensures disk.Valid() && Loaded()
      ensures Traced()
      ensures Look(disk.now, JournalFile) == Look(old(disk.now), JournalFile)
      ensures err == Ok ==> Undoable() && !packageMoved
      ensures !packageMoved && disk.reliable && !old(packageMoved) ==> err == Ok
      ensures !old(packageMoved) ==>
                disk.log == old(disk.log) && disk.durable == old(disk.durable) && disk.now == old(disk.now)
    {
      hide InstallShape, Consistent, InstallGoal;
      if !packageMoved {
        return Ok;
      }
      ShapeMove(valid, before, request.package, goal, disk.now, staging);
      var commit;
      err, commit := MoveTree(Package(request.package), Staged(staging));
      if err == Ok {
        packageMoved := false;
      }
    }

    method DiscardStaging() returns (err: CupError)
      requires Undoable() && !packageMoved
      modifies disk`now, disk`log
      ensures disk.Valid() && Undoable()
      ensures Traced()
      ensures Look(disk.now, JournalFile) == Look(old(disk.now), JournalFile)
      ensures err == Ok ==> Staged(staging) !in disk.now
      ensures disk.reliable ==> err == Ok
      ensures JournalFile !in old(disk.now) && old(QuietFrom(disk.durable)) ==> QuietFrom(disk.durable)
    {
      hide InstallShape, Consistent, InstallGoal, Shrunk, Quiet;
      ghost var start := disk.now;
      if JournalFile !in start {
        QuietShape(valid, before, request.package, goal, start);
      }
      err := disk.RemoveTree(Staged(staging));
      forall w | Shrunk(start, Staged(staging), w)
        ensures Shape(w) && StagedOnly(start, staging, w) && (Quiet(before, start) ==> Quiet(before, w))
      {
        ShapeStaged(valid, before, request.package, goal, start, staging, w);
        if Quiet(before, start) {
          QuietStaged(before, start, staging, w);
        }
      }
      assert Look(disk.now, StateFile) == Look(start, StateFile);
      assert Look(disk.now, JournalFile) == Look(start, JournalFile);
      assert Look(disk.now, Package(request.package)) == Look(start, Package(request.package));
    }

    /** Restores the old picture while the old state still rules; stops at the first failure and then
        leaves the journal for recovery. */
    method RollbackInstall() returns (err: CupError)
      requires Undoable()
      modifies this`packageMoved, this`journalStarted, this`stagingCreated,
               disk`now, disk`temporaries, disk`log, disk`durable
      ensures disk.Valid() && Loaded()
      ensures Traced()
      ensures err == Ok || err == Rollback
      ensures err == Ok ==> Package(request.package) !in disk.now && Staged(staging) !in disk.now
      ensures err == Ok && JournalFile in disk.now ==> !old(journalStarted) && JournalFile in old(disk.now)
      ensures err == Ok && (old(journalStarted) || (JournalFile !in old(disk.now) && old(QuietFrom(disk.durable)))) ==>
                QuietFrom(disk.durable)
    {
      hide InstallShape, Root, Quiet, Traced, Installed;
      err := UndoMove();
      if err != Ok {
        return Rollback;
      }
      err := DiscardStaging();
      if err != Ok {
        return Rollback;
      }
      stagingCreated := false;
      if journalStarted {
        ghost var start := disk.now;
        err := ForgetJournal();
        assert Look(disk.now, Package(request.package)) == Look(start, Package(request.package));
        assert Look(disk.now, Staged(staging)) == Look(start, Staged(staging));
        if err != Ok {
          return Rollback;
        }
        QuietShape(valid, before, request.package, goal, disk.now);
      }
      return Ok;
    }

    /** The last act of a rollback. */
    method ForgetJournal() returns (err: CupError)
      requires Undoable() && !packageMoved && journalStarted
      modifies this`journalStarted, disk`now, disk`log, disk`durable
      ensures disk.Valid() && Loaded() && Traced()
      ensures forall name :: name != JournalFile ==> Look(disk.now, name) == Look(old(disk.now), name)
      ensures err == Ok ==> JournalFile !in disk.now
      ensures err == Ok ==> disk.Settled()
    {
      hide InstallShape, Consistent, InstallGoal;
      ShapeClear(valid, before, request.package, goal, disk.now);
      err := disk.ClearJournal(journalInode);
      if err == Ok {
        journalStarted := false;
      }
    }

    /** The whole operation. Whatever fails and wherever it is cut, every world it shows stays within
        the transaction. Success means the goal is durable; a plain failure means that nothing
        happened; only Commit and Rollback leave work for recovery. Where nothing fails, it succeeds exactly
        when it can. */
    method Execute(contents: seq<string>) returns (err: CupError)
      requires disk.Valid() && (Admissible(disk.now) ==> Inv(valid, disk.now)) && ValidIdentity(request.package)
      requires !stagingCreated && !packageMoved && !journalStarted && !packageAlreadyInstalled
      requires !madeDefault && !defaultMoved
      modifies this, disk`now, disk`temporaries, disk`log, disk`durable, disk`nextInode
      ensures disk.Valid() && disk.Grew() && before == old(disk.now)
      ensures !Admissible(before) ==> err != Ok && disk.now == before && disk.log == old(disk.log)
      ensures Admissible(before) ==>
                && Consistent(valid, before) && goal == InstallGoal(StateOf(before).value, request)
                && forall k :: |old(disk.log)| <= k < |disk.log| ==>
                     Within(valid, before, request.package, goal, disk.log[k])
      ensures Admissible(before) && Outdated(StateOf(before).value, request) ==>
                err != Ok && disk.now == before && disk.log == old(disk.log)
      ensures SkipsTheOutdated(err)
      ensures Admissible(before) ==>
                forall k :: |old(disk.log)| <= k < |disk.log| ==>
                  && StateOf(disk.log[k]).Some?
                  && (|| StateOf(disk.log[k]) == StateOf(before)
                      || Gains(StateOf(before).value, request, StateOf(disk.log[k]).value))
      ensures err == Ok ==>
                && StateOf(disk.now) == Some(goal) && Consistent(valid, disk.now)
                && Gains(StateOf(before).value, request, StateOf(disk.now).value)
                && (goal != StateOf(before).value ==> disk.Settled())
                && (request.update ==> request.expectedReference.Some?
                                       && ReferenceUnchanged(StateOf(before).value, request))
      ensures Plain(err) ==> NothingHappened(old(disk.log), disk.log, disk.durable)
      ensures disk.reliable && Admissible(before) ==>
                (err == Ok <==> CanInstall(valid, disk.host, StateOf(before).value, request, contents))
    {
      hide InstallGoal, Gains, Inv, Consistent, CanInstall, ReferenceUnchanged, WellFormed, ValidIdentity, InstallShape;
      err := ExecuteShapes(contents);
      if Admissible(before) {
        GoalGains(StateOf(before).value, request);
        forall w | Shape(w)
          ensures Within(valid, before, request.package, goal, w) && OldOrNew(before, goal, w)
        {
          ShapeIsWithin(valid, before, request, w);
          WithinIsOldOrNew(valid, before, request.package, goal, w);
        }
        if JournalFile !in disk.now {
          assert Within(valid, before, request.package, goal, disk.now);
          WithinAndClear(valid, before, request.package, goal, disk.now);
        }
      }
    }

    /** NotInstalled is the answer to an update whose reference is gone, and to nothing else. */
    ghost predicate SkipsTheOutdated(err: CupError)
      reads this`before
    {
      && (err == NotInstalled ==> Admissible(before) && OutdatedAt(before, request))
      && (disk.reliable && Admissible(before) && request.expectedReference.Some? && OutdatedAt(before, request) ==>
            err == NotInstalled)
    }

    /** `prepare_install`: everything up to the fresh staging directory. */
    method PrepareInstall() returns (err: CupError)
      requires disk.Valid() && (Admissible(disk.now) ==> Inv(valid, disk.now)) && ValidIdentity(request.package)
      requires !stagingCreated && !packageMoved && !journalStarted && !packageAlreadyInstalled
      requires !madeDefault && !defaultMoved
      modifies this, disk`now, disk`log, disk`nextInode
      ensures disk.Valid() && before == old(disk.now) && past == old(disk.log) && floor == old(disk.durable)
      ensures !Admissible(before) ==>
                err != Ok && !stagingCreated && disk.now == before && disk.log == old(disk.log)
                && disk.durable == old(disk.durable)
      ensures Admissible(before) ==> Consistent(valid, before) && Traced() && Loaded()
      ensures Admissible(before) ==> QuietFrom(0)
      ensures !stagingCreated ==> disk.now == before
      ensures stagingCreated ==> Preparing() && Staged(staging) in disk.now && IsDirectory(disk.now[Staged(staging)])
                                 && disk.now[Staged(staging)].body.tree.entries == {}
      ensures Admissible(before) && Outdated(StateOf(before).value, request) ==>
                err != Ok && !stagingCreated && disk.now == before && disk.log == old(disk.log)
      ensures SkipsTheOutdated(err)
      ensures err == Ok ==>
                && Admissible(before) && state == StateOf(before).value && !madeDefault && !defaultMoved
                && packageAlreadyInstalled == Installed(before, request.package)
                && stagingCreated == !packageAlreadyInstalled
                && (request.update ==> request.expectedReference.Some?
                                       && ReferenceUnchanged(StateOf(before).value, request))
      ensures disk.reliable && Admissible(before) ==>
                (err == Ok <==> && !Outdated(StateOf(before).value, request)
                                && (Installed(before, request.package) ==> request.update))
    {
      hide InstallShape, Consistent, InstallGoal, ScopeIsEmpty, Healthy, Inv, ReferenceUnchanged, WellFormed,
           ValidIdentity;
      err := AdmitInstall();
      if err == Ok && !packageAlreadyInstalled {
        err := PrepareStaging();
      }
    }

    /** The checks under the lock, before anything is created. */
    method AdmitInstall() returns (err: CupError)
      requires disk.Valid() && (Admissible(disk.now) ==> Inv(valid, disk.now))
      requires ValidIdentity(request.package) && !packageAlreadyInstalled
      modifies this`before, this`goal, this`past, this`floor, this`state, this`stateInode,
               this`scopeWasEmpty, this`packageAlreadyInstalled
      ensures before == disk.now && past == disk.log && floor == disk.durable
      ensures !Admissible(before) ==> err != Ok
      ensures Admissible(before) ==> Consistent(valid, before) && Traced() && Loaded()
      ensures Admissible(before) && Outdated(StateOf(before).value, request) ==> err != Ok
      ensures SkipsTheOutdated(err)
      ensures err == Ok ==>
                && Admissible(before) && state == StateOf(before).value
                && packageAlreadyInstalled == Installed(before, request.package) == (Package(request.package) in before)
                && scopeWasEmpty == ScopeIsEmpty(state, ScopeOf(request.package))
                && (request.update ==> request.expectedReference.Some?
                                       && ReferenceUnchanged(StateOf(before).value, request))
      ensures disk.reliable && Admissible(before) ==>
                (err == Ok <==> && !Outdated(StateOf(before).value, request)
                                && (Installed(before, request.package) ==> request.update))
    {
      hide InstallShape, Consistent, InstallGoal, ScopeIsEmpty, Healthy, Inv, ReferenceUnchanged, WellFormed,
           ValidIdentity;
      err := LoadContext();
      if err != Ok {
        return;
      }
      ConsistentAgrees(valid, before, request.package);
      scopeWasEmpty := ScopeIsEmpty(state, ScopeOf(request.package));
      err := ValidateUpdateReference();
      if err == Ok {
        err := CheckExistingInstall();
      }
    }

    /** A plain failure of a staged install: nothing has happened. */
    ghost predicate Untouched()
      reads this, disk
    {
      && JournalFile !in disk.now && Look(disk.now, StateFile) == Look(before, StateFile)
      && Look(disk.now, Package(request.package)) == Look(before, Package(request.package))
    }

    /** Rolls a failed install back, except a renamed package whose commit is uncertain. */
    method UndoFailure(failure: CupError) returns (err: CupError)
      requires failure != Ok
      requires (failure == Commit && packageMoved) || Undoable()
      requires failure != Commit && JournalFile in disk.now ==> journalStarted
      requires failure != Commit ==> journalStarted || QuietFrom(disk.durable)
      requires disk.Valid() && Traced()
      modifies this`packageMoved, this`journalStarted, this`stagingCreated,
               disk`now, disk`temporaries, disk`log, disk`durable
      ensures disk.Valid() && Traced()
      ensures err == failure || err == Rollback
      ensures err != Commit && err != Rollback ==> Untouched()
      ensures err != Commit && err != Rollback ==> QuietFrom(disk.durable)
    {
      hide InstallShape, Consistent, InstallGoal, Traced, ValidIdentity;
      err := failure;
      if err != Commit || !packageMoved {
        var undone := RollbackInstall();
        if undone != Ok {
          err := Rollback;
        }
      }
    }

    /** Extraction and commit of a prepared install. */
    method FinishInstall(contents: seq<string>) returns (err: CupError)
      requires Preparing() && stagingCreated && Staged(staging) in disk.now && IsDirectory(disk.now[Staged(staging)])
      modifies this`state, this`packageMoved, this`journalStarted, this`journalInode, this`madeDefault,
               this`defaultMoved, this`stagingCreated,
               disk`now, disk`temporaries, disk`log, disk`durable, disk`nextInode
      ensures err != NotInstalled
      ensures disk.Valid() && Traced()
      ensures err == Ok ==> disk.Settled() && StateOf(disk.now) == Some(goal) && JournalFile !in disk.now
      ensures Plain(err) ==> Untouched()
      ensures Plain(err) ==> QuietFrom(disk.durable)
      ensures disk.reliable && old(disk.now)[Staged(staging)].body.tree.entries == {} ==>
                (err == Ok <==> && valid(request.package, set entry | entry in contents)
                                && StateFiles.Storable(goal, disk.host))
    {
      hide InstallShape, Consistent, InstallGoal, ScopeIsEmpty, Healthy, ValidIdentity, WellFormed, Traced;
      err := ExtractPackage(contents);
      if err == Ok {
        err := CommitInstall();
      }
      if err != Ok {
        err := UndoFailure(err);
      }
    }

    method ExecuteShapes(contents: seq<string>) returns (err: CupError)
      requires disk.Valid() && (Admissible(disk.now) ==> Inv(valid, disk.now)) && ValidIdentity(request.package)
      requires !stagingCreated && !packageMoved && !journalStarted && !packageAlreadyInstalled
      requires !madeDefault && !defaultMoved
      modifies this, disk`now, disk`temporaries, disk`log, disk`durable, disk`nextInode
      ensures disk.Valid() && before == old(disk.now) && past == old(disk.log) && floor == old(disk.durable)
      ensures !Admissible(before) ==>
                err != Ok && disk.now == before && disk.log == old(disk.log) && disk.durable == old(disk.durable)
      ensures Admissible(before) ==>
                Consistent(valid, before) && goal == InstallGoal(StateOf(before).value, request)
                && Traced()
      ensures Admissible(before) && Outdated(StateOf(before).value, request) ==>
                err != Ok && disk.now == before && disk.log == old(disk.log)
      ensures SkipsTheOutdated(err)
      ensures err == Ok ==>
                && StateOf(disk.now) == Some(goal) && JournalFile !in disk.now
                && (goal != StateOf(before).value ==> disk.Settled())
                && (request.update ==> request.expectedReference.Some?
                                       && ReferenceUnchanged(StateOf(before).value, request))
      ensures Plain(err) && Admissible(before) ==> Untouched()
      ensures Plain(err) && Admissible(before) ==> QuietFrom(disk.durable)
      ensures disk.reliable && Admissible(before) ==>
                (err == Ok <==> CanInstall(valid, disk.host, StateOf(before).value, request, contents))
    {
      hide InstallShape, Consistent, InstallGoal, ScopeIsEmpty, Healthy, Inv, ReferenceUnchanged, WellFormed,
           ValidIdentity, Quiet, StateFiles.Storable;
      ghost var root := disk.now;
      err := PrepareInstall();
      if Admissible(root) {
        ConsistentAgrees(valid, before, request.package);
        GoalWhenAbsent(StateOf(before).value, request);
      }
      if err == Ok {
        err := PerformInstall(contents);
      } else if stagingCreated {
        err := UndoFailure(err);
      }
    }

    /** A prepared install, of a package already there or of a new one. */
    method PerformInstall(contents: seq<string>) returns (err: CupError)
      requires Loaded() && Traced() && QuietFrom(0) && JournalFile !in before && state == StateOf(before).value
      requires !madeDefault && !defaultMoved && packageAlreadyInstalled == Installed(before, request.package)
      requires packageAlreadyInstalled ==> disk.now == before
      requires !packageAlreadyInstalled ==>
                 && Preparing() && stagingCreated
                 && Staged(staging) in disk.now && IsDirectory(disk.now[Staged(staging)])
                 && disk.now[Staged(staging)].body.tree.entries == {}
      modifies this`state, this`packageMoved, this`journalStarted, this`journalInode, this`madeDefault,
               this`defaultMoved, this`stagingCreated,
               disk`now, disk`temporaries, disk`log, disk`durable, disk`nextInode
      ensures err != NotInstalled
      ensures disk.Valid() && Traced()
      ensures err == Ok ==> && StateOf(disk.now) == Some(goal) && JournalFile !in disk.now
                            && (goal != StateOf(before).value ==> disk.Settled())
      ensures Plain(err) ==> Untouched() && QuietFrom(disk.durable)
      ensures disk.reliable ==>
                (err == Ok <==>
                   && (Installed(before, request.package) || valid(request.package, set entry | entry in contents))
                   && (goal != StateOf(before).value ==> StateFiles.Storable(goal, disk.host)))
    {
      hide InstallShape, Consistent, InstallGoal, ScopeIsEmpty, Healthy, WellFormed, ValidIdentity, Quiet,
           StateFiles.Storable;
      GoalWhenAbsent(StateOf(before).value, request);
      if packageAlreadyInstalled {
        err := CommitExistingUpdate();
      } else {
        err := FinishInstall(contents);
      }
    }
  }

  lemma ConsistentAgrees(valid: Validator, w: World, id: Identity)
    requires Consistent(valid, w)
    ensures StateOf(w).Some? && WellFormed(StateOf(w).value) && JournalFile !in w
    ensures Installed(w, id) <==> Package(id) in w
  {
    assert Agrees(valid, w, id);
  }

  lemma PresentIsHealthy(valid: Validator, w: World, id: Identity)
    requires Consistent(valid, w) && Installed(w, id)
    ensures Healthy(valid, w, Package(id), id)
  {
    assert Agrees(valid, w, id);
  }

  lemma WithinAndClearIf(valid: Validator, before: World, id: Identity, goal: Doc, w: World)
    requires Within(valid, before, id, goal, w)
    ensures JournalFile !in w ==> Consistent(valid, w)
  {}

  lemma WithinAndClear(valid: Validator, before: World, id: Identity, goal: Doc, w: World)
    requires Within(valid, before, id, goal, w) && JournalFile !in w
    ensures Consistent(valid, w)
    ensures StateOf(w) == StateOf(before) ==> forall q :: Look(w, Package(q)) == Look(before, Package(q))
  {}
}
