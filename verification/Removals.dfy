/** Removing one package: journal, rename into staging, state.txt, deletion; and the rollback that puts
    the package back while the old state is still the authority. */
module Removals {
  import opened Text
  import opened Domain
  import opened States
  import opened Disks
  import opened Recovery
  import opened Installs
  import StateFiles

  /** The state a completed removal leaves: no package, and no default that named it. */
  function RemoveGoal(d: Doc, id: Identity): Doc {
    WithoutInstalled(WithoutMatchingDefault(d, id), id)
  }

  /** What becomes of a state from which one package is removed: it is recorded no more, and every scope
      keeps the default it had unless that was the package. */
  ghost predicate Forgets(before: Doc, id: Identity, after: Doc) {
    && (forall q :: q in after.installed <==> q in before.installed && q != id)
    && (forall s :: s in after.defaults <==> s in before.defaults && before.defaults[s] != id)
    && (forall s :: s in after.defaults ==> after.defaults[s] == before.defaults[s])
  }

  lemma RemoveGoalForgets(d: Doc, id: Identity)
    requires WellFormed(d)
    ensures Forgets(d, id, RemoveGoal(d, id))
  {
    hide ValidIdentity;
  }

  lemma RemoveGoalIsWellFormed(d: Doc, id: Identity)
    requires WellFormed(d)
    ensures WellFormed(RemoveGoal(d, id)) && id !in RemoveGoal(d, id).installed
  {}

  /** A state that could be stored can be stored without a package. */
  lemma RemoveGoalIsStorable(d: Doc, id: Identity, host: string)
    requires StateFiles.Storable(d, host)
    ensures StateFiles.Storable(RemoveGoal(d, id), host)
  {
    var goal := RemoveGoal(d, id);
    RemoveGoalIsWellFormed(d, id);
    forall x | x in goal.defaults.Values ensures x in d.defaults.Values {
      var s :| s in goal.defaults && goal.defaults[s] == x;
      assert d.defaults[s] == x;
    }
    StateFiles.StorableShrinks(d, goal, host);
  }

  /** What a removal asks of the disk it starts from: no pending transaction, a valid state that records
      the package, and something at its path, valid or not. */
  ghost predicate Removable(before: World, id: Identity) {
    && JournalFile !in before && StateOf(before).Some? && WellFormed(StateOf(before).value)
    && Installed(before, id) && Package(id) in before
  }

  /** Special files cannot be renamed into staging. */
  predicate Movable(o: Object) { IsDirectory(o) || IsRegular(o) }

  /** The old state still rules. */
  predicate Uncommitted(before: World, w: World) {
    Look(w, StateFile) == Look(before, StateFile)
  }

  /** The worlds of a removal, described by what is on the disk. */
  ghost predicate RemoveShape(before: World, id: Identity, goal: Doc, w: World) {
    && (forall q :: q != id ==> Look(w, Package(q)) == Look(before, Package(q)))
    && (JournalFile in w ==> Names(w, id))
    && if Uncommitted(before, w)
       then
         if JournalFile !in w then Look(w, Package(id)) == Look(before, Package(id))
         else InPlaceOrStaged(before, id, w)
       else StateOf(w) == Some(goal) && Package(id) !in w
  }

  lemma ShapeHasState(before: World, id: Identity, goal: Doc, w: World)
    requires RemoveShape(before, id, goal, w)
    ensures StateOf(w) == StateOf(before) || StateOf(w) == Some(goal)
  {}

  /** The one copy of the package is at its path or in the staging the journal names. */
  ghost predicate InPlaceOrStaged(before: World, id: Identity, w: World)
    requires Names(w, id)
  {
    var staged := Staged(JournalOf(w).value.temporary);
    || (Look(w, Package(id)) == Look(before, Package(id)) && staged !in w)
    || (Package(id) !in w && Look(w, staged) == Look(before, Package(id)))
  }

  /** The rename has been made, and only the journal tells where the package is. */
  predicate MidRemoval(before: World, id: Identity, w: World) {
    Uncommitted(before, w) && Names(w, id) && Package(id) !in w
  }

  lemma RemoveShapeIsWithin(valid: Validator, before: World, id: Identity, w: World)
    requires Consistent(valid, before) && Installed(before, id)
    requires RemoveShape(before, id, RemoveGoal(StateOf(before).value, id), w)
    ensures Within(valid, before, id, RemoveGoal(StateOf(before).value, id), w)
  {
    var d := StateOf(before).value;
    RemoveGoalIsWellFormed(d, id);
    if Look(w, StateFile) == Look(before, StateFile) {
      assert StateOf(w) == StateOf(before);
    }
    forall q | !Names(w, q) ensures Agrees(valid, w, q) {
      assert Agrees(valid, before, q);
      assert q != id ==> Look(w, Package(q)) == Look(before, Package(q));
    }
    assert Agrees(valid, before, id);
  }

  /** Exactly which cuts of a removal recovery can follow: while the journal stands beside the old state,
      those of a package that was valid; at every other point, all. */
  ghost predicate RecoverableIfValid(valid: Validator, before: World, id: Identity, w: World) {
    if JournalFile in w && Uncommitted(before, w) then
      Recoverable(valid, w) <==> Healthy(valid, before, Package(id), id)
    else
      Recoverable(valid, w)
  }

  lemma ShapeRecoverableIff(valid: Validator, before: World, id: Identity, w: World)
    requires Removable(before, id) && RemoveShape(before, id, RemoveGoal(StateOf(before).value, id), w)
    ensures RecoverableIfValid(valid, before, id, w)
  {
    RemoveGoalIsWellFormed(StateOf(before).value, id);
    hide WellFormed;
    if Uncommitted(before, w) {
      assert StateOf(w) == StateOf(before);
    }
  }

  lemma RemovePublish(before: World, id: Identity, goal: Doc, w: World, o: Object)
    requires RemoveShape(before, id, goal, w) && Uncommitted(before, w)
    requires Look(w, Package(id)) == Look(before, Package(id))
    requires o.body.JournalBody? && o.body.journal.package == id && Staged(o.body.journal.temporary) !in w
    ensures var after := w[JournalFile := o];
            && RemoveShape(before, id, goal, after)
            && forall name :: name != JournalFile ==> Look(after, name) == Look(w, name)
  {
    var after := w[JournalFile := o];
    assert forall q :: Look(after, Package(q)) == Look(w, Package(q));
  }

  /** The rename out of the components tree and the rename back, with the journal standing. */
  lemma RemoveMove(before: World, id: Identity, goal: Doc, w: World, n: nat)
    requires RemoveShape(before, id, goal, w) && Uncommitted(before, w)
    requires JournalOf(w).Some? && JournalOf(w).value.temporary == n
    ensures Package(id) in w ==>
              var after := Renamed(w, Package(id), Staged(n), w[Package(id)]);
              && RemoveShape(before, id, goal, after)
              && Look(after, StateFile) == Look(w, StateFile) && Look(after, JournalFile) == Look(w, JournalFile)
              && Package(id) !in after && Look(after, Staged(n)) == Look(w, Package(id))
    ensures Staged(n) in w && Package(id) !in w ==>
              var after := Renamed(w, Staged(n), Package(id), w[Staged(n)]);
              && RemoveShape(before, id, goal, after)
              && Look(after, StateFile) == Look(w, StateFile) && Look(after, JournalFile) == Look(w, JournalFile)
              && Look(after, Package(id)) == Look(before, Package(id)) && Staged(n) !in after
  {
    if Package(id) in w {
      var after := Renamed(w, Package(id), Staged(n), w[Package(id)]);
      assert forall q :: q != id ==> Look(after, Package(q)) == Look(w, Package(q));
      assert Look(w, Package(id)) == Look(before, Package(id));
    }
    if Staged(n) in w {
      var after := Renamed(w, Staged(n), Package(id), w[Staged(n)]);
      assert forall q :: q != id ==> Look(after, Package(q)) == Look(w, Package(q));
    }
  }

  lemma RemoveCommit(before: World, id: Identity, goal: Doc, w: World, o: Object)
    requires RemoveShape(before, id, goal, w) && Package(id) !in w
    requires o.body == StateBody(goal) && Some(o) != Look(before, StateFile)
    ensures var after := w[StateFile := o];
            && RemoveShape(before, id, goal, after) && StateOf(after) == Some(goal)
            && forall name :: name != StateFile ==> Look(after, name) == Look(w, name)
  {
    var after := w[StateFile := o];
    assert forall q :: Look(after, Package(q)) == Look(w, Package(q));
  }

  lemma RemoveDelete(before: World, id: Identity, goal: Doc, w: World, n: nat, after: World)
    requires RemoveShape(before, id, goal, w) && !Uncommitted(before, w)
    requires Shrunk(w, Staged(n), after)
    ensures RemoveShape(before, id, goal, after) && StagedOnly(w, n, after)
  {
    assert StagedOnly(w, n, after);
    assert forall q :: Look(after, Package(q)) == Look(w, Package(q));
    assert Look(after, StateFile) == Look(w, StateFile) && Look(after, JournalFile) == Look(w, JournalFile);
  }

  lemma RemoveClear(before: World, id: Identity, goal: Doc, w: World)
    requires RemoveShape(before, id, goal, w)
    requires Uncommitted(before, w) ==> Look(w, Package(id)) == Look(before, Package(id))
    ensures var after := w - {JournalFile};
            && RemoveShape(before, id, goal, after)
            && forall name :: name != JournalFile ==> Look(after, name) == Look(w, name)
  {
    var after := w - {JournalFile};
    assert forall q :: Look(after, Package(q)) == Look(w, Package(q));
  }

  lemma RemoveQuiet(before: World, id: Identity, goal: Doc, w: World)
    requires RemoveShape(before, id, goal, w) && Uncommitted(before, w) && JournalFile !in w
    ensures Quiet(before, w)
  {}

  lemma QuietIsClear(before: World, w: World)
    ensures Quiet(before, w) ==> JournalFile !in w
  {}

  /** One removal, with everything it has learned and done so far. */
  class RemoveOperation {
    const disk: Disk
    const valid: Validator
    const package: Identity
    ghost var before: World
    ghost var goal: Doc
    ghost var past: seq<World>
    ghost var floor: nat
    var state: Doc
    var stateInode: nat
    var staging: nat
    var packageMoved: bool
    var journalStarted: bool
    var journalInode: nat

    constructor (disk: Disk, valid: Validator, package: Identity)
      ensures this.disk == disk && this.valid == valid && this.package == package
      ensures !packageMoved && !journalStarted
    {
      this.disk, this.valid, this.package := disk, valid, package;
      before, goal, past, floor := map[], Doc({}, map[]), [], 0;
      state, stateInode, staging, journalInode := Doc({}, map[]), 0, 0, 0;
      packageMoved, journalStarted := false, false;
    }

    ghost predicate Shape(w: World)
      reads this`before, this`goal
    {
      RemoveShape(before, package, goal, w)
    }

    /** The log still begins with the past, and every world shown since admission has the shape. */
    ghost predicate Traced()
      reads this`before, this`goal, this`past, this`floor, disk`now, disk`log, disk`durable
    {
      && |past| <= |disk.log| && floor <= disk.durable
      && (forall k :: 0 <= k < |past| ==> disk.log[k] == past[k])
      && (forall k :: |past| <= k < |disk.log| ==> Shape(disk.log[k]))
      && Shape(disk.now)
    }

    /** Every world shown since admission that a power loss can bring back is quiet. */
    ghost predicate QuietTail()
      reads this`before, this`past, disk`log, disk`durable
    {
      forall k :: |past| <= k < |disk.log| && disk.durable <= k ==> Quiet(before, disk.log[k])
    }

    /** What was loaded under the lock: a root the package can be removed from, and the goal. */
    ghost predicate Root()
      reads this`before, this`goal, this`stateInode
    {
      && Removable(before, package) && goal == RemoveGoal(StateOf(before).value, package)
      && stateInode == before[StateFile].inode
    }

    /** The root is loaded, and its state file is still in place. */
    ghost predicate Loaded()
      reads this`before, this`goal, this`past, this`floor, this`stateInode, disk`now, disk`log, disk`durable
    {
      disk.Valid() && Root() && Traced() && Uncommitted(before, disk.now)
    }

    lemma RootIsQuiet()
      requires Root()
      ensures Quiet(before, before) && JournalFile !in before
    {}

    lemma RootStands()
      requires Root()
      ensures StateOf(before).Some? && WellFormed(StateOf(before).value) && Package(package) in before
      ensures StateFile in before && stateInode == before[StateFile].inode
      ensures goal == RemoveGoal(StateOf(before).value, package) && WellFormed(goal) && Some(goal) != StateOf(before)
    {
      RemoveGoalIsWellFormed(StateOf(before).value, package);
    }

    /** The old state still rules, and the flags say what has to be undone. */
    ghost predicate Undoable()
      reads this, disk
    {
      && Loaded()
      && (packageMoved ==> journalStarted && Package(package) !in disk.now
                           && Look(disk.now, Staged(staging)) == Look(before, Package(package)))
      && (!packageMoved ==> Look(disk.now, Package(package)) == Look(before, Package(package))
                            && Staged(staging) !in disk.now)
      && (journalStarted ==> Names(disk.now, package) && JournalOf(disk.now).value.temporary == staging
                             && disk.now[JournalFile].inode == journalInode)
    }

    /** Locked admission: no pending journal, a valid state document, and the package in state and on
        disk; its validity is not asked for. */
    method Admit() returns (err: CupError)
      requires disk.Valid()
      modifies this`before, this`goal, this`past, this`floor, this`state, this`stateInode
      ensures before == disk.now && past == disk.log && floor == disk.durable
      ensures Removable(before, package) ==> Loaded() && disk.log == past
      ensures err == Ok ==> Removable(before, package) && state == StateOf(before).value
      ensures err != Commit
      ensures disk.reliable ==> (err == Ok <==> Removable(before, package))
    {
      before, past, floor := disk.now, disk.log, disk.durable;
      if JournalFile in disk.now {
        return TransactionError;
      }
      var failed := disk.Fault();
      var loaded := StateOf(disk.now);
      if loaded.Some? {
        goal := RemoveGoal(loaded.value, package);
        stateInode := disk.now[StateFile].inode;
      }
      if failed || loaded.None? || !WellFormed(loaded.value) {
        return InconsistentState;
      }
      state := loaded.value;
      err := RequirePresent();
    }

    method RequirePresent() returns (err: CupError)
      ensures err == Ok ==> package in state.installed && Package(package) in disk.now
      ensures err != Commit
      ensures disk.reliable ==> (err == Ok <==> package in state.installed && Package(package) in disk.now)
    {
      var failed := disk.Fault();
      if failed {
        return Filesystem;
      }
      var inState, onDisk := package in state.installed, Package(package) in disk.now;
      return if inState && onDisk then Ok else if inState || onDisk then InconsistentState else NotInstalled;
    }

    /** Admission and the journal. */
    method PrepareRemove() returns (err: CupError)
      requires disk.Valid() && !packageMoved && !journalStarted
      modifies this`before, this`goal, this`past, this`floor, this`state, this`stateInode, this`staging,
               this`journalStarted, this`journalInode,
               disk`now, disk`temporaries, disk`log, disk`durable, disk`nextInode
      ensures disk.Valid() && before == old(disk.now) && past == old(disk.log) && floor == old(disk.durable)
      ensures !Removable(before, package) ==>
                err != Ok && disk.now == before && disk.log == past && disk.durable == floor
      ensures Removable(before, package) ==> goal == RemoveGoal(StateOf(before).value, package) && Traced()
      ensures err == Ok ==> Undoable() && journalStarted && state == StateOf(before).value
      ensures err != Ok && err != Commit && Removable(before, package) ==> Quiet(before, disk.now) && QuietTail()
      ensures disk.reliable ==> (err == Ok <==> Removable(before, package))
    {
      hide RemoveGoal, RemoveShape, WellFormed;
      err := Admit();
      if Removable(before, package) {
        QuietSelf(before);
      }
      if err != Ok {
        return;
      }
      FreshNames(disk.now);
      var name: nat :| Staged(name) !in disk.now;
      staging := name;
      var failed := disk.Fault();
      if failed {
        return Interrupt;
      }
      err := BeginRemove();
    }

    method BeginRemove() returns (err: CupError)
      requires Undoable() && !packageMoved && !journalStarted && disk.log == past && disk.now == before
      modifies this`journalStarted, this`journalInode,
               disk`now, disk`temporaries, disk`log, disk`durable, disk`nextInode
      ensures disk.Valid() && Traced()
      ensures err == Ok ==> Undoable() && journalStarted
      ensures err != Ok && err != Commit ==> Quiet(before, disk.now) && QuietTail()
      ensures disk.reliable ==> err == Ok
    {
      hide RemoveShape, Root, Quiet;
      RootIsQuiet();
      ghost var start := disk.now;
      forall inode: nat
        ensures Shape(start[JournalFile := Object(inode, JournalBody(Journal(Remove, package, staging)))])
      {
        RemovePublish(before, package, goal, start, Object(inode, JournalBody(Journal(Remove, package, staging))));
      }
      var identity;
      err, identity := disk.PublishJournal(Journal(Remove, package, staging));
      if err == Ok {
        journalInode := identity.value;
        journalStarted := true;
      }
    }

    /** A rename that keeps the shape. */
    method MoveTree(source: Name, destination: Name) returns (err: CupError, commit: CommitState)
      requires disk.Valid() && Traced() && !source.Temporary? && !destination.Temporary? && source != destination
      requires source in disk.now ==> Shape(Renamed(disk.now, source, destination, disk.now[source]))
      modifies disk`now, disk`temporaries, disk`log, disk`durable
      ensures disk.Valid() && Traced()
      ensures err == Ok <==> commit == Durable
      ensures commit == NotApplied ==> err != Commit && disk.now == old(disk.now)
      ensures err == Ok ==>
                && source in old(disk.now) && |disk.log| > |old(disk.log)|
                && disk.now == Renamed(old(disk.now), source, destination, old(disk.now)[source])
      ensures disk.reliable ==>
                (err == Ok <==>
                   MayMove(Look(old(disk.now), source), Look(old(disk.now), destination), false, None, None))
    {
      hide RemoveShape, Renamed, MayMove;
      err, commit := disk.MovePath(source, destination);
    }

    /** The canonical package is renamed into staging, unless it is a special file. */
    method StageRemoval() returns (err: CupError)
      requires Undoable() && !packageMoved && journalStarted
      modifies this`packageMoved, disk`now, disk`temporaries, disk`log, disk`durable
      ensures disk.Valid() && Traced()
      ensures err != Commit ==> Undoable()
      ensures err == Ok ==> packageMoved && |disk.log| > |past|
      ensures disk.reliable ==> Package(package) in before && (err == Ok <==> Movable(before[Package(package)]))
    {
      hide RemoveShape, Root, Renamed;
      RootStands();
      var failed := disk.Fault();
      if failed {
        return Interrupt;
      }
      RemoveMove(before, package, goal, disk.now, staging);
      var commit;
      err, commit := MoveTree(Package(package), Staged(staging));
      if err == Ok {
        packageMoved := true;
      } else if commit == Applied {
        packageMoved := true;
        return Commit;
      }
    }

    /** The candidate state replaces state.txt: the commit point of the removal. */
    method RecordRemoval() returns (err: CupError, wrappersReady: bool)
      requires Undoable() && packageMoved && state == StateOf(before).value
      modifies this`state, disk`now, disk`temporaries, disk`log, disk`durable, disk`nextInode
      ensures disk.Valid() && disk.Grew() && Traced()
      ensures err != Ok && err != Commit ==> Undoable()
      ensures err == Ok ==> disk.Settled() && Committed()
      ensures Look(disk.now, JournalFile) == Look(old(disk.now), JournalFile)
      ensures disk.reliable ==> (err == Ok <==> StateFiles.Storable(goal, disk.host))
    {
      hide RemoveShape, Root, WellFormed, StateFiles.Storable, Names, Removable;
      RootStands();
      wrappersReady := ScopeOf(package) in state.defaults && state.defaults[ScopeOf(package)] == package;
      state := WithoutMatchingDefault(state, package);
      state := WithoutInstalled(state, package);
      var failed := disk.Fault();
      if wrappersReady && failed {
        return InconsistentState, wrappersReady;
      }
      ghost var start := disk.now;
      forall inode: nat ensures Shape(start[StateFile := Object(inode, StateBody(goal))]) {
        RemoveCommit(before, package, goal, start, Object(inode, StateBody(goal)));
      }
      var identity;
      err, identity := SaveState(disk, state, stateInode);
    }

    /** The new state rules. */
    ghost predicate Committed()
      reads this, disk
    {
      disk.Valid() && Traced() && StateOf(disk.now) == Some(goal) && !Uncommitted(before, disk.now)
    }

    /** Nothing of the package or of the transaction is left. */
    ghost predicate Finished()
      reads this, disk
    {
      Committed() && disk.Settled() && JournalFile !in disk.now && Staged(staging) !in disk.now
    }

    /** The staged package is deleted, as far as that goes. */
    method DeleteStaged() returns (err: CupError)
      requires Committed()
      modifies disk`now, disk`log
      ensures Committed() && disk.Grew()
      ensures Look(disk.now, JournalFile) == Look(old(disk.now), JournalFile)
      ensures err == Ok ==> Staged(staging) !in disk.now
      ensures disk.reliable ==> err == Ok
    {
      hide RemoveShape, Shrunk, StagedOnly;
      ghost var start := disk.now;
      err := disk.RemoveTree(Staged(staging));
      forall w | Shrunk(start, Staged(staging), w) ensures Shape(w) && StagedOnly(start, staging, w) {
        RemoveDelete(before, package, goal, start, staging, w);
      }
      if disk.now != start {
        UnstagedSame(start, staging, disk.now);
      }
    }

    /** The journal is cleared where that keeps the shape. */
    method ForgetJournal() returns (err: CupError)
      requires disk.Valid() && Traced() && Shape(disk.now - {JournalFile})
      modifies this`journalStarted, disk`now, disk`log, disk`durable
      ensures disk.Valid() && disk.Grew() && Traced()
      ensures forall name :: name != JournalFile ==> Look(disk.now, name) == Look(old(disk.now), name)
      ensures err == Ok ==> disk.Settled() && JournalFile !in disk.now
      ensures disk.reliable && JournalFile in old(disk.now) && old(disk.now)[JournalFile].inode == journalInode ==>
                err == Ok
    {
      hide RemoveShape;
      err := disk.ClearJournal(journalInode);
      if err == Ok {
        journalStarted := false;
      }
    }

    /** After the commit point: deletion and journal are cleanup, and the journal goes even when the
        deletion did not finish. */
    method FinishRemoval(wrappersReady: bool) returns (err: CupError)
      requires Committed()
      modifies this`journalStarted, disk`now, disk`log, disk`durable
      ensures disk.Valid() && disk.Grew() && Traced()
      ensures err == Ok || err == Commit
      ensures err == Ok ==> Finished()
      ensures disk.reliable && JournalFile in old(disk.now) && old(disk.now)[JournalFile].inode == journalInode ==>
                err == Ok
    {
      hide RemoveShape;
      err := DeleteStaged();
      var cleanupFailed := err != Ok;
      ghost var middle := disk.now;
      RemoveClear(before, package, goal, middle);
      err := ForgetJournal();
      if err != Ok {
        cleanupFailed := true;
      }
      assert Look(disk.now, StateFile) == Look(middle, StateFile);
      assert Look(disk.now, Staged(staging)) == Look(middle, Staged(staging));
      var failed := disk.Fault();
      if wrappersReady && failed {
        return Commit;
      }
      return if cleanupFailed then Commit else Ok;
    }

    method CommitRemoval() returns (err: CupError)
      requires Undoable() && packageMoved && state == StateOf(before).value
      modifies this`state, this`journalStarted, disk`now, disk`temporaries, disk`log, disk`durable, disk`nextInode
      ensures disk.Valid() && disk.Grew() && Traced()
      ensures err != Ok && err != Commit ==> Undoable() && journalStarted
      ensures err == Ok ==> Finished()
      ensures disk.reliable ==> (err == Ok <==> StateFiles.Storable(goal, disk.host))
    {
      hide RemoveShape, Root, StateFiles.Storable;
      var wrappersReady;
      err, wrappersReady := RecordRemoval();
      if err == Ok {
        err := FinishRemoval(wrappersReady);
      }
    }

    /** Puts the staged package back, then forgets the journal. */
    method RollbackRemoval() returns (err: CupError)
      requires Undoable() && journalStarted
      modifies this`packageMoved, this`journalStarted, disk`now, disk`temporaries, disk`log, disk`durable
      ensures disk.Valid() && Traced()
      ensures err == Ok || err == Rollback
      ensures err == Ok ==> Quiet(before, disk.now) && disk.Settled()
    {
      hide RemoveShape, Root, Quiet;
      err := UndoStaging();
      if err != Ok {
        return Rollback;
      }
      RemoveClear(before, package, goal, disk.now);
      ghost var start := disk.now;
      err := ForgetJournal();
      assert Look(disk.now, StateFile) == Look(start, StateFile);
      if err != Ok {
        return Rollback;
      }
      RemoveQuiet(before, package, goal, disk.now);
    }

    method UndoStaging() returns (err: CupError)
      requires Undoable() && journalStarted
      modifies this`packageMoved, disk`now, disk`temporaries, disk`log, disk`durable
      ensures disk.Valid() && Traced()
      ensures err == Ok ==> Undoable() && !packageMoved
    {
      hide RemoveShape, Root, Renamed;
      if !packageMoved {
        return Ok;
      }
      RemoveMove(before, package, goal, disk.now, staging);
      var commit;
      err, commit := MoveTree(Staged(staging), Package(package));
      if err == Ok {
        packageMoved := false;
      }
    }

    /** Stages and commits; any failure that is not an uncertain commit is rolled back. */
    method StageAndCommit() returns (err: CupError)
      requires Undoable() && !packageMoved && journalStarted && state == StateOf(before).value
      modifies this`state, this`packageMoved, this`journalStarted,
               disk`now, disk`temporaries, disk`log, disk`durable, disk`nextInode
      ensures disk.Valid() && Traced()
      ensures err == Ok ==> Finished() && WasMidway()
      ensures Plain(err) ==> Quiet(before, disk.now) && QuietTail()
      ensures disk.reliable ==>
                (err == Ok <==> Movable(before[Package(package)]) && StateFiles.Storable(goal, disk.host))
    {
      hide RemoveShape, Root, StateFiles.Storable, Quiet, Traced, JournalOf, Names;
      err := StageRemoval();
      if err == Ok {
        ghost var midway := |disk.log| - 1;
        err := CommitRemoval();
        assert err == Ok ==> MidRemoval(before, package, disk.log[midway]);
      }
      if err != Ok && err != Commit {
        var undone := RollbackRemoval();
        if undone != Ok {
          err := Rollback;
        }
      }
    }

    /** Some world shown since admission had the package in staging and the old state in place. */
    ghost predicate WasMidway()
      reads this, disk
    {
      exists k :: |past| <= k < |disk.log| && MidRemoval(before, package, disk.log[k])
    }

    method ExecuteShapes() returns (err: CupError)
      requires disk.Valid() && !packageMoved && !journalStarted
      modifies this, disk`now, disk`temporaries, disk`log, disk`durable, disk`nextInode
      ensures disk.Valid() && before == old(disk.now) && past == old(disk.log) && floor == old(disk.durable)
      ensures !Removable(before, package) ==>
                err != Ok && disk.now == before && disk.log == past && disk.durable == floor
      ensures Removable(before, package) ==> goal == RemoveGoal(StateOf(before).value, package) && Traced()
      ensures err == Ok ==> Finished() && WasMidway()
      ensures Plain(err) && Removable(before, package) ==>
                Quiet(before, disk.now) && QuietTail()
      ensures disk.reliable ==>
                (err == Ok <==> && Removable(before, package) && Movable(before[Package(package)])
                                && StateFiles.Storable(goal, disk.host))
    {
      hide RemoveShape, RemoveGoal, WellFormed, StateFiles.Storable, Quiet, Removable;
      err := PrepareRemove();
      if err == Ok {
        err := StageAndCommit();
      }
    }

    /** The whole operation, on any disk. A removal that cannot begin touches nothing. Otherwise every
        world it shows has the shape of this removal, from which it follows which cuts recovery can
        follow. Success means that the package is durably gone from state and disk; after a plain
        failure nothing has happened, not even for a power loss to bring back. Where nothing fails, it
        succeeds exactly when it can begin, the package can be renamed and the new state be stored. */
    method Execute() returns (err: CupError)
      requires disk.Valid() && !packageMoved && !journalStarted
      modifies this, disk`now, disk`temporaries, disk`log, disk`durable, disk`nextInode
      ensures disk.Valid() && disk.Grew() && before == old(disk.now)
      ensures !Removable(before, package) ==> err != Ok && disk.now == before && disk.log == old(disk.log)
      ensures Removable(before, package) ==>
                && goal == RemoveGoal(StateOf(before).value, package)
                && forall k :: |old(disk.log)| <= k < |disk.log| ==>
                     && RemoveShape(before, package, goal, disk.log[k])
                     && RecoverableIfValid(valid, before, package, disk.log[k])
      ensures Consistent(valid, before) && Removable(before, package) ==>
                forall k :: |old(disk.log)| <= k < |disk.log| ==>
                  Within(valid, before, package, goal, disk.log[k])
      ensures err == Ok ==>
                && disk.Settled() && StateOf(disk.now) == Some(goal) && JournalFile !in disk.now
                && Package(package) !in disk.now && Staged(staging) !in disk.now
                && (Consistent(valid, before) ==> Consistent(valid, disk.now))
      ensures err == Ok ==> Forgets(StateOf(before).value, package, StateOf(disk.now).value)
      ensures Removable(before, package) ==>
                forall k :: |old(disk.log)| <= k < |disk.log| ==>
                  || StateOf(disk.log[k]) == StateOf(before)
                  || (StateOf(disk.log[k]).Some?
                      && Forgets(StateOf(before).value, package, StateOf(disk.log[k]).value))
      ensures err == Ok ==>
                exists k :: |old(disk.log)| <= k < |disk.log| && MidRemoval(before, package, disk.log[k])
      ensures Plain(err) ==> NothingHappened(old(disk.log), disk.log, disk.durable)
      ensures disk.reliable ==>
                (err == Ok <==> && Removable(before, package) && Movable(before[Package(package)])
                                && StateFiles.Storable(RemoveGoal(StateOf(before).value, package), disk.host))
    {
      hide StateFiles.Storable, Quiet, WellFormed, Consistent, Within, RecoverableIfValid, RemoveGoal, Forgets;
      err := ExecuteShapes();
      QuietIsClear(before, disk.now);
      if Removable(before, package) {
        RemoveGoalForgets(StateOf(before).value, package);
        forall w | Shape(w) ensures StateOf(w) == StateOf(before) || StateOf(w) == Some(goal) {
          ShapeHasState(before, package, goal, w);
        }
        forall w | Shape(w) ensures RecoverableIfValid(valid, before, package, w) {
          ShapeRecoverableIff(valid, before, package, w);
        }
        if Consistent(valid, before) {
          forall w | Shape(w)
            ensures Within(valid, before, package, goal, w) && (JournalFile !in w ==> Consistent(valid, w))
          {
            RemoveShapeIsWithin(valid, before, package, w);
            WithinAndClearIf(valid, before, package, goal, w);
          }
        }
      }
    }
  }

  // ---- Which release a request without one means ----

  predicate IsCandidate(id: Identity, s: Scope, tool: string) {
    ScopeOf(id) == s && id.tool == tool
  }

  /** `resolve_unique_installed_release`: the one installed release of a tool, or a refusal to guess. */
  method ResolveUniqueInstalledRelease(state: CupState, s: Scope, tool: string)
    returns (err: CupError, release: string)
    requires state.Valid()
    ensures err in {Ok, NotInstalled, InvalidInput}
    ensures err == NotInstalled <==> forall id :: id in state.installed ==> !IsCandidate(id, s, tool)
    ensures err == InvalidInput <==>
              exists a, b :: a in state.installed && b in state.installed && a != b
                             && IsCandidate(a, s, tool) && IsCandidate(b, s, tool)
    ensures err == Ok ==> exists id :: id in state.installed && IsCandidate(id, s, tool) && id.version == release
  {
    hide ValidIdentity, IsCandidate, DefaultMap;
    release := "";
    var found: Option<Identity> := None;
    var count := 0;
    for i := 0 to |state.installed|
      invariant count == 0 <==> forall k :: 0 <= k < i ==> !IsCandidate(state.installed[k], s, tool)
      invariant count == 0 <==> found.None?
      invariant found.Some? ==> found.value in state.installed[..i] && IsCandidate(found.value, s, tool)
      invariant count == 1 ==>
                  forall k :: 0 <= k < i && IsCandidate(state.installed[k], s, tool)
                              ==> state.installed[k] == found.value
      invariant count > 1 ==> exists a, b :: 0 <= a < b < i && IsCandidate(state.installed[a], s, tool)
                                             && IsCandidate(state.installed[b], s, tool)
    {
      var id := state.installed[i];
      assert state.installed[..i + 1] == state.installed[..i] + [id];
      CandidateIf(id, s, tool);
      if id.component == s.component && id.tool == tool && id.host == s.host && id.target == s.target {
        found, count := Some(id), count + 1;
      }
    }
    assert state.installed[..|state.installed|] == state.installed;
    if count == 0 {
      return NotInstalled, "";
    }
    if count > 1 {
      return InvalidInput, "";
    }
    return Ok, found.value.version;
  }

  lemma CandidateIf(id: Identity, s: Scope, tool: string)
    ensures IsCandidate(id, s, tool) <==>
              id.component == s.component && id.tool == tool && id.host == s.host && id.target == s.target
  {}
}
