/** The part of repair that writes packages and state: recovery, a scan, the reconciled state computed
    before anything is touched, invalid packages moved aside, and the new state saved. */
module RepairCommands {
  import opened Text
  import opened Domain
  import opened States
  import opened Disks
  import opened Recovery
  import opened Installs
  import opened Removals
  import opened Repairs
  import opened StateDocument
  import StateFiles

  const MAX_PACKAGE_SCAN_ISSUES: nat := 256

  // ---- What a scan finds, and the state it calls for ----

  /** The package paths a scan walks: those of this host that spell a valid identity. */
  predicate Scanned(host: string, id: Identity) {
    id.host == host && ValidIdentity(id)
  }

  function Found(valid: Validator, host: string, w: World): set<Identity> {
    set n | n in w && n.Package? && Scanned(host, n.id) && Healthy(valid, w, n, n.id) :: n.id
  }

  function Issues(valid: Validator, host: string, w: World): set<Identity> {
    set n | n in w && n.Package? && Scanned(host, n.id) && !Healthy(valid, w, n, n.id) :: n.id
  }

  predicate Loads(w: World) {
    StateOf(w).Some? && WellFormed(StateOf(w).value)
  }

  /** A state that is missing or invalid counts as empty. */
  function LoadedDoc(w: World): Doc {
    if Loads(w) then StateOf(w).value else Doc({}, map[])
  }

  /** The state that the packages of this disk call for. */
  function Target(valid: Validator, host: string, w: World): Doc {
    Reconciled(LoadedDoc(w), Found(valid, host, w), host)
  }

  lemma TargetIsWellFormed(valid: Validator, host: string, w: World)
    ensures WellFormed(Target(valid, host, w))
  {
    var d, goal := LoadedDoc(w), Target(valid, host, w);
    forall s | s in goal.defaults ensures goal.defaults[s] in goal.installed && ScopeOf(goal.defaults[s]) == s {
      assert d.defaults[s] in d.installed;
    }
  }

  /** What there is to read: a state that cannot be read counts as none. */
  function Seen(w: World, readable: bool): World {
    if readable then w else w - {StateFile}
  }

  /** The state repair saves. */
  function Aim(valid: Validator, host: string, w: World, readable: bool): Doc {
    Target(valid, host, Seen(w, readable))
  }

  /** What the new state says: of this host just the valid packages on disk, of other hosts the records there
      were, and of the defaults those whose package is still recorded. A state that cannot be used has neither
      records nor defaults. */
  ghost predicate Restates(valid: Validator, host: string, root: World, readable: bool, after: Doc) {
    && (forall id ::
          id in after.installed <==>
            || (id.host == host && ValidIdentity(id) && Healthy(valid, root, Package(id), id))
            || (readable && Loads(root) && id.host != host && Installed(root, id)))
    && (if readable && Loads(root) then
          var d := StateOf(root).value;
          && (forall s :: s in after.defaults <==> s in d.defaults && d.defaults[s] in after.installed)
          && (forall s :: s in after.defaults ==> after.defaults[s] == d.defaults[s])
        else after.defaults == map[])
  }

  lemma AimRestates(valid: Validator, host: string, root: World, readable: bool)
    ensures Restates(valid, host, root, readable, Aim(valid, host, root, readable))
  {
    hide Found, Healthy, ValidIdentity;
    FoundIgnoresState(valid, host, root);
    forall id ensures id in Found(valid, host, root) <==> Scanned(host, id) && Healthy(valid, root, Package(id), id) {
      InScan(valid, host, root, id);
    }
  }

  /** Something stands in the place of the state that repair cannot use. */
  predicate Unusable(w: World, readable: bool) {
    StateFile in w && !(readable && Loads(w))
  }

  // ---- What repair may show ----

  /** The root with some invalid packages moved aside, and with its old state or the new one; a state
      that could not be read may be moved aside as well. */
  ghost predicate Mended(valid: Validator, host: string, root: World, goal: Doc, unread: bool, w: World) {
    && JournalFile !in w
    && (forall id :: Look(w, Package(id)) == Look(root, Package(id))
                     || (id in Issues(valid, host, root) && Package(id) !in w))
    && (forall id :: Kept(root, w, Package(id)))
    && (forall n: nat :: Preserved(n) in root ==> Look(w, Preserved(n)) == Look(root, Preserved(n)))
    && (Look(w, StateFile) == Look(root, StateFile) || StateOf(w) == Some(goal) || (unread && StateFile !in w))
    && (unread ==> Kept(root, w, StateFile))
  }

  /** Equal but for what is left in staging. */
  ghost predicate SameRoot(a: World, b: World) {
    forall name: Name :: !name.Staged? ==> Look(a, name) == Look(b, name)
  }

  /** What repair of a recovered root may show. */
  ghost predicate Repairing(valid: Validator, host: string, root: World, readable: bool, w: World) {
    Mended(valid, host, root, Aim(valid, host, root, readable), Unusable(root, readable), w)
  }

  /** What a finished repair leaves: the new state, and agreement about every package it may move. */
  ghost predicate Healed(valid: Validator, host: string, root: World, goal: Doc, w: World) {
    && JournalFile !in w && StateOf(w) == Some(goal) && (forall n: nat :: Staged(n) !in w)
    && forall id :: Scanned(host, id) ==> Agrees(valid, w, id) || Stuck(w, id)
  }

  /** A special file stands where a package belongs; it is reported and left alone. */
  predicate Stuck(w: World, id: Identity) {
    !Installed(w, id) && Package(id) in w && !Movable(w[Package(id)])
  }

  /** When nothing but a failing disk can keep repair from finishing. */
  ghost predicate CanRepair(valid: Validator, host: string, w: World, readable: bool) {
    var goal := Aim(valid, host, w, readable);
    && |Issues(valid, host, w)| <= MAX_PACKAGE_SCAN_ISSUES
    && StateFiles.DocBytes(goal) <= MAX_STATE_FILE_BYTES
    && ((readable && StateOf(w) == Some(goal)) || StateFiles.Storable(goal, host))
    && (Unusable(w, readable) ==> Movable(w[StateFile]))
  }

  lemma MendedSelf(valid: Validator, host: string, root: World, goal: Doc, unread: bool)
    requires JournalFile !in root
    ensures Mended(valid, host, root, goal, unread, root)
  {}

  /** One object moved to a fresh recovery name. */
  lemma AsideKeeps(root: World, w: World, name: Name, n: nat, other: Name)
    requires name in w && Preserved(n) !in w && !name.Preserved? && !other.Preserved?
    requires Preserved(n) !in root && Look(w, name) == Look(root, name) && Kept(root, w, other)
    ensures Kept(root, Renamed(w, name, Preserved(n), w[name]), other)
  {
    var after := Renamed(w, name, Preserved(n), w[name]);
    assert Look(after, Preserved(n)) == Look(root, name);
    if other != name && other in root && Look(w, other) != Look(root, other) {
      var m: nat :| Preserved(m) !in root && Look(w, Preserved(m)) == Look(root, other);
      assert Look(after, Preserved(m)) == Look(root, other);
    }
  }

  lemma MendedAside(valid: Validator, host: string, root: World, goal: Doc, unread: bool, w: World, name: Name, n: nat)
    requires Mended(valid, host, root, goal, unread, w) && name in w && Look(w, name) == Look(root, name)
    requires Preserved(n) !in w
    requires (name.Package? && name.id in Issues(valid, host, root)) || (name == StateFile && unread)
    ensures Mended(valid, host, root, goal, unread, Renamed(w, name, Preserved(n), w[name]))
  {
    hide Kept, Issues;
    var after := Renamed(w, name, Preserved(n), w[name]);
    assert Preserved(n) in root ==> Look(w, Preserved(n)) == Look(root, Preserved(n));
    forall id
      ensures || Look(after, Package(id)) == Look(root, Package(id))
              || (id in Issues(valid, host, root) && Package(id) !in after)
      ensures Kept(root, after, Package(id))
    {
      AsideKeeps(root, w, name, n, Package(id));
      assert Package(id) != name ==> Look(after, Package(id)) == Look(w, Package(id));
    }
    assert name != StateFile ==> Look(after, StateFile) == Look(w, StateFile);
    if unread {
      AsideKeeps(root, w, name, n, StateFile);
    }
  }

  lemma MendedStaged(valid: Validator, host: string, root: World, goal: Doc, unread: bool, w: World, n: nat,
                     after: World)
    requires Mended(valid, host, root, goal, unread, w) && StagedOnly(w, n, after)
    ensures Mended(valid, host, root, goal, unread, after)
  {
    hide Issues;
    assert Look(after, JournalFile) == Look(w, JournalFile) && Look(after, StateFile) == Look(w, StateFile);
    forall id ensures Kept(root, after, Package(id)) {
      KeptStays(root, w, after, Package(id));
    }
    if unread {
      KeptStays(root, w, after, StateFile);
    }
  }

  lemma KeptStays(root: World, w: World, after: World, name: Name)
    requires Kept(root, w, name) && (Look(after, name) == Look(w, name) || Look(after, name) == Look(root, name))
    requires forall n: nat :: Look(after, Preserved(n)) == Look(w, Preserved(n))
    ensures Kept(root, after, name)
  {}

  lemma MendedState(valid: Validator, host: string, root: World, goal: Doc, unread: bool, w: World, o: Object)
    requires Mended(valid, host, root, goal, unread, w) && o.body == StateBody(goal)
    requires unread ==> StateFile in root && StateFile !in w
    ensures Mended(valid, host, root, goal, unread, w[StateFile := o])
  {
    hide Issues;
    var after := w[StateFile := o];
    forall id ensures Kept(root, after, Package(id)) {
      KeptStays(root, w, after, Package(id));
    }
    if unread {
      var n: nat :| Preserved(n) !in root && Look(w, Preserved(n)) == Look(root, StateFile);
      assert Look(after, Preserved(n)) == Look(root, StateFile);
    }
  }

  /** One repair, from the recovered root on. */
  class RepairOperation {
    const disk: Disk
    const valid: Validator
    ghost var root: World
    ghost var past: seq<World>
    ghost var floor: nat
    /** The state to save, whether one was loaded, and whether what stands there could not be read. */
    var goal: Doc
    var loaded: bool
    var unread: bool

    constructor (disk: Disk, valid: Validator)
      ensures this.disk == disk && this.valid == valid
    {
      this.disk, this.valid := disk, valid;
      root, past, floor, goal, loaded, unread := map[], [], 0, Doc({}, map[]), false, false;
    }

    ghost predicate Shape(w: World)
      reads this`root, this`goal, this`unread
    {
      Mended(valid, disk.host, root, goal, unread, w)
    }

    /** Every world shown since the root was read has the shape. */
    ghost predicate Mending()
      reads this`root, this`past, this`floor, this`goal, this`unread, disk`now, disk`log, disk`durable
    {
      && disk.Valid() && |past| <= |disk.log| && floor <= disk.durable && Shape(disk.now)
      && (forall k :: 0 <= k < |past| ==> disk.log[k] == past[k])
      && (forall k :: |past| <= k < |disk.log| ==> Shape(disk.log[k]))
    }

    /** The plan follows from the root and from whether its state could be read. */
    ghost predicate Planned(readable: bool)
      reads this`root, this`goal, this`loaded, this`unread
    {
      && goal == Aim(valid, disk.host, root, readable)
      && loaded == (readable && Loads(root)) && unread == Unusable(root, readable)
    }

    /** The state is loaded, or counted as empty where it is missing, invalid or cannot be read. */
    method ReadRoot(readable: bool)
      requires disk.Valid() && JournalFile !in disk.now
      modifies this`root, this`past, this`floor, this`goal, this`loaded, this`unread
      ensures root == disk.now && past == disk.log && floor == disk.durable && Mending() && Planned(readable)
    {
      hide Mended, Aim;
      root, past, floor := disk.now, disk.log, disk.durable;
      goal, loaded := Aim(valid, disk.host, disk.now, readable), readable && Loads(disk.now);
      unread := StateFile in disk.now && !loaded;
      MendedSelf(valid, disk.host, root, goal, unread);
    }

    /** Scan, load and compute the whole new state before anything is touched. */
    method PlanRepair(readable: bool) returns (err: CupError)
      requires disk.Valid() && JournalFile !in disk.now
      modifies this`root, this`past, this`floor, this`goal, this`loaded, this`unread
      ensures root == disk.now && past == disk.log && floor == disk.durable && Mending() && Planned(readable)
      ensures err == Ok ==> StateFiles.DocBytes(goal) <= MAX_STATE_FILE_BYTES
      ensures disk.reliable ==>
                (err == Ok <==> && |Issues(valid, disk.host, root)| <= MAX_PACKAGE_SCAN_ISSUES
                                && StateFiles.DocBytes(goal) <= MAX_STATE_FILE_BYTES)
    {
      hide Issues, Mended, Planned, WellFormed, StateFiles.DocBytes;
      ReadRoot(readable);
      var failed := disk.Fault();
      if failed {
        return Filesystem;
      }
      if |Issues(valid, disk.host, disk.now)| > MAX_PACKAGE_SCAN_ISSUES {
        return InconsistentState;
      }
      GoalIsWellFormed(readable);
      var fits := StateFiles.CheckStorable(goal, disk.host);
      return if fits == StateFull then StateFull else Ok;
    }

    /** Every invalid package that can be renamed is moved aside. */
    method Quarantine() returns (err: CupError)
      requires Mending() && disk.now == root
      modifies disk`now, disk`temporaries, disk`log, disk`durable, disk`nextInode
      ensures Mending() && Look(disk.now, StateFile) == Look(root, StateFile)
      ensures err == Ok ==>
                forall id :: id in Issues(valid, disk.host, root) ==> Look(disk.now, Package(id)) == None || IsStuck(id)
      ensures disk.reliable ==> err == Ok
    {
      hide Mended, Issues, Shape, Scanned;
      var todo := Issues(valid, disk.host, disk.now);
      ghost var issues := todo;
      while todo != {}
        invariant Mending() && todo <= issues && Look(disk.now, StateFile) == Look(root, StateFile)
        invariant forall id :: id in todo ==> Look(disk.now, Package(id)) == Look(root, Package(id))
        invariant forall id :: id in issues - todo ==> Look(disk.now, Package(id)) == None || IsStuck(id)
        decreases todo
      {
        var id :| id in todo;
        IssuesArePresent(valid, disk.host, root, id);
        todo := todo - {id};
        if Movable(disk.now[Package(id)]) {
          err := QuarantineOne(id);
          if err != Ok {
            return;
          }
        }
      }
      return Ok;
    }

    /** A special file stood there, and still does. */
    ghost predicate IsStuck(id: Identity)
      reads this`root, disk`now
    {
      Package(id) in root && !Movable(root[Package(id)]) && Look(disk.now, Package(id)) == Look(root, Package(id))
    }

    method QuarantineOne(id: Identity) returns (err: CupError)
      requires Mending() && id in Issues(valid, disk.host, root) && Package(id) in disk.now
                 && Movable(disk.now[Package(id)])
      requires Look(disk.now, Package(id)) == Look(root, Package(id))
      modifies disk`now, disk`temporaries, disk`log, disk`durable, disk`nextInode
      ensures Mending()
      ensures forall name: Name :: name != Package(id) && !name.Preserved? ==>
                Look(disk.now, name) == Look(old(disk.now), name)
      ensures err == Ok ==> Package(id) !in disk.now
      ensures disk.reliable ==> err == Ok
    {
      hide Mended, Issues;
      ghost var start := disk.now;
      forall n: nat | Preserved(n) !in start
        ensures Shape(Renamed(start, Package(id), Preserved(n), start[Package(id)]))
      {
        MendedAside(valid, disk.host, root, goal, unread, start, Package(id), n);
      }
      var evidence;
      err, evidence := PreserveInvalidInstall(disk, Package(id));
    }

    /** A state that could not be read is moved aside, whatever it is. */
    method PreserveState(readable: bool) returns (err: CupError)
      requires Mending() && Planned(readable) && Look(disk.now, StateFile) == Look(root, StateFile)
      modifies disk`now, disk`temporaries, disk`log, disk`durable
      ensures Mending() && OthersStay(old(disk.now), disk.now)
      ensures err == Ok ==> Look(disk.now, StateFile) == if unread then None else Look(root, StateFile)
      ensures err == Ok && unread ==> |disk.log| > |past|
      ensures disk.reliable ==> (err == Ok <==> (unread ==> StateFile in root && Movable(root[StateFile])))
    {
      hide Mended, Aim;
      if !unread {
        return Ok;
      }
      var failed := disk.Fault();
      if failed || !Movable(disk.now[StateFile]) {
        return Filesystem;
      }
      FreshNames(disk.now);
      var n: nat :| Preserved(n) !in disk.now;
      MendedAside(valid, disk.host, root, goal, unread, disk.now, StateFile, n);
      var commit;
      err, commit := disk.MovePathIfIdentity(StateFile, Preserved(n), disk.now[StateFile].inode);
      if err != Ok && commit != NotApplied {
        err := Commit;
      }
    }

    /** Nothing is saved over a loaded state that has not changed. */
    method SavePlanned(readable: bool) returns (err: CupError)
      requires Mending() && Planned(readable)
      requires Look(disk.now, StateFile) == if unread then None else Look(root, StateFile)
      modifies disk`now, disk`temporaries, disk`log, disk`durable, disk`nextInode
      ensures Mending() && disk.Grew() && OthersStay(old(disk.now), disk.now)
      ensures err == Ok ==> StateOf(disk.now) == Some(goal)
      ensures err == Ok && StateOf(root) != Some(goal) ==> disk.Settled()
      ensures err == Ok && !loaded ==> disk.Settled()
      ensures disk.reliable ==>
                (err == Ok <==> (readable && StateOf(root) == Some(goal)) || StateFiles.Storable(goal, disk.host))
    {
      hide Mended, Aim, StateFiles.Storable, StateFiles.DocBytes, WellFormed;
      ghost var start := disk.now;
      GoalIsWellFormed(readable);
      SameState(root, start);
      if loaded && StateOf(disk.now) == Some(goal) {
        return Ok;
      }
      forall inode: nat ensures Shape(start[StateFile := Object(inode, StateBody(goal))]) {
        MendedState(valid, disk.host, root, goal, unread, start, Object(inode, StateBody(goal)));
      }
      if loaded {
        var identity;
        err, identity := SaveState(disk, goal, disk.now[StateFile].inode);
      } else {
        err := CreateState(disk, goal);
      }
    }

    lemma GoalIsWellFormed(readable: bool)
      requires Planned(readable)
      ensures WellFormed(goal)
      ensures readable && !loaded ==> StateOf(root) != Some(goal)
    {
      TargetIsWellFormed(valid, disk.host, Seen(root, readable));
    }

    /** What is left in staging goes. */
    method CleanStaging() returns (err: CupError)
      requires Mending()
      modifies disk`now, disk`log
      ensures Mending() && disk.Grew()
      ensures SameRoot(disk.now, old(disk.now))
      ensures forall k :: |old(disk.log)| <= k < |disk.log| ==> SameRoot(disk.log[k], disk.now)
      ensures err == Ok ==> forall n: nat :: Staged(n) !in disk.now
      ensures disk.reliable ==> err == Ok
    {
      hide Mended;
      var todo := set name | name in disk.now && name.Staged? :: name.n;
      while todo != {}
        invariant Mending() && forall n: nat :: Staged(n) in disk.now ==> n in todo
        invariant disk.Grew() && SameRoot(disk.now, old(disk.now))
        invariant forall k :: |old(disk.log)| <= k < |disk.log| ==> SameRoot(disk.log[k], disk.now)
        decreases todo
      {
        var n :| n in todo;
        todo := todo - {n};
        ghost var last := disk.now;
        err := DiscardStaged(n);
        if err != Ok {
          return;
        }
        forall m: nat | Staged(m) in disk.now ensures m in todo {
          assert Look(disk.now, Staged(m)) == Look(last, Staged(m));
        }
      }
      return Ok;
    }

    method DiscardStaged(n: nat) returns (err: CupError)
      requires Mending()
      modifies disk`now, disk`log
      ensures Mending() && disk.Grew() && StagedOnly(old(disk.now), n, disk.now)
      ensures forall k :: |old(disk.log)| <= k < |disk.log| ==> StagedOnly(old(disk.now), n, disk.log[k])
      ensures err == Ok ==> Staged(n) !in disk.now
      ensures disk.reliable ==> err == Ok
    {
      hide Mended, Shrunk;
      ghost var start := disk.now;
      err := disk.RemoveTree(Staged(n));
      forall w | Shrunk(start, Staged(n), w) ensures Shape(w) && StagedOnly(start, n, w) {
        ShrunkIsStaged(start, n, w);
        MendedStaged(valid, disk.host, root, goal, unread, start, n, w);
      }
    }

    /** The steps after the plan. */
    method CarryOut(readable: bool) returns (err: CupError)
      requires Mending() && Planned(readable) && disk.now == root
      modifies disk`now, disk`temporaries, disk`log, disk`durable, disk`nextInode
      ensures Mending()
      ensures err == Ok ==> Healed(valid, disk.host, root, goal, disk.now)
      ensures err == Ok && StateOf(disk.now) != StateOf(root) ==>
                forall k :: disk.durable <= k < |disk.log| ==> SameRoot(disk.log[k], disk.now)
      ensures disk.reliable ==>
                (err == Ok <==>
                   && (unread ==> StateFile in root && Movable(root[StateFile]))
                   && ((readable && StateOf(root) == Some(goal)) || StateFiles.Storable(goal, disk.host)))
      ensures err == Ok && unread ==> WasStateless()
    {
      hide Mended, Planned, StateFiles.Storable, Healed, Issues, Movable, Unusable, WellFormed;
      err := Quarantine();
      if err != Ok {
        return;
      }
      ghost var moved := disk.now;
      err := PreserveState(readable);
      if err != Ok {
        return;
      }
      ghost var aside := |disk.log| - 1;
      err := SavePlanned(readable);
      if err != Ok {
        return;
      }
      var failed := disk.Fault();
      if failed {
        return Filesystem;
      }
      ghost var saved := disk.now;
      err := CleanStaging();
      assert Look(disk.now, StateFile) == Look(saved, StateFile);
      if err == Ok {
        SameState(disk.now, saved);
        CleanedIsHealed(readable, moved, disk.now);
      }
    }

    /** With the issues out of the way, the plan saved and staging empty, the disk is healed. */
    lemma CleanedIsHealed(readable: bool, moved: World, w: World)
      requires Planned(readable) && Shape(w) && StateOf(w) == Some(goal) && forall n: nat :: Staged(n) !in w
      requires forall id :: id in Issues(valid, disk.host, root) ==>
                 Look(moved, Package(id)) == None || (Package(id) in root && !Movable(root[Package(id)]))
      requires forall id :: Look(w, Package(id)) == Look(moved, Package(id))
      ensures Healed(valid, disk.host, root, goal, w)
    {
      hide Mended, Planned, Healed, Issues, Movable;
      forall id | id in Issues(valid, disk.host, root)
        ensures Package(id) !in w || (Package(id) in root && !Movable(root[Package(id)]))
      {
        assert Look(w, Package(id)) == Look(moved, Package(id));
      }
      PlannedInstalls(readable);
      MendedIsHealed(valid, disk.host, root, goal, unread, w);
    }

    lemma PlannedInstalls(readable: bool)
      requires Planned(readable)
      ensures forall id :: Scanned(disk.host, id) ==> (id in goal.installed <==> id in Found(valid, disk.host, root))
    {
      FoundIgnoresState(valid, disk.host, root);
    }

    /** Some world shown since the root was read had no state at all. */
    ghost predicate WasStateless()
      reads this`past, disk`log
    {
      exists k :: |past| <= k < |disk.log| && StateFile !in disk.log[k]
    }

    /** The root is what recovery left of that disk. */
    ghost predicate RecoveredFrom(before: World)
      reads this`root
    {
      && Recoverable(valid, before) && JournalFile !in root && Leads(valid, before, root)
      && SameCore(root, Settle(valid, before))
    }

    /** Repair of packages and state, from any disk; whether the state can be read is an input. It starts
        with the recovery of a pending transaction and, if that refuses, touches nothing. From then on every
        world it shows is the recovered root with invalid packages moved aside, never deleted, and with the
        old state or the one the packages call for; there is a moment without any state exactly when what
        stood there could not be used. Success leaves the new state, and agreement about every package. */
    method Execute(readable: bool) returns (err: CupError)
      requires disk.Valid()
      modifies this`root, this`past, this`floor, this`goal, this`loaded, this`unread,
               disk`now, disk`temporaries, disk`log, disk`durable, disk`nextInode
      ensures disk.Valid() && disk.Grew()
      ensures !Recoverable(valid, old(disk.now)) ==> err != Ok && disk.now == old(disk.now) && disk.log == old(disk.log)
      ensures Recoverable(valid, old(disk.now)) ==>
                forall k :: |old(disk.log)| <= k < |disk.log| ==>
                  || Leads(valid, old(disk.now), disk.log[k])
                  || (RecoveredFrom(old(disk.now)) && Repairing(valid, disk.host, root, readable, disk.log[k]))
      ensures err == Ok ==>
                && RecoveredFrom(old(disk.now)) && Repairing(valid, disk.host, root, readable, disk.now)
                && Healed(valid, disk.host, root, Aim(valid, disk.host, root, readable), disk.now)
                && StateOf(disk.now).Some? && Restates(valid, disk.host, root, readable, StateOf(disk.now).value)
      ensures err == Ok && Unusable(root, readable) ==>
                exists k :: |old(disk.log)| <= k < |disk.log| && StateFile !in disk.log[k]
      ensures err == Ok && StateOf(disk.now) != StateOf(root) ==>
                forall k :: disk.durable <= k < |disk.log| ==> SameRoot(disk.log[k], disk.now)
      ensures disk.reliable ==>
                (err == Ok <==> && Recoverable(valid, old(disk.now))
                                && CanRepair(valid, disk.host, Settle(valid, old(disk.now)), readable))
    {
      hide Mended, Leads, SameCore, Recoverable, Settle, Planned, Healed, CanRepair, Issues, Aim, Unusable, Restates;
      ghost var before := disk.now;
      err := Recover(valid, disk);
      if err != Ok {
        return;
      }
      root := disk.now;
      err := PlanRepair(readable);
      CanRepairCore(valid, disk.host, root, Settle(valid, before), readable);
      PlanMeets(readable);
      if err == Ok {
        err := CarryOut(readable);
      }
      if err == Ok {
        HealedRestates(valid, disk.host, root, readable, disk.now);
      }
    }

    lemma PlanMeets(readable: bool)
      requires Planned(readable)
      ensures goal == Aim(valid, disk.host, root, readable) && unread == Unusable(root, readable)
      ensures CanRepair(valid, disk.host, root, readable) <==>
                && |Issues(valid, disk.host, root)| <= MAX_PACKAGE_SCAN_ISSUES
                && StateFiles.DocBytes(goal) <= MAX_STATE_FILE_BYTES
                && (unread ==> StateFile in root && Movable(root[StateFile]))
                && ((readable && StateOf(root) == Some(goal)) || StateFiles.Storable(goal, disk.host))
    {
      hide Aim, StateFiles.Storable, StateFiles.DocBytes, WellFormed;
    }
  }

  lemma HealedRestates(valid: Validator, host: string, root: World, readable: bool, w: World)
    requires Healed(valid, host, root, Aim(valid, host, root, readable), w)
    ensures StateOf(w).Some? && Restates(valid, host, root, readable, StateOf(w).value)
  {
    hide Restates;
    AimRestates(valid, host, root, readable);
  }

  lemma IssuesArePresent(valid: Validator, host: string, w: World, id: Identity)
    ensures id in Issues(valid, host, w) <==>
              Package(id) in w && Scanned(host, id) && !Healthy(valid, w, Package(id), id)
  {}

  /** Everything but the state and the recovery directories. */
  ghost predicate OthersStay(w: World, after: World) {
    forall name: Name :: name != StateFile && !name.Preserved? ==> Look(after, name) == Look(w, name)
  }

  lemma SameState(a: World, b: World)
    ensures Look(a, StateFile) == Look(b, StateFile) ==> StateOf(a) == StateOf(b) && Loads(a) == Loads(b)
    ensures Look(b, StateFile) == None ==> StateOf(b) == None
  {}

  lemma ShrunkIsStaged(w: World, n: nat, after: World)
    requires Shrunk(w, Staged(n), after)
    ensures StagedOnly(w, n, after)
  {}

  /** `state_save` without an observed file: only where there is none. */
  method CreateState(disk: Disk, doc: Doc) returns (err: CupError)
    requires disk.Valid()
    modifies disk`now, disk`temporaries, disk`log, disk`durable, disk`nextInode
    ensures disk.Valid() && disk.Grew()
    ensures err == Ok ==>
              disk.Settled() && disk.now == old(disk.now)[StateFile := Object(old(disk.nextInode), StateBody(doc))]
    ensures || disk.now == old(disk.now)
            || disk.now == old(disk.now)[StateFile := Object(old(disk.nextInode), StateBody(doc))]
    ensures forall k :: |old(disk.log)| <= k < |disk.log| ==>
              || disk.log[k] == old(disk.now)
              || disk.log[k] == old(disk.now)[StateFile := Object(old(disk.nextInode), StateBody(doc))]
    ensures disk.reliable ==> (err == Ok <==> StateFiles.Storable(doc, disk.host) && StateFile !in old(disk.now))
  {
    hide StateFiles.DocBytes, WellFormed;
    err := StateFiles.CheckStorable(doc, disk.host);
    if err != Ok {
      return;
    }
    var failed := disk.Fault();
    if failed {
      return TemporaryError;
    }
    err := disk.PublishFile(StateFile, StateBody(doc), Create, None);
  }

  lemma FoundIgnoresState(valid: Validator, host: string, w: World)
    ensures Found(valid, host, w - {StateFile}) == Found(valid, host, w)
    ensures forall id :: Scanned(host, id) ==>
              && (id in Target(valid, host, w).installed <==> id in Found(valid, host, w))
              && (id in Target(valid, host, w - {StateFile}).installed <==> id in Found(valid, host, w))
  {
    var rest := w - {StateFile};
    forall id ensures id in Found(valid, host, rest) <==> id in Found(valid, host, w) {
      assert Package(id) in rest <==> Package(id) in w;
    }
  }

  /** Scans and targets look at nothing but packages and state. */
  lemma SameTarget(valid: Validator, host: string, a: World, b: World)
    requires Look(a, StateFile) == Look(b, StateFile) && forall id :: Look(a, Package(id)) == Look(b, Package(id))
    ensures Found(valid, host, a) == Found(valid, host, b) && Issues(valid, host, a) == Issues(valid, host, b)
    ensures Target(valid, host, a) == Target(valid, host, b)
  {
    hide WellFormed, Reconciled;
    forall id
      ensures id in Found(valid, host, a) <==> id in Found(valid, host, b)
      ensures id in Issues(valid, host, a) <==> id in Issues(valid, host, b)
    {
      assert Look(a, Package(id)) == Look(b, Package(id));
      InScan(valid, host, a, id);
      InScan(valid, host, b, id);
    }
  }

  lemma InScan(valid: Validator, host: string, w: World, id: Identity)
    ensures id in Found(valid, host, w) <==> Scanned(host, id) && Healthy(valid, w, Package(id), id)
    ensures id in Issues(valid, host, w) <==>
              Package(id) in w && Scanned(host, id) && !Healthy(valid, w, Package(id), id)
  {}

  lemma CanRepairCore(valid: Validator, host: string, a: World, b: World, readable: bool)
    ensures SameCore(a, b) ==> (CanRepair(valid, host, a, readable) <==> CanRepair(valid, host, b, readable))
  {
    hide Target, Issues, StateFiles.Storable, StateFiles.DocBytes, WellFormed;
    if SameCore(a, b) {
      assert Look(a, StateFile) == Look(b, StateFile);
      SameTarget(valid, host, a, b);
      SameTarget(valid, host, a - {StateFile}, b - {StateFile}) by {
        forall id ensures Look(a - {StateFile}, Package(id)) == Look(b - {StateFile}, Package(id)) {
          assert Look(a, Package(id)) == Look(b, Package(id));
        }
      }
    }
  }

  lemma MendedIsHealed(valid: Validator, host: string, root: World, goal: Doc, unread: bool, w: World)
    requires Mended(valid, host, root, goal, unread, w) && StateOf(w) == Some(goal) && forall n: nat :: Staged(n) !in w
    requires forall id :: Scanned(host, id) ==> (id in goal.installed <==> id in Found(valid, host, root))
    requires forall id :: id in Issues(valid, host, root) ==>
               Package(id) !in w || (Package(id) in root && !Movable(root[Package(id)]))
    ensures Healed(valid, host, root, goal, w)
  {
    hide Found, Issues, Kept, Scanned;
    forall id | Scanned(host, id) ensures Agrees(valid, w, id) || Stuck(w, id) {
      InScan(valid, host, root, id);
      assert Look(w, Package(id)) == Look(root, Package(id)) || (id in Issues(valid, host, root) && Package(id) !in w);
    }
  }

  /** Where nothing but packages of this host that can be moved was recorded or found, the whole disk is
      consistent afterwards. */
  lemma HealedIsConsistent(valid: Validator, host: string, root: World, readable: bool, w: World)
    requires Repairing(valid, host, root, readable, w)
    requires Healed(valid, host, root, Aim(valid, host, root, readable), w)
    requires forall id :: id in Aim(valid, host, root, readable).installed ==> id.host == host
    requires forall id :: Package(id) in root ==> Scanned(host, id) && Movable(root[Package(id)])
    ensures Consistent(valid, w)
  {
    hide Kept, Issues, Healthy, Target;
    TargetIsWellFormed(valid, host, Seen(root, readable));
    forall id ensures Agrees(valid, w, id) {
      assert Look(w, Package(id)) == Look(root, Package(id)) || Package(id) !in w;
      assert Package(id) in root ==> Scanned(host, id);
    }
  }

  /** On a consistent disk repair has nothing to save and nothing to move. */
  lemma ConsistentIsTarget(valid: Validator, host: string, w: World)
    requires Consistent(valid, w)
    ensures Target(valid, host, w) == StateOf(w).value && Issues(valid, host, w) == {}
  {
    hide Healthy, Found, Issues, Reconciled;
    forall id
      ensures id in Found(valid, host, w) <==> id.host == host && Healthy(valid, w, Package(id), id)
      ensures id !in Issues(valid, host, w)
    {
      InScan(valid, host, w, id);
      assert Agrees(valid, w, id);
      if Healthy(valid, w, Package(id), id) {
        HealthyIsPresent(valid, w, id);
      }
    }
    ConsistentNeedsNoRepair(valid, w, Found(valid, host, w), host);
  }

  // ---- Repair of a disk that needs none ----

  /** Records of other hosts are not expressible in state.txt, and a package path names no host. */
  predicate Local(host: string, w: World) {
    StateOf(w).Some? ==> forall id :: id in StateOf(w).value.installed ==> id.host == host
  }

  /** No state and nothing pending, and every package is one that a scan finds. */
  ghost predicate Stateless(valid: Validator, host: string, w: World) {
    && JournalFile !in w && StateFile !in w
    && forall id :: Package(id) in w ==> Scanned(host, id) && Healthy(valid, w, Package(id), id)
  }

  /** What repair may show of a root without invalid packages. */
  ghost predicate RepairShows(valid: Validator, host: string, readable: bool, core: World, w: World) {
    && JournalFile !in w && (forall id :: Look(w, Package(id)) == Look(core, Package(id)))
    && (|| Look(w, StateFile) == Look(core, StateFile) || StateOf(w) == Some(Aim(valid, host, core, readable))
        || (!readable && StateFile !in w))
  }

  lemma RepairingShows(valid: Validator, host: string, root: World, readable: bool, core: World, w: World)
    requires Repairing(valid, host, root, readable, w) && SameCore(root, core)
    requires Issues(valid, host, core) == {} && (StateFile in core ==> Loads(core))
    ensures RepairShows(valid, host, readable, core, w)
  {
    hide Target, Kept, Issues;
    CoreAim(valid, host, root, core, readable);
    assert Look(root, StateFile) == Look(core, StateFile);
    SameState(root, core);
    forall id ensures Look(w, Package(id)) == Look(core, Package(id)) {
      assert Look(root, Package(id)) == Look(core, Package(id));
      assert Look(w, Package(id)) == Look(root, Package(id));
    }
  }

  lemma CoreAim(valid: Validator, host: string, root: World, core: World, readable: bool)
    requires SameCore(root, core)
    ensures Aim(valid, host, root, readable) == Aim(valid, host, core, readable)
    ensures Issues(valid, host, root) == Issues(valid, host, core)
  {
    hide Target, Issues;
    assert Look(root, StateFile) == Look(core, StateFile);
    var a, b := Seen(root, readable), Seen(core, readable);
    forall id
      ensures Look(a, Package(id)) == Look(b, Package(id)) && Look(root, Package(id)) == Look(core, Package(id))
    {
      assert Look(root, Package(id)) == Look(core, Package(id));
    }
    SameTarget(valid, host, a, b);
    SameTarget(valid, host, root, core);
  }

  /** Without a state to read, the packages found make up the new one. */
  lemma AimWithoutState(valid: Validator, host: string, w: World)
    ensures Aim(valid, host, w, false) == Doc(Found(valid, host, w), map[])
    ensures StateFile !in w ==> Aim(valid, host, w, true) == Doc(Found(valid, host, w), map[])
  {
    FoundIgnoresState(valid, host, w);
  }

  lemma StatelessHasNoIssues(valid: Validator, host: string, w: World)
    requires Stateless(valid, host, w)
    ensures Issues(valid, host, w) == {}
  {
    hide Issues;
    forall id ensures id !in Issues(valid, host, w) {
      InScan(valid, host, w, id);
    }
  }

  /** A state with just the packages found makes a disk without strangers consistent. */
  lemma FoundIsConsistent(valid: Validator, host: string, core: World, w: World)
    requires forall id :: Package(id) in core ==> Scanned(host, id) && Healthy(valid, core, Package(id), id)
    requires JournalFile !in w && forall id :: Look(w, Package(id)) == Look(core, Package(id))
    requires StateOf(w) == Some(Doc(Found(valid, host, core), map[]))
    ensures Consistent(valid, w) && Local(host, w)
  {
    hide Found;
    forall id ensures Agrees(valid, w, id) && (id in Found(valid, host, core) ==> Scanned(host, id)) {
      InScan(valid, host, core, id);
      assert Look(w, Package(id)) == Look(core, Package(id));
    }
  }

  /** Repair of a disk of the invariant keeps the invariant, unless it cannot read the state. Then there is
      a moment without one, and afterwards one without defaults. */
  lemma RepairKeeps(valid: Validator, host: string, readable: bool, core: World, w: World)
    requires RepairShows(valid, host, readable, core, w)
    requires Consistent(valid, core) || Stateless(valid, host, core)
    requires !readable ==> Local(host, core)
    ensures Consistent(valid, w) || Stateless(valid, host, w)
    ensures Consistent(valid, core) && readable ==> Consistent(valid, w) && StateOf(w) == StateOf(core)
    ensures StateOf(w) == Some(Aim(valid, host, core, readable)) ==> Consistent(valid, w)
    ensures Local(host, core) ==> Local(host, w)
  {
    hide Found, Issues, Healthy, WellFormed;
    AimWithoutState(valid, host, core);
    if Consistent(valid, core) {
      ConsistentIsTarget(valid, host, core);
      if Local(host, core) {
        CoreIsFound(valid, host, core);
      }
    }
    if StateOf(w) == Some(Doc(Found(valid, host, core), map[])) && (Stateless(valid, host, core) || Local(host, core)) {
      FoundIsConsistent(valid, host, core, w);
    }
    SameState(w, core);
    if StateOf(w) == StateOf(core) && Consistent(valid, core) {
      SamePackages(valid, core, w);
    }
    if StateFile !in w && Look(w, StateFile) != Look(core, StateFile) {
      StillFound(valid, host, core, w);
    }
    if Stateless(valid, host, core) && StateFile !in w {
      StillFound(valid, host, core, w);
    }
  }

  lemma CoreIsFound(valid: Validator, host: string, core: World)
    requires Consistent(valid, core) && Local(host, core)
    ensures forall id :: Package(id) in core ==> Scanned(host, id) && Healthy(valid, core, Package(id), id)
  {
    forall id | Package(id) in core ensures Scanned(host, id) && Healthy(valid, core, Package(id), id) {
      assert Agrees(valid, core, id);
    }
  }

  lemma SamePackages(valid: Validator, core: World, w: World)
    requires Consistent(valid, core) && JournalFile !in w && StateOf(w) == StateOf(core)
    requires forall id :: Look(w, Package(id)) == Look(core, Package(id))
    ensures Consistent(valid, w)
  {
    forall id ensures Agrees(valid, w, id) {
      assert Agrees(valid, core, id) && Look(w, Package(id)) == Look(core, Package(id));
    }
  }

  lemma StillFound(valid: Validator, host: string, core: World, w: World)
    requires forall id :: Package(id) in core ==> Scanned(host, id) && Healthy(valid, core, Package(id), id)
    requires JournalFile !in w && StateFile !in w && forall id :: Look(w, Package(id)) == Look(core, Package(id))
    ensures Stateless(valid, host, w)
  {
    forall id | Package(id) in w ensures Scanned(host, id) && Healthy(valid, w, Package(id), id) {
      assert Look(w, Package(id)) == Look(core, Package(id));
    }
  }

  // ---- Repair that is itself cut ----

  /** What repair may have done to the packages of a disk: the valid ones stand, and an invalid one that
      is gone lies in a recovery directory. */
  ghost predicate Nearby(valid: Validator, host: string, core: World, w: World) {
    && JournalFile !in w
    && (forall id :: Look(w, Package(id)) == Look(core, Package(id))
                     || (id in Issues(valid, host, core) && Package(id) !in w))
    && (forall id :: id in Issues(valid, host, core) && Package(id) !in w ==> Sheltered(core, w, id))
  }

  ghost predicate Sheltered(core: World, w: World, id: Identity) {
    exists n: nat :: Look(w, Preserved(n)) == Look(core, Package(id))
  }

  /** The disk calls for the same state as before, and can be repaired if it could be. */
  ghost predicate Nearer(valid: Validator, host: string, core: World, w: World) {
    && Nearby(valid, host, core, w) && Target(valid, host, w) == Target(valid, host, core)
    && (CanRepair(valid, host, core, true) ==> CanRepair(valid, host, w, true))
  }

  lemma FewerIssues(valid: Validator, host: string, core: World, w: World)
    requires forall id :: Look(w, Package(id)) == Look(core, Package(id))
                          || (id in Issues(valid, host, core) && Package(id) !in w)
    ensures Found(valid, host, w) == Found(valid, host, core)
    ensures Issues(valid, host, w) <= Issues(valid, host, core)
    ensures |Issues(valid, host, w)| <= |Issues(valid, host, core)|
  {
    hide Found, Issues, Scanned;
    forall id
      ensures id in Found(valid, host, w) <==> id in Found(valid, host, core)
      ensures id in Issues(valid, host, w) ==> id in Issues(valid, host, core)
    {
      assert Look(w, Package(id)) == Look(core, Package(id)) || (id in Issues(valid, host, core) && Package(id) !in w);
      InScan(valid, host, w, id);
      InScan(valid, host, core, id);
    }
    SmallerSet(Issues(valid, host, w), Issues(valid, host, core));
  }

  lemma SmallerSet(a: set<Identity>, b: set<Identity>)
    requires a <= b
    ensures |a| <= |b|
  {
    assert b == a + (b - a);
  }

  lemma RepairingIsNearby(valid: Validator, host: string, root: World, readable: bool, w: World)
    requires Repairing(valid, host, root, readable, w)
    ensures Nearby(valid, host, root, w)
    ensures forall n: nat :: Preserved(n) in root ==> Look(w, Preserved(n)) == Look(root, Preserved(n))
  {
    hide Issues, Aim, Unusable;
    forall id | id in Issues(valid, host, root) && Package(id) !in w ensures Sheltered(root, w, id) {
      IssuesArePresent(valid, host, root, id);
      assert Kept(root, w, Package(id));
    }
  }

  lemma RepairingIsNearer(valid: Validator, host: string, root: World, w: World)
    requires Repairing(valid, host, root, true, w)
    ensures Nearer(valid, host, root, w)
  {
    hide Issues, Found, Kept, StateFiles.DocBytes, Reconciled, Healthy, Nearby;
    var goal := Target(valid, host, root);
    RepairingIsNearby(valid, host, root, true, w);
    FewerIssues(valid, host, root, w);
    TargetIsWellFormed(valid, host, root);
    ReconciledTwice(LoadedDoc(root), Found(valid, host, root), host);
    SameState(root, w);
    assert Target(valid, host, w) == goal;
  }

  /** One more stretch of repair, on a disk that stands for an earlier one. */
  lemma NearbyStill(valid: Validator, host: string, core: World, w: World, root: World, x: World)
    requires Nearby(valid, host, core, w) && SameCore(root, w) && Nearby(valid, host, root, x)
    requires forall n: nat :: Preserved(n) in w ==> Look(x, Preserved(n)) == Look(w, Preserved(n))
    ensures Nearby(valid, host, core, x)
  {
    hide Issues;
    assert Look(root, StateFile) == Look(w, StateFile);
    SameTarget(valid, host, root, w);
    FewerIssues(valid, host, core, w);
    forall id
      ensures Look(x, Package(id)) == Look(core, Package(id)) || (id in Issues(valid, host, core) && Package(id) !in x)
      ensures id in Issues(valid, host, core) && Package(id) !in x ==> Sheltered(core, x, id)
    {
      assert Look(root, Package(id)) == Look(w, Package(id));
      assert Look(x, Package(id)) == Look(root, Package(id)) || (id in Issues(valid, host, root) && Package(id) !in x);
      if id in Issues(valid, host, core) && Package(id) !in x {
        IssuesArePresent(valid, host, core, id);
        if Package(id) in w {
          assert Look(w, Package(id)) == Look(core, Package(id)) && id in Issues(valid, host, root);
          assert Sheltered(root, x, id);
        } else {
          var n: nat :| Look(w, Preserved(n)) == Look(core, Package(id));
          assert Look(x, Preserved(n)) == Look(w, Preserved(n));
        }
      }
    }
  }

  lemma NearerStill(valid: Validator, host: string, core: World, w: World, root: World, x: World)
    requires Nearer(valid, host, core, w) && SameCore(root, w) && Nearer(valid, host, root, x)
    requires Nearby(valid, host, core, x)
    ensures Nearer(valid, host, core, x)
  {
    hide Issues, Found, Target, CanRepair, Nearby;
    CanRepairCore(valid, host, root, w, true);
    assert Look(root, StateFile) == Look(w, StateFile);
    SameTarget(valid, host, root, w);
  }

  lemma NearerSelf(valid: Validator, host: string, core: World)
    requires JournalFile !in core
    ensures Nearer(valid, host, core, core)
  {
    hide Issues, Target, CanRepair;
    forall id ensures id in Issues(valid, host, core) ==> Package(id) in core {
      IssuesArePresent(valid, host, core, id);
    }
  }

  /** Repair of the disk is under way or yet to begin: its packages are those of `core`, and, as long as
      the state could be read, so is the state it will end with. */
  ghost predicate OnTheWay(valid: Validator, host: string, core: World, read: bool, w: World) {
    && Recoverable(valid, w) && Nearby(valid, host, core, Settle(valid, w))
    && (read ==> Nearer(valid, host, core, Settle(valid, w)))
  }

  lemma SettledHasNoJournal(valid: Validator, w: World)
    requires Recoverable(valid, w)
    ensures JournalFile !in Settle(valid, w)
    ensures forall n: nat :: Look(Settle(valid, w), Preserved(n)) == Look(w, Preserved(n))
  {}

  lemma AtOnce(valid: Validator, host: string, w: World)
    requires Recoverable(valid, w)
    ensures OnTheWay(valid, host, Settle(valid, w), true, w)
  {
    hide Settle, Recoverable, Nearby, Nearer;
    SettledHasNoJournal(valid, w);
    NearerSelf(valid, host, Settle(valid, w));
    NearerIsNearby(valid, host, Settle(valid, w), Settle(valid, w));
  }

  lemma NearerIsNearby(valid: Validator, host: string, core: World, w: World)
    requires Nearer(valid, host, core, w)
    ensures Nearby(valid, host, core, w)
  {}

  lemma LeadsOnTheWay(valid: Validator, host: string, core: World, read: bool, start: World, w: World)
    requires OnTheWay(valid, host, core, read, start) && Leads(valid, start, w)
    ensures OnTheWay(valid, host, core, read, w)
  {
    hide Nearer, Nearby, Settle, Recoverable, Kept;
    var here, there := Settle(valid, start), Settle(valid, w);
    SettledHasNoJournal(valid, start);
    SettledHasNoJournal(valid, w);
    NearerSelf(valid, host, there);
    NearerIsNearby(valid, host, there, there);
    KeepsNames(valid, start, w);
    NearbyStill(valid, host, core, here, there, there);
    if read {
      NearerStill(valid, host, core, here, there, there);
    }
  }

  lemma KeepsNames(valid: Validator, start: World, w: World)
    requires Recoverable(valid, start) && Leads(valid, start, w)
    ensures forall n: nat :: Preserved(n) in start ==> Look(w, Preserved(n)) == Look(start, Preserved(n))
    ensures SameCore(Settle(valid, w), Settle(valid, start)) && Recoverable(valid, w)
  {}

  lemma RepairingOnTheWay(valid: Validator, host: string, core: World, read: bool, start: World, root: World,
                          readable: bool, w: World)
    requires OnTheWay(valid, host, core, read, start) && Leads(valid, start, root) && JournalFile !in root
    requires Repairing(valid, host, root, readable, w)
    ensures OnTheWay(valid, host, core, read && readable, w)
  {
    hide Nearer, Nearby, Repairing, SameCore, Settle, Leads, Recoverable;
    var here := Settle(valid, start);
    SettledHasNoJournal(valid, start);
    KeepsNames(valid, start, root);
    SettledAlready(valid, root);
    RepairingIsNearby(valid, host, root, readable, w);
    NamesStay(start, root, w);
    NearbyStill(valid, host, core, here, root, w);
    NearbyIsSettled(valid, host, core, w);
    if read && readable {
      RepairingIsNearer(valid, host, root, w);
      NearerStill(valid, host, core, here, root, w);
    }
  }

  lemma NamesStay(start: World, root: World, w: World)
    requires forall n: nat :: Preserved(n) in start ==> Look(root, Preserved(n)) == Look(start, Preserved(n))
    requires forall n: nat :: Preserved(n) in root ==> Look(w, Preserved(n)) == Look(root, Preserved(n))
    ensures forall n: nat :: Preserved(n) in start ==> Look(w, Preserved(n)) == Look(start, Preserved(n))
  {
    forall n: nat | Preserved(n) in start ensures Look(w, Preserved(n)) == Look(start, Preserved(n)) {
      assert Look(root, Preserved(n)) == Look(start, Preserved(n));
      assert Preserved(n) in root;
    }
  }

  lemma NearbyIsSettled(valid: Validator, host: string, core: World, w: World)
    requires Nearby(valid, host, core, w)
    ensures Recoverable(valid, w) && Settle(valid, w) == w
  {}

  /** A disk on which repair has finished, compared with the first one: every valid package stands, an
      invalid one that is gone is kept, and agreement is complete but for special files. */
  ghost predicate Mends(valid: Validator, host: string, core: World, w: World) {
    && JournalFile !in w && Loads(w)
    && (forall id :: id in Found(valid, host, core) ==> Look(w, Package(id)) == Look(core, Package(id)))
    && (forall id :: id in Issues(valid, host, core) && Package(id) !in w ==> Sheltered(core, w, id))
    && (forall id :: Scanned(host, id) ==> Agrees(valid, w, id) || Stuck(w, id))
  }

  /** What a completed repair has to do with the disk that was first on the way. */
  lemma HealedMends(valid: Validator, host: string, core: World, read: bool, root: World, readable: bool, w: World)
    requires OnTheWay(valid, host, core, read, w)
    requires Healed(valid, host, root, Aim(valid, host, root, readable), w)
    ensures Mends(valid, host, core, w)
  {
    hide Found, Issues, Target, CanRepair, Scanned, Agrees, Stuck, Healthy, Sheltered;
    SettledAlready(valid, w);
    TargetIsWellFormed(valid, host, Seen(root, readable));
    forall id | id in Found(valid, host, core) ensures Look(w, Package(id)) == Look(core, Package(id)) {
      InScan(valid, host, core, id);
    }
  }

  lemma SameAim(valid: Validator, host: string, core: World, read: bool, start: World, root: World)
    requires OnTheWay(valid, host, core, read, start) && SameCore(root, Settle(valid, start))
    ensures read ==> Aim(valid, host, root, true) == Aim(valid, host, core, true)
    ensures Aim(valid, host, root, false) == Aim(valid, host, core, false)
  {
    hide Target, Found, Issues, CanRepair;
    var settled := Settle(valid, start);
    assert Look(root, StateFile) == Look(settled, StateFile);
    assert forall id :: Look(root, Package(id)) == Look(settled, Package(id));
    SameTarget(valid, host, root, settled);
    FewerIssues(valid, host, core, settled);
    FoundDecides(valid, host, root, core);
  }

  lemma FoundDecides(valid: Validator, host: string, a: World, b: World)
    requires Found(valid, host, a) == Found(valid, host, b)
    ensures Aim(valid, host, a, false) == Aim(valid, host, b, false)
  {
    hide Found, Reconciled;
    FoundIgnoresState(valid, host, a);
    FoundIgnoresState(valid, host, b);
  }

  lemma OnTheWayCanRepair(valid: Validator, host: string, core: World, read: bool, w: World)
    requires OnTheWay(valid, host, core, read, w)
    ensures Recoverable(valid, w) && OnTheWay(valid, host, core, false, w)
    ensures read && CanRepair(valid, host, core, true) ==> CanRepair(valid, host, Settle(valid, w), true)
  {}

  /** One repair of a disk on the way; `read` is whether no run before it failed to read the state. */
  method RepairOnward(valid: Validator, disk: Disk, readable: bool, ghost core: World, ghost read: bool)
    returns (err: CupError)
    requires disk.Valid() && disk.Settled() && OnTheWay(valid, disk.host, core, read, disk.now)
    modifies disk`now, disk`temporaries, disk`log, disk`durable, disk`nextInode
    ensures disk.Valid() && disk.Grew()
    ensures forall k :: old(disk.durable) <= k < |disk.log| ==>
              OnTheWay(valid, disk.host, core, read && readable, disk.log[k])
    ensures err == Ok ==> Mends(valid, disk.host, core, disk.now)
    ensures err == Ok && (read || !readable) ==> StateOf(disk.now) == Some(Aim(valid, disk.host, core, readable))
    ensures disk.reliable && read && readable && CanRepair(valid, disk.host, core, true) ==> err == Ok
  {
    hide OnTheWay, Recoverable, Settle, CanRepair, Aim, Found, Repairing, Leads, SameCore, Scanned, Agrees, Stuck,
         Mends, Unusable;
    ghost var start := disk.now;
    OnTheWayCanRepair(valid, disk.host, core, read, start);
    var operation := new RepairOperation(disk, valid);
    err := operation.Execute(readable);
    ghost var root := operation.root;
    forall w | Leads(valid, start, w) ensures OnTheWay(valid, disk.host, core, read && readable, w) {
      LeadsOnTheWay(valid, disk.host, core, read, start, w);
      OnTheWayCanRepair(valid, disk.host, core, read, w);
    }
    LeadsSelf(valid, start);
    if operation.RecoveredFrom(start) {
      forall w | Repairing(valid, disk.host, root, readable, w)
        ensures OnTheWay(valid, disk.host, core, read && readable, w)
      {
        RepairingOnTheWay(valid, disk.host, core, read, start, root, readable, w);
      }
      if err == Ok {
        HealedMends(valid, disk.host, core, read && readable, root, readable, disk.now);
        SameAim(valid, disk.host, core, read, start, root);
      }
    }
  }

  predicate AllRead(readings: seq<bool>, n: nat)
    requires n <= |readings|
  {
    forall k :: 0 <= k < n ==> readings[k]
  }

  /** Repair cut any number of times, with anything failing; `readings` says of each run whether it can read
      the state. Whatever is left is on the way, and the run that completes mends the first disk. If every
      run could read the state, it leaves the very state the first disk called for; if the last one could
      not, the packages found and no defaults. On a disk where nothing fails it completes if it could have
      at first. */
  method RepairThroughCuts(valid: Validator, disk: Disk, readings: seq<bool>) returns (err: CupError)
    requires disk.Valid() && disk.Settled() && Recoverable(valid, disk.now) && |readings| > 0
    modifies disk`now, disk`temporaries, disk`log, disk`durable, disk`nextInode
    ensures disk.Valid()
    ensures forall k :: disk.durable <= k < |disk.log| ==>
              OnTheWay(valid, disk.host, Settle(valid, old(disk.now)), AllRead(readings, |readings|), disk.log[k])
    ensures err == Ok ==> Mends(valid, disk.host, Settle(valid, old(disk.now)), disk.now)
    ensures err == Ok && (AllRead(readings, |readings|) || !readings[|readings| - 1]) ==>
              StateOf(disk.now) == Some(Aim(valid, disk.host, Settle(valid, old(disk.now)), readings[|readings| - 1]))
    ensures disk.reliable && AllRead(readings, |readings|) ==>
              CanRepair(valid, disk.host, Settle(valid, old(disk.now)), true) ==> err == Ok
  {
    hide Recoverable, Settle, CanRepair, Aim, Mends, OnTheWay;
    ghost var core := Settle(valid, disk.now);
    AtOnce(valid, disk.host, disk.now);
    for i := 0 to |readings| - 1
      invariant disk.Valid() && disk.Settled() && OnTheWay(valid, disk.host, core, AllRead(readings, i), disk.now)
    {
      var from := disk.durable;
      err := RepairOnward(valid, disk, readings[i], core, AllRead(readings, i));
      assert AllRead(readings, i + 1) <==> AllRead(readings, i) && readings[i];
      var survivor: nat :| from <= survivor < |disk.log|;
      disk.PowerLoss(survivor);
    }
    assert AllRead(readings, |readings|) <==> AllRead(readings, |readings| - 1) && readings[|readings| - 1];
    err := RepairOnward(valid, disk, readings[|readings| - 1], core, AllRead(readings, |readings| - 1));
  }
}
