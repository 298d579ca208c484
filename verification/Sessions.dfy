/** Whole runs: any sequence of locked commands, each complete or cut by a power loss anywhere inside
    it, and recovery that may itself be cut any number of times. */
module Sessions {
  import opened Text
  import opened Domain
  import opened States
  import opened Disks
  import opened Recovery
  import opened Installs
  import opened Removals
  import opened RepairCommands
  import StateFiles
  import Versions

  // ---- Setting a default ----

  /** The package is the default of its scope, and that is all that differs. */
  ghost predicate Prefers(before: Doc, id: Identity, after: Doc) {
    var s := ScopeOf(id);
    && after.installed == before.installed
    && s in after.defaults && after.defaults[s] == id
    && forall o :: o != s ==>
         && (o in after.defaults <==> o in before.defaults)
         && (o in after.defaults ==> after.defaults[o] == before.defaults[o])
  }

  ghost predicate DefaultChanged(valid: Validator, before: World, id: Identity, w: World) {
    && StateOf(before).Some? && JournalFile !in w
    && Inv(valid, w) && StateOf(w) == Some(WithDefault(StateOf(before).value, id))
    && Prefers(StateOf(before).value, id, StateOf(w).value)
    && forall q :: Look(w, Package(q)) == Look(before, Package(q))
  }

  /** When nothing but a failing disk can keep a package from becoming the default. */
  ghost predicate CanDefault(host: string, before: World, id: Identity) {
    && Admissible(before) && Installed(before, id)
    && StateFiles.Storable(WithDefault(StateOf(before).value, id), host)
  }

  /** `cup default`: only an installed and valid package; state.txt is all that changes. */
  method SetDefault(disk: Disk, valid: Validator, id: Identity) returns (err: CupError)
    requires disk.Valid() && (Admissible(disk.now) ==> Inv(valid, disk.now))
    modifies disk`now, disk`temporaries, disk`log, disk`durable, disk`nextInode
    ensures disk.Valid() && disk.Grew()
    ensures !Admissible(old(disk.now)) ==> err != Ok && disk.now == old(disk.now) && disk.log == old(disk.log)
    ensures forall k :: |old(disk.log)| <= k < |disk.log| ==>
              disk.log[k] == old(disk.now) || DefaultChanged(valid, old(disk.now), id, disk.log[k])
    ensures err == Ok ==>
              && disk.Settled() && Installed(old(disk.now), id) && Consistent(valid, disk.now)
              && StateOf(disk.now) == Some(WithDefault(StateOf(old(disk.now)).value, id))
              && Prefers(StateOf(old(disk.now)).value, id, StateOf(disk.now).value)
    ensures Plain(err) ==> disk.now == old(disk.now) && (|disk.log| > |old(disk.log)| ==> disk.Settled())
    ensures disk.reliable ==> (err == Ok <==> CanDefault(disk.host, old(disk.now), id))
  {
    hide StateFiles.Storable, WellFormed, Inv;
    if Admissible(disk.now) {
      InvAgrees(valid, disk.now, id);
    }
    if JournalFile in disk.now {
      return TransactionError;
    }
    var failed := disk.Fault();
    var loaded := StateOf(disk.now);
    if failed || loaded.None? || !WellFormed(loaded.value) {
      return InconsistentState;
    }
    if id !in loaded.value.installed || !Healthy(valid, disk.now, Package(id), id) {
      return InconsistentState;
    }
    var state := WithDefault(loaded.value, id);
    failed := disk.Fault();
    if failed {
      return Interrupt;
    }
    ghost var start := disk.now;
    forall inode: nat
      ensures DefaultChanged(valid, start, id, start[StateFile := Object(inode, StateBody(state))])
    {
      DefaultKeepsInv(valid, start, id, Object(inode, StateBody(state)));
    }
    var identity;
    err, identity := SaveState(disk, state, disk.now[StateFile].inode);
    if err == Ok {
      assert DefaultChanged(valid, start, id, disk.now);
      InvIsConsistent(valid, disk.now);
      failed := disk.Fault();
      err := if failed then Commit else Ok;
    }
  }

  lemma InvAgrees(valid: Validator, w: World, id: Identity)
    requires Inv(valid, w)
    ensures Agrees(valid, w, id) || Names(w, id)
    ensures StateOf(w).Some? && WellFormed(StateOf(w).value)
  {}

  lemma InvIsConsistent(valid: Validator, w: World)
    requires Inv(valid, w)
    ensures Consistent(valid, w) <==> JournalFile !in w
    ensures Recoverable(valid, w) && StateOf(w).Some? && WellFormed(StateOf(w).value)
  {}

  lemma DefaultKeepsInv(valid: Validator, w: World, id: Identity, o: Object)
    requires Inv(valid, w) && JournalFile !in w && Installed(w, id)
    requires o.body == StateBody(WithDefault(StateOf(w).value, id))
    ensures DefaultChanged(valid, w, id, w[StateFile := o])
  {
    hide Prefers, ValidIdentity;
    var after := w[StateFile := o];
    WithDefaultPrefers(StateOf(w).value, id);
    forall q ensures Look(after, Package(q)) == Look(w, Package(q)) && Agrees(valid, after, q) {
      assert Agrees(valid, w, q);
    }
  }

  lemma WithDefaultPrefers(d: Doc, id: Identity)
    ensures Prefers(d, id, WithDefault(d, id))
  {}

  // ---- Recovery that is itself cut ----

  /** Cut the recovery of any recoverable disk any number of times: whatever is ever left on it still
      leads to the same end, and the run that succeeds leaves exactly what one uncut recovery of the
      first disk would have left, up to evidence moved aside. */
  method RecoverThroughCuts(valid: Validator, disk: Disk, cuts: nat) returns (err: CupError)
    requires disk.Valid() && disk.Settled() && Recoverable(valid, disk.now)
    modifies disk`now, disk`temporaries, disk`log, disk`durable, disk`nextInode
    ensures disk.Valid() && Leads(valid, old(disk.now), disk.now)
    ensures forall k :: disk.durable <= k < |disk.log| ==> Leads(valid, old(disk.now), disk.log[k])
    ensures err == Ok ==> JournalFile !in disk.now && SameCore(disk.now, Settle(valid, old(disk.now)))
    ensures disk.reliable ==> err == Ok
  {
    hide Leads, Recoverable, Settle, SameCore;
    ghost var start := disk.now;
    LeadsSelf(valid, start);
    for i := 0 to cuts
      invariant disk.Valid() && disk.Settled() && Leads(valid, start, disk.now)
    {
      var from := disk.durable;
      err := RecoverOnward(valid, disk, start);
      var survivor: nat :| from <= survivor < |disk.log|;
      disk.PowerLoss(survivor);
    }
    err := RecoverOnward(valid, disk, start);
  }

  /** One recovery of a disk that still leads where `start` does. */
  method RecoverOnward(valid: Validator, disk: Disk, ghost start: World) returns (err: CupError)
    requires disk.Valid() && disk.Settled() && Recoverable(valid, start) && Leads(valid, start, disk.now)
    modifies disk`now, disk`temporaries, disk`log, disk`durable, disk`nextInode
    ensures disk.Valid() && disk.Grew() && Leads(valid, start, disk.now)
    ensures forall k :: old(disk.durable) <= k < |disk.log| ==> Leads(valid, start, disk.log[k])
    ensures err == Ok ==> JournalFile !in disk.now && SameCore(disk.now, Settle(valid, start))
    ensures disk.reliable ==> err == Ok
  {
    hide Leads, Recoverable, Settle, SameCore;
    ghost var here := disk.now;
    LeadsMeansSame(valid, start, here);
    err := Recover(valid, disk);
    forall w | Leads(valid, here, w) ensures Leads(valid, start, w) {
      LeadsTransitive(valid, start, here, w);
    }
    if err == Ok {
      SettledAlready(valid, disk.now);
      LeadsMeansSame(valid, start, disk.now);
    }
  }

  // ---- One transaction, cut and recovered ----

  lemma EndKeepsWithin(valid: Validator, before: World, id: Identity, goal: Doc, start: World, w: World)
    requires Within(valid, before, id, goal, start) && SameEnd(valid, start, w)
    ensures Within(valid, before, id, goal, w)
  {
    EndKeepsInv(valid, start, w);
    var reached, target := Settle(valid, w), Settle(valid, start);
    assert Look(reached, StateFile) == Look(target, StateFile);
    assert Look(w, StateFile) == Look(reached, StateFile) && Look(start, StateFile) == Look(target, StateFile);
    assert Look(reached, Package(id)) == Look(target, Package(id));
    forall q | q != id ensures Look(w, Package(q)) == Look(before, Package(q)) {
      assert Look(reached, Package(q)) == Look(target, Package(q));
      assert Look(w, Package(q)) == Look(reached, Package(q));
      assert Look(start, Package(q)) == Look(target, Package(q));
    }
  }

  /** Recovery never leaves the transaction it recovers. */
  lemma LeadsKeepsWithin(valid: Validator, before: World, id: Identity, goal: Doc, start: World, w: World)
    requires Within(valid, before, id, goal, start) && Leads(valid, start, w)
    ensures Within(valid, before, id, goal, w)
  {
    EndKeepsWithin(valid, before, id, goal, start, w);
  }

  /** A finished transaction: consistent, all or nothing, nothing else touched. */
  ghost predicate Resolved(valid: Validator, before: World, id: Identity, goal: Doc, w: World) {
    && Consistent(valid, w)
    && (forall q :: q != id ==> Look(w, Package(q)) == Look(before, Package(q)))
    && (StateOf(w) == Some(goal)
        || (StateOf(w) == StateOf(before) && Look(w, Package(id)) == Look(before, Package(id))))
  }

  /** What is left once a disk of the transaction has been recovered. */
  lemma RecoveredIsResolved(valid: Validator, before: World, id: Identity, goal: Doc, lost: World, w: World)
    requires Within(valid, before, id, goal, lost)
    requires Recoverable(valid, lost) && JournalFile !in w && SameCore(w, Settle(valid, lost))
    ensures Resolved(valid, before, id, goal, w) && StateOf(w) == StateOf(lost)
    ensures Quiet(before, lost) ==> Quiet(before, w)
  {
    SettledAlready(valid, w);
    EndKeepsWithin(valid, before, id, goal, lost, w);
    SettleIsConsistent(valid, lost);
    assert Look(w, StateFile) == Look(Settle(valid, lost), StateFile);
    if Quiet(before, lost) {
      forall q ensures Look(w, Package(q)) == Look(before, Package(q)) {
        assert Look(lost, Package(q)) == Look(before, Package(q));
      }
    }
  }

  lemma WithinIsRecoverable(valid: Validator, before: World, id: Identity, goal: Doc, w: World)
    requires Within(valid, before, id, goal, w)
    ensures Recoverable(valid, w) && Inv(valid, w)
  {}

  lemma ConsistentIsWithin(valid: Validator, w: World, id: Identity, goal: Doc)
    requires Consistent(valid, w)
    ensures Inv(valid, w) && Within(valid, w, id, goal, w) && JournalFile !in w && StateOf(w).Some? && Quiet(w, w)
  {}

  /** The outcome depends only on whether the replacement of state.txt landed: two disks of one
      transaction with the same state recover to the same state and the same set of packages. */
  lemma StateDecidesOutcome(valid: Validator, before: World, id: Identity, goal: Doc, a: World, b: World)
    requires Within(valid, before, id, goal, a) && Within(valid, before, id, goal, b) && StateOf(a) == StateOf(b)
    ensures Recoverable(valid, a) && Recoverable(valid, b)
    ensures StateOf(Settle(valid, a)) == StateOf(Settle(valid, b)) == StateOf(a)
    ensures forall q :: Package(q) in Settle(valid, a) <==> Package(q) in Settle(valid, b)
    ensures StateOf(a) == StateOf(before) ==> Look(Settle(valid, a), Package(id)) == Look(before, Package(id))
  {
    hide Settle, Recoverable, Healthy;
    SettleIsConsistent(valid, a);
    SettleIsConsistent(valid, b);
    var x, y := Settle(valid, a), Settle(valid, b);
    forall q ensures Package(q) in x <==> Package(q) in y {
      ConsistentAgrees(valid, x, q);
      ConsistentAgrees(valid, y, q);
    }
  }

  // ---- Removing what is not valid ----

  /** A package that is recorded and present but not valid can be removed, but the removal can be cut so
      that afterwards, even with nothing failing, recovery and repair refuse and leave the disk as it is. */
  method CutRemovalOfInvalid(valid: Validator, disk: Disk, package: Identity)
    returns (removed: CupError, recovered: CupError, repaired: CupError)
    requires disk.Valid() && disk.Settled() && disk.reliable
    requires Removable(disk.now, package) && !Healthy(valid, disk.now, Package(package), package)
    requires Movable(disk.now[Package(package)])
    requires StateFiles.Storable(RemoveGoal(StateOf(disk.now).value, package), disk.host)
    modifies disk`now, disk`temporaries, disk`log, disk`durable, disk`nextInode
    ensures removed == Ok && recovered != Ok && repaired != Ok
    ensures MidRemoval(old(disk.now), package, disk.now) && disk.log == [disk.now]
  {
    hide StateFiles.Storable, RemoveGoal, RemoveShape, Within, WellFormed, Settle, Recoverable, Leads, Healthy;
    var before, from := disk.now, disk.durable;
    var removal := new RemoveOperation(disk, valid, package);
    removed := removal.Execute();
    var k: nat :| from < k < |disk.log| && MidRemoval(before, package, disk.log[k]);
    disk.PowerLoss(k);
    recovered := Recover(valid, disk);
    var repair := new RepairOperation(disk, valid);
    repaired := repair.Execute(true);
  }

  /** A concrete disk on which that happens: one linker, recorded, whose tree no validator accepts. */
  method CorruptPackageBlocksRecovery() returns (removed: CupError, recovered: CupError, repaired: CupError)
    ensures removed == Ok && recovered != Ok && repaired != Ok
  {
    var id := Identity("linker", "ld", "linux-x64", "linux-x64", "1");
    var world := map[StateFile := Object(1, StateBody(Doc({id}, map[]))),
                     Package(id) := Object(2, PackageBody(Directory({})))];
    LinkerIsStorable(id);
    var disk := new Disk(world, "linux-x64", true);
    removed, recovered, repaired := CutRemovalOfInvalid((_, _) => false, disk, id);
  }

  lemma LinkerIsStorable(id: Identity)
    requires id == Identity("linker", "ld", "linux-x64", "linux-x64", "1")
    ensures WellFormed(Doc({id}, map[])) && StateFiles.Storable(RemoveGoal(Doc({id}, map[]), id), "linux-x64")
  {
    assert Versions.MarkerFrom("1", 0) == 1;
    assert Versions.NumericDotted("1", 0, 1);
    assert COMPONENTS[2] == "linker" && PLATFORMS[0] == "linux-x64" && TOOLS[5] == ("linker", "ld");
    assert RemoveGoal(Doc({id}, map[]), id) == Doc({}, map[]);
  }

  lemma LinkerFits(id: Identity)
    requires id == Identity("linker", "ld", "linux-x64", "linux-x64", "1") && WellFormed(Doc({id}, map[]))
    ensures StateFiles.Storable(Doc({id}, map[]), "linux-x64")
  {
    StateFiles.SetBytesRemove(false, {id}, id);
    assert {id} - {id} == {};
  }

  // ---- Repairing what cannot be read ----

  /** A repair that cannot read the state of a consistent disk completes, but cut in the right place it
      leaves no state at all: the invariant is broken, and commands that need the state refuse. */
  method CutUnreadableRepair(valid: Validator, disk: Disk, id: Identity) returns (repaired: CupError, refused: CupError)
    requires disk.Valid() && disk.Settled() && disk.reliable && Consistent(valid, disk.now)
    requires CanRepair(valid, disk.host, disk.now, false)
    modifies disk`now, disk`temporaries, disk`log, disk`durable, disk`nextInode
    ensures repaired == Ok && refused != Ok
    ensures StateFile !in disk.now && !Inv(valid, disk.now)
  {
    hide CanRepair, Issues, Aim, Repairing, Healed, Leads, Inv, SameRoot;
    SettledAlready(valid, disk.now);
    StateIsThere(valid, disk.now);
    ghost var before := disk.now;
    var from := disk.durable;
    var repair := new RepairOperation(disk, valid);
    repaired := repair.Execute(false);
    assert Look(repair.root, StateFile) == Look(before, StateFile);
    var k: nat :| from < k < |disk.log| && StateFile !in disk.log[k];
    disk.PowerLoss(k);
    NoStateNoInv(valid, disk.now);
    refused := SetDefault(disk, valid, id);
  }

  lemma StateIsThere(valid: Validator, w: World)
    requires Consistent(valid, w)
    ensures StateFile in w && JournalFile !in w
  {}

  lemma NoStateNoInv(valid: Validator, w: World)
    requires StateFile !in w
    ensures !Inv(valid, w) && !Admissible(w)
  {}

  /** A concrete disk on which that happens: one valid linker, which is the default. */
  method UnreadableStateIsLost() returns (repaired: CupError, refused: CupError)
    ensures repaired == Ok && refused != Ok
  {
    var id := Identity("linker", "ld", "linux-x64", "linux-x64", "1");
    var world := map[StateFile := Object(1, StateBody(Doc({id}, map[ScopeOf(id) := id]))),
                     Package(id) := Object(2, PackageBody(Directory({})))];
    var valid := (_, _) => true;
    LinkerCanBeFound(id, world, valid);
    var disk := new Disk(world, "linux-x64", true);
    repaired, refused := CutUnreadableRepair(valid, disk, id);
  }

  lemma LinkerCanBeFound(id: Identity, w: World, valid: Validator)
    requires id == Identity("linker", "ld", "linux-x64", "linux-x64", "1")
    requires w == map[StateFile := Object(1, StateBody(Doc({id}, map[ScopeOf(id) := id]))),
                      Package(id) := Object(2, PackageBody(Directory({})))]
    requires valid(id, {})
    ensures Consistent(valid, w) && CanRepair(valid, "linux-x64", w, false)
  {
    hide Found, Issues, StateFiles.DocBytes;
    LinkerIsStorable(id);
    forall q
      ensures Agrees(valid, w, q) && q !in Issues(valid, "linux-x64", w)
      ensures q in Found(valid, "linux-x64", w) <==> q == id
    {
      InScan(valid, "linux-x64", w, q);
    }
    AimWithoutState(valid, "linux-x64", w);
    assert Found(valid, "linux-x64", w) == {id} && Issues(valid, "linux-x64", w) == {};
    LinkerFits(id);
  }

  // ---- Arbitrary sessions ----

  datatype Command =
    | InstallCommand(request: Request, contents: seq<string>)
    | RemoveCommand(package: Identity)
    | DefaultCommand(id: Identity)
    | RecoverCommand
    | RepairCommand(readable: bool)

  /** A command runs to its end, or the power goes at some point during it. */
  datatype Event = Complete(command: Command) | Cut(command: Command)

  ghost predicate AllInv(valid: Validator, worlds: seq<World>) {
    forall k :: 0 <= k < |worlds| ==> Inv(valid, worlds[k])
  }

  /** The disks commands may meet: those of the invariant, and those that a repair has left without state. */
  ghost predicate Sound(valid: Validator, host: string, w: World) {
    Inv(valid, w) || Stateless(valid, host, w)
  }

  ghost predicate AllSound(valid: Validator, host: string, worlds: seq<World>) {
    forall k :: 0 <= k < |worlds| ==> Sound(valid, host, worlds[k])
  }

  ghost predicate AllLocal(host: string, worlds: seq<World>) {
    forall k :: 0 <= k < |worlds| ==> Local(host, worlds[k])
  }

  /** The worlds a command may show, whatever fails in it. */
  ghost predicate Shows(valid: Validator, host: string, command: Command, before: World, w: World) {
    match command
    case InstallCommand(r, _) =>
      && Consistent(valid, before) && Scanned(host, r.package)
      && Within(valid, before, r.package, InstallGoal(StateOf(before).value, r), w)
    case RemoveCommand(id) =>
      Consistent(valid, before) && Within(valid, before, id, RemoveGoal(StateOf(before).value, id), w)
    case DefaultCommand(id) => Consistent(valid, before) && (w == before || DefaultChanged(valid, before, id, w))
    case RecoverCommand => Recoverable(valid, before) && Leads(valid, before, w)
    case RepairCommand(readable) =>
      && Recoverable(valid, before)
      && (Leads(valid, before, w) || RepairShows(valid, host, readable, Settle(valid, before), w))
  }

  /** What success of a command means. */
  ghost predicate Achieves(valid: Validator, host: string, command: Command, before: World, after: World) {
    match command
    case InstallCommand(r, _) =>
      && Consistent(valid, before) && !Outdated(StateOf(before).value, r)
      && Consistent(valid, after) && StateOf(after) == Some(InstallGoal(StateOf(before).value, r))
    case RemoveCommand(id) =>
      && Consistent(valid, before) && Installed(before, id)
      && Consistent(valid, after) && StateOf(after) == Some(RemoveGoal(StateOf(before).value, id))
    case DefaultCommand(id) =>
      && Consistent(valid, before) && Installed(before, id)
      && Consistent(valid, after) && StateOf(after) == Some(WithDefault(StateOf(before).value, id))
    case RecoverCommand =>
      && Recoverable(valid, before) && SameCore(after, Settle(valid, before))
      && (Inv(valid, before) ==> Consistent(valid, after))
    case RepairCommand(readable) =>
      && Recoverable(valid, before) && Consistent(valid, after)
      && StateOf(after) == Some(Aim(valid, host, Settle(valid, before), readable))
      && RepairShows(valid, host, readable, Settle(valid, before), after)
  }

  /** When nothing but a failing disk can keep a command from succeeding. */
  ghost predicate Possible(valid: Validator, host: string, command: Command, before: World) {
    match command
    case InstallCommand(r, contents) =>
      && Consistent(valid, before) && Scanned(host, r.package)
      && CanInstall(valid, host, StateOf(before).value, r, contents)
    case RemoveCommand(id) =>
      && Consistent(valid, before) && Installed(before, id)
      && StateFiles.Storable(RemoveGoal(StateOf(before).value, id), host)
    case DefaultCommand(id) => CanDefault(host, before, id)
    case RecoverCommand => true
    case RepairCommand(readable) =>
      Recoverable(valid, before) && CanRepair(valid, host, Settle(valid, before), readable)
  }

  /** One command of a session: the log it found and the log it left, how far each was durable, what the
      command returned, and, if the power went during it, which world of its log survived. */
  datatype Moment = Moment(command: Command, start: seq<World>, floor: nat, log: seq<World>, durable: nat,
                           outcome: CupError, survivor: Option<nat>)
  {
    ghost predicate WellShaped() {
      && 0 < |start| <= |log| && floor < |start| && floor <= durable < |log|
      && (forall k :: 0 <= k < |start| ==> log[k] == start[k])
      && (survivor.Some? ==> floor <= survivor.value < |log|)
    }

    /** The disk the command found. */
    function Found(): World
      requires |start| > 0
    {
      start[|start| - 1]
    }

    /** The disk the command left, had the power not gone. */
    function Left(): World
      requires |log| > 0
    {
      log[|log| - 1]
    }

    function EndLog(): seq<World> {
      if survivor.Some? && survivor.value < |log| then [log[survivor.value]] else log
    }

    function EndDurable(): nat { if survivor.Some? then 0 else durable }
  }

  /** What one command does, whatever else has happened before it. */
  ghost predicate Lawful(valid: Validator, host: string, reliable: bool, m: Moment) {
    && m.WellShaped()
    && (forall k :: |m.start| <= k < |m.log| ==> Shows(valid, host, m.command, m.Found(), m.log[k]))
    && (m.outcome == Ok ==> Achieves(valid, host, m.command, m.Found(), m.Left()))
    && (m.outcome == Ok && StateOf(m.Left()) != StateOf(m.Found()) ==>
          forall k :: m.durable <= k < |m.log| ==> SameRoot(m.log[k], m.Left()))
    && (Plain(m.outcome) && !Recovers(m.command) ==> NothingHappened(m.start, m.log, m.durable))
    && (reliable ==> (m.outcome == Ok <==> Possible(valid, host, m.command, m.Found())))
  }

  /** Commands that begin with the recovery of what is pending. */
  predicate Recovers(command: Command) {
    command.RecoverCommand? || command.RepairCommand?
  }

  lemma SettledSame(m: Moment)
    requires m.WellShaped()
    ensures m.durable + 1 == |m.log| ==> forall k :: m.durable <= k < |m.log| ==> SameRoot(m.log[k], m.Left())
  {}

  /** Every command keeps the disks sound and local. The one world outside the invariant that a command can
      show is that of a repair which could not read the state, at the moment it has none. */
  lemma ShownIsSound(valid: Validator, host: string, command: Command, before: World, w: World)
    requires Sound(valid, host, before) && Shows(valid, host, command, before, w)
    requires command == RepairCommand(false) ==> Local(host, before)
    ensures Sound(valid, host, w) && (Local(host, before) ==> Local(host, w))
    ensures Inv(valid, before) && !Inv(valid, w) ==> command == RepairCommand(false) && Stateless(valid, host, w)
  {
    hide Inv, Stateless, Consistent, RepairShows, Leads, Recoverable, Settle;
    match command {
      case InstallCommand(r, _) =>
        ConsistentAgrees(valid, before, r.package);
        WithinIsLocal(valid, host, before, r.package, InstallGoal(StateOf(before).value, r), w);
      case RemoveCommand(id) =>
        ConsistentAgrees(valid, before, id);
        WithinIsLocal(valid, host, before, id, RemoveGoal(StateOf(before).value, id), w);
      case DefaultCommand(id) =>
      case RecoverCommand => LedIsSound(valid, host, before, w);
      case RepairCommand(readable) =>
        if Leads(valid, before, w) {
          LedIsSound(valid, host, before, w);
        } else {
          RepairedIsSound(valid, host, readable, before, w);
        }
    }
  }

  lemma WithinIsLocal(valid: Validator, host: string, before: World, id: Identity, goal: Doc, w: World)
    requires Consistent(valid, before) && Within(valid, before, id, goal, w)
    ensures Inv(valid, w)
    ensures Local(host, before) ==>
              (forall q :: q in goal.installed ==> q in StateOf(before).value.installed || q.host == host) ==>
                Local(host, w)
  {}

  lemma LedIsSound(valid: Validator, host: string, before: World, w: World)
    requires Sound(valid, host, before) && Recoverable(valid, before) && Leads(valid, before, w)
    ensures Sound(valid, host, w) && (Local(host, before) ==> Local(host, w)) && (Inv(valid, before) ==> Inv(valid, w))
  {
    hide Inv, Healthy;
    SameState(before, w);
    if Inv(valid, before) {
      LeadsKeepsInv(valid, before, w);
    } else {
      assert JournalFile !in w && Settle(valid, w) == w && Settle(valid, before) == before;
      assert Look(w, StateFile) == Look(before, StateFile);
      assert forall id :: Look(w, Package(id)) == Look(before, Package(id));
      StillFound(valid, host, before, w);
    }
  }

  lemma RepairedIsSound(valid: Validator, host: string, readable: bool, before: World, w: World)
    requires Sound(valid, host, before) && Recoverable(valid, before) && (!readable ==> Local(host, before))
    requires RepairShows(valid, host, readable, Settle(valid, before), w)
    ensures Sound(valid, host, w) && (Local(host, before) ==> Local(host, w))
    ensures Inv(valid, before) && !Inv(valid, w) ==> !readable && Stateless(valid, host, w)
  {
    var core := Settle(valid, before);
    CoreIsSound(valid, host, before);
    hide Inv, Stateless, Consistent, RepairShows, Recoverable, Settle;
    RepairKeeps(valid, host, readable, core, w);
    if Consistent(valid, w) {
      InvFromConsistent(valid, w);
    }
  }

  lemma CoreIsSound(valid: Validator, host: string, before: World)
    requires Sound(valid, host, before) && Recoverable(valid, before)
    ensures var core := Settle(valid, before);
            && (Inv(valid, before) ==> Consistent(valid, core) && StateOf(core) == StateOf(before))
            && (Stateless(valid, host, before) ==> core == before)
            && (Local(host, before) ==> Local(host, core))
            && Issues(valid, host, core) == {} && (StateFile in core ==> Loads(core))
  {
    hide Issues, Healthy, WellFormed;
    if Inv(valid, before) {
      SettleIsConsistent(valid, before);
      ConsistentIsTarget(valid, host, Settle(valid, before));
    } else {
      StatelessHasNoIssues(valid, host, before);
    }
  }

  lemma InvFromConsistent(valid: Validator, w: World)
    requires Consistent(valid, w)
    ensures Inv(valid, w)
  {}

  lemma LawfulKeepsSound(valid: Validator, host: string, reliable: bool, m: Moment)
    requires Lawful(valid, host, reliable, m) && AllSound(valid, host, m.start)
    requires m.command == RepairCommand(false) ==> AllLocal(host, m.start)
    ensures AllSound(valid, host, m.log) && (AllLocal(host, m.start) ==> AllLocal(host, m.log))
    ensures AllInv(valid, m.start) && m.command != RepairCommand(false) ==> AllInv(valid, m.log)
  {
    hide Sound, Inv, Shows, Achieves, Possible, NothingHappened, StateOf, SameRoot, Local, Stateless;
    forall k | |m.start| <= k < |m.log|
      ensures Sound(valid, host, m.log[k]) && (AllLocal(host, m.start) ==> Local(host, m.log[k]))
      ensures AllInv(valid, m.start) && m.command != RepairCommand(false) ==> Inv(valid, m.log[k])
    {
      assert AllLocal(host, m.start) ==> Local(host, m.Found());
      ShownIsSound(valid, host, m.command, m.Found(), m.log[k]);
    }
  }

  /** The moment of a complete command. */
  twostate function MomentOf(disk: Disk, command: Command, err: CupError): Moment
    reads disk
  {
    Moment(command, old(disk.log), old(disk.durable), disk.log, disk.durable, err, None)
  }

  /** An identity is built from registered names and the host of the disk. */
  method RunInstall(valid: Validator, disk: Disk, request: Request, contents: seq<string>) returns (err: CupError)
    requires disk.Valid() && (Admissible(disk.now) ==> Inv(valid, disk.now))
    modifies disk`now, disk`temporaries, disk`log, disk`durable, disk`nextInode
    ensures disk.Valid() && disk.Grew()
    ensures Lawful(valid, disk.host, disk.reliable, MomentOf(disk, InstallCommand(request, contents), err))
  {
    hide Inv, ValidIdentity, Consistent, Within, CanInstall, InstallGoal, Outdated;
    if !Scanned(disk.host, request.package) {
      return InvalidInput;
    }
    err := RunValidInstall(valid, disk, request, contents);
  }

  method RunValidInstall(valid: Validator, disk: Disk, request: Request, contents: seq<string>) returns (err: CupError)
    requires disk.Valid() && (Admissible(disk.now) ==> Inv(valid, disk.now)) && Scanned(disk.host, request.package)
    modifies disk`now, disk`temporaries, disk`log, disk`durable, disk`nextInode
    ensures disk.Valid() && disk.Grew()
    ensures Lawful(valid, disk.host, disk.reliable, MomentOf(disk, InstallCommand(request, contents), err))
  {
    hide Inv, Consistent, InstallGoal, Within, CanInstall, Outdated, ReferenceUnchanged, ValidIdentity, WellFormed,
         Quiet, Lawful, StateOf, Admissible;
    ConsistentIff(valid, disk.now);
    var operation := new InstallOperation(disk, valid, request);
    err := operation.Execute(contents);
    InstallIsLawful(valid, disk.host, disk.reliable, request, contents,
                    MomentOf(disk, InstallCommand(request, contents), err));
  }

  lemma InstallIsLawful(valid: Validator, host: string, reliable: bool, request: Request, contents: seq<string>,
                        m: Moment)
    requires m.WellShaped() && m.survivor.None? && m.command == InstallCommand(request, contents)
    requires Scanned(host, request.package) && (Consistent(valid, m.Found()) <==> Admissible(m.Found()))
    requires !Admissible(m.Found()) ==> m.outcome != Ok && m.log == m.start
    requires Admissible(m.Found()) ==>
               var d := StateOf(m.Found()).value;
               && (forall k :: |m.start| <= k < |m.log| ==>
                     Within(valid, m.Found(), request.package, InstallGoal(d, request), m.log[k]))
               && (reliable ==> (m.outcome == Ok <==> CanInstall(valid, host, d, request, contents)))
               && (Outdated(d, request) ==> m.outcome != Ok)
               && (m.outcome == Ok ==>
                     && Consistent(valid, m.Left()) && StateOf(m.Left()) == Some(InstallGoal(d, request))
                     && (InstallGoal(d, request) != d ==> m.durable + 1 == |m.log|))
    requires Plain(m.outcome) ==> NothingHappened(m.start, m.log, m.durable)
    ensures Lawful(valid, host, reliable, m)
  {
    hide Within, Consistent, InstallGoal, CanInstall, Outdated, WellFormed, ValidIdentity, NothingHappened, SameRoot;
    SettledSame(m);
  }

  /** Where the invariant holds of admissible disks, those are the consistent ones. */
  lemma ConsistentIff(valid: Validator, w: World)
    requires Admissible(w) ==> Inv(valid, w)
    ensures Consistent(valid, w) <==> Admissible(w)
  {}

  method RunRemove(valid: Validator, disk: Disk, package: Identity) returns (err: CupError)
    requires disk.Valid() && (Admissible(disk.now) ==> Inv(valid, disk.now))
    modifies disk`now, disk`temporaries, disk`log, disk`durable, disk`nextInode
    ensures disk.Valid() && disk.Grew()
    ensures Lawful(valid, disk.host, disk.reliable, MomentOf(disk, RemoveCommand(package), err))
  {
    hide Inv, Consistent, RemoveGoal, Within, RemoveShape, RecoverableIfValid, WellFormed, Removable,
         StateFiles.Storable, SameRoot, Admissible, NothingHappened;
    ConsistentIff(valid, disk.now);
    RemovableIf(valid, disk.now, package);
    var operation := new RemoveOperation(disk, valid, package);
    err := operation.Execute();
    ghost var moment := MomentOf(disk, RemoveCommand(package), err);
    assert moment.WellShaped() && moment.Found() == old(disk.now) && moment.Left() == disk.now;
    SettledSame(moment);
  }

  /** On a consistent disk every installed package can be removed. */
  lemma RemovableIf(valid: Validator, w: World, id: Identity)
    ensures Removable(w, id) ==> Admissible(w) && Installed(w, id)
    ensures Consistent(valid, w) && Installed(w, id) ==> Removable(w, id) && Movable(w[Package(id)])
  {
    assert Consistent(valid, w) ==> Agrees(valid, w, id);
  }

  method RunDefault(valid: Validator, disk: Disk, id: Identity) returns (err: CupError)
    requires disk.Valid() && (Admissible(disk.now) ==> Inv(valid, disk.now))
    modifies disk`now, disk`temporaries, disk`log, disk`durable, disk`nextInode
    ensures disk.Valid() && disk.Grew()
    ensures Lawful(valid, disk.host, disk.reliable, MomentOf(disk, DefaultCommand(id), err))
  {
    hide Inv, Consistent, WellFormed, CanDefault, Quiet, SameRoot, Admissible, Prefers;
    ConsistentIff(valid, disk.now);
    err := SetDefault(disk, valid, id);
    ghost var moment := MomentOf(disk, DefaultCommand(id), err);
    assert moment.WellShaped() && moment.Found() == old(disk.now) && moment.Left() == disk.now;
    SettledSame(moment);
  }

  method RunRecover(valid: Validator, disk: Disk) returns (err: CupError)
    requires disk.Valid() && Sound(valid, disk.host, disk.now)
    modifies disk`now, disk`temporaries, disk`log, disk`durable, disk`nextInode
    ensures disk.Valid() && disk.Grew()
    ensures Lawful(valid, disk.host, disk.reliable, MomentOf(disk, RecoverCommand, err))
  {
    hide Inv, Consistent, WellFormed, Leads, Settle, Recoverable, StateOf, SameCore, SameRoot, Stateless;
    ghost var start := disk.now;
    SoundIsRecoverable(valid, disk.host, start);
    err := Recover(valid, disk);
    if err == Ok {
      RecoveredIsTheSame(valid, start, disk.now);
      if Inv(valid, start) {
        SettledIsConsistent(valid, start, disk.now);
      }
    }
  }

  lemma SoundIsRecoverable(valid: Validator, host: string, w: World)
    requires Sound(valid, host, w)
    ensures Recoverable(valid, w) && (Admissible(w) ==> Inv(valid, w))
  {}

  /** Recovery never touches the state. */
  lemma RecoveredIsTheSame(valid: Validator, start: World, w: World)
    requires Recoverable(valid, start) && SameCore(w, Settle(valid, start))
    ensures StateOf(w) == StateOf(start)
  {
    assert Look(w, StateFile) == Look(Settle(valid, start), StateFile);
    assert Look(Settle(valid, start), StateFile) == Look(start, StateFile);
  }

  method RunRepair(valid: Validator, disk: Disk, readable: bool) returns (err: CupError)
    requires disk.Valid() && Sound(valid, disk.host, disk.now) && (!readable ==> Local(disk.host, disk.now))
    modifies disk`now, disk`temporaries, disk`log, disk`durable, disk`nextInode
    ensures disk.Valid() && disk.Grew()
    ensures Lawful(valid, disk.host, disk.reliable, MomentOf(disk, RepairCommand(readable), err))
  {
    hide Sound, Leads, Settle, Recoverable, StateOf, SameCore, SameRoot, CanRepair, Aim, Repairing, Healed, Unusable,
         Issues, RepairShows, Consistent, Local, Loads;
    SoundIsRecoverable(valid, disk.host, disk.now);
    ghost var start, core := disk.now, Settle(valid, disk.now);
    CoreIsSound(valid, disk.host, start);
    var operation := new RepairOperation(disk, valid);
    err := operation.Execute(readable);
    ghost var root := operation.root;
    if operation.RecoveredFrom(start) {
      forall w | Repairing(valid, disk.host, root, readable, w)
        ensures RepairShows(valid, disk.host, readable, core, w)
      {
        RepairingShows(valid, disk.host, root, readable, core, w);
      }
      RecoveredIsTheSame(valid, start, root);
      if err == Ok {
        CoreAim(valid, disk.host, root, core, readable);
        RepairAchieves(valid, disk.host, readable, start, root, disk.now);
      }
    }
    ghost var moment := MomentOf(disk, RepairCommand(readable), err);
    assert moment.WellShaped() && moment.Found() == old(disk.now) && moment.Left() == disk.now;
  }

  lemma RepairAchieves(valid: Validator, host: string, readable: bool, before: World, root: World, w: World)
    requires Sound(valid, host, before) && Recoverable(valid, before) && (!readable ==> Local(host, before))
    requires RepairShows(valid, host, readable, Settle(valid, before), w)
    requires Healed(valid, host, root, Aim(valid, host, Settle(valid, before), readable), w)
    ensures Consistent(valid, w) && StateOf(w) == Some(Aim(valid, host, Settle(valid, before), readable))
  {
    CoreIsSound(valid, host, before);
    hide Sound, Inv, Stateless, Consistent, RepairShows, Recoverable, Settle, Aim, Issues, Scanned, Stuck, Local;
    SoundCases(valid, host, before);
    RepairKeeps(valid, host, readable, Settle(valid, before), w);
  }

  lemma SoundCases(valid: Validator, host: string, w: World)
    requires Sound(valid, host, w)
    ensures Inv(valid, w) || Stateless(valid, host, w)
  {}

  lemma SettledIsConsistent(valid: Validator, start: World, w: World)
    requires Inv(valid, start) && Recoverable(valid, start) && JournalFile !in w && SameCore(w, Settle(valid, start))
    ensures Consistent(valid, w) && StateOf(w) == StateOf(start)
  {
    SettledAlready(valid, w);
    EndKeepsInv(valid, start, w);
    InvIsConsistent(valid, w);
    SettleIsConsistent(valid, start);
    assert Look(w, StateFile) == Look(Settle(valid, start), StateFile);
  }

  /** One locked command from any sound disk. */
  method RunCommand(valid: Validator, disk: Disk, command: Command) returns (err: CupError, ghost moment: Moment)
    requires disk.Valid() && AllSound(valid, disk.host, disk.log)
    requires command == RepairCommand(false) ==> AllLocal(disk.host, disk.log)
    modifies disk`now, disk`temporaries, disk`log, disk`durable, disk`nextInode
    ensures disk.Valid() && AllSound(valid, disk.host, disk.log) && disk.Grew()
    ensures AllLocal(disk.host, old(disk.log)) ==> AllLocal(disk.host, disk.log)
    ensures AllInv(valid, old(disk.log)) && command != RepairCommand(false) ==> AllInv(valid, disk.log)
    ensures moment == Moment(command, old(disk.log), old(disk.durable), disk.log, disk.durable, err, None)
    ensures Lawful(valid, disk.host, disk.reliable, moment)
  {
    hide Inv, Lawful, Sound, Local, Admissible;
    SoundIsRecoverable(valid, disk.host, disk.now);
    match command {
      case InstallCommand(request, contents) => err := RunInstall(valid, disk, request, contents);
      case RemoveCommand(package) => err := RunRemove(valid, disk, package);
      case DefaultCommand(id) => err := RunDefault(valid, disk, id);
      case RecoverCommand => err := RunRecover(valid, disk);
      case RepairCommand(readable) => err := RunRepair(valid, disk, readable);
    }
    moment := MomentOf(disk, command, err);
    LawfulKeepsSound(valid, disk.host, disk.reliable, moment);
  }

  // ---- One command cut anywhere ----

  /** Power loss in the middle of a command, or at any time after it returned, and then recovery through
      any number of further cuts. What every survivor has in common is still so afterwards. */
  method LoseAndRecover(valid: Validator, disk: Disk, floor: nat, cuts: nat, ghost before: World, ghost id: Identity,
                        ghost goal: Doc, ghost done: bool, ghost quiet: bool)
    returns (err: CupError, ghost at: nat)
    requires disk.Valid() && floor < |disk.log|
    requires forall k :: floor <= k < |disk.log| ==> Within(valid, before, id, goal, disk.log[k])
    requires done ==> forall k :: floor <= k < |disk.log| ==> StateOf(disk.log[k]) == Some(goal)
    requires quiet ==> forall k :: floor <= k < |disk.log| ==> Quiet(before, disk.log[k])
    modifies disk`now, disk`temporaries, disk`log, disk`durable, disk`nextInode
    ensures disk.Valid() && (disk.reliable ==> err == Ok)
    ensures floor <= at < |old(disk.log)| && Recoverable(valid, old(disk.log)[at])
    ensures err == Ok ==> SameCore(disk.now, Settle(valid, old(disk.log)[at]))
    ensures err == Ok ==> Resolved(valid, before, id, goal, disk.now)
    ensures err == Ok && done ==> StateOf(disk.now) == Some(goal)
    ensures err == Ok && quiet ==> Quiet(before, disk.now)
  {
    hide Within, Resolved, Leads, SameCore, Quiet, Inv, StateOf, Settle, Recoverable;
    var survivor: nat :| floor <= survivor < |disk.log|;
    at := survivor;
    disk.PowerLoss(survivor);
    ghost var lost := disk.now;
    WithinIsRecoverable(valid, before, id, goal, lost);
    err := RecoverThroughCuts(valid, disk, cuts);
    if err == Ok {
      RecoveredIsResolved(valid, before, id, goal, lost, disk.now);
    }
  }

  /** A transaction that changes nothing has reached its goal at every point. */
  lemma UnchangedIsDone(valid: Validator, before: World, id: Identity, goal: Doc, w: World)
    requires Within(valid, before, id, goal, w) && StateOf(before) == Some(goal)
    ensures StateOf(w) == Some(goal)
  {}

  /** The transaction of a command. */
  ghost predicate TransactionOf(command: Command, d: Doc, id: Identity, goal: Doc) {
    match command
    case InstallCommand(r, _) => id == r.package && goal == InstallGoal(d, r)
    case RemoveCommand(package) => id == package && goal == RemoveGoal(d, package)
    case DefaultCommand(_) => false
    case RecoverCommand => false
    case RepairCommand(_) => false
  }

  lemma FromLawful(valid: Validator, host: string, reliable: bool, m: Moment, k: nat)
    requires Lawful(valid, host, reliable, m) && k < |m.log|
    ensures k < |m.start| ==> m.log[k] == m.start[k]
    ensures k >= |m.start| ==> Shows(valid, host, m.command, m.Found(), m.log[k])
    ensures m.outcome == Ok ==> Achieves(valid, host, m.command, m.Found(), m.Left())
    ensures m.outcome == Ok && StateOf(m.Left()) != StateOf(m.Found()) && m.durable <= k ==>
              SameRoot(m.log[k], m.Left())
    ensures Plain(m.outcome) && !Recovers(m.command) ==> NothingHappened(m.start, m.log, m.durable)
  {
    hide Shows, Achieves, Possible, NothingHappened, StateOf, SameRoot;
  }

  lemma SurvivorIsWithin(valid: Validator, host: string, reliable: bool, m: Moment, id: Identity, goal: Doc, k: nat)
    requires Lawful(valid, host, reliable, m) && m.WellShaped() && m.floor + 1 == |m.start|
    requires Consistent(valid, m.Found()) && TransactionOf(m.command, StateOf(m.Found()).value, id, goal)
    requires m.floor <= k < |m.log|
    ensures Within(valid, m.Found(), id, goal, m.log[k])
  {
    hide Lawful, Within, StateOf, Consistent, InstallGoal, RemoveGoal, NothingHappened, Achieves, DefaultChanged, Leads,
         Recoverable, RepairShows, Scanned, SameRoot;
    ConsistentIsWithin(valid, m.Found(), id, goal);
    FromLawful(valid, host, reliable, m, k);
  }

  lemma SameRootSameState(a: World, b: World)
    requires SameRoot(a, b)
    ensures StateOf(a) == StateOf(b)
  {
    assert Look(a, StateFile) == Look(b, StateFile);
  }

  /** After a success that changed the state every survivor has the new one. */
  lemma SurvivorIsDone(valid: Validator, host: string, reliable: bool, m: Moment, id: Identity, goal: Doc, k: nat)
    requires Lawful(valid, host, reliable, m) && m.WellShaped() && m.outcome == Ok
    requires Consistent(valid, m.Found()) && TransactionOf(m.command, StateOf(m.Found()).value, id, goal)
    requires m.durable <= k < |m.log| && Within(valid, m.Found(), id, goal, m.log[k])
    ensures StateOf(m.log[k]) == Some(goal)
  {
    hide Lawful, Within, StateOf, Consistent, InstallGoal, RemoveGoal, NothingHappened, Shows, SameCore, Settle,
         Recoverable, Outdated, Installed, SameRoot, RepairShows;
    FromLawful(valid, host, reliable, m, k);
    assert StateOf(m.Left()) == Some(goal);
    if StateOf(m.Found()) == Some(goal) {
      UnchangedIsDone(valid, m.Found(), id, goal, m.log[k]);
    } else {
      SameRootSameState(m.log[k], m.Left());
    }
  }

  /** After a plain failure every survivor shows the root as it was. */
  lemma SurvivorIsQuiet(valid: Validator, host: string, reliable: bool, m: Moment, k: nat)
    requires Lawful(valid, host, reliable, m) && m.WellShaped() && m.floor + 1 == |m.start|
    requires JournalFile !in m.Found() && Plain(m.outcome) && !Recovers(m.command)
    requires m.durable <= k < |m.log|
    ensures Quiet(m.Found(), m.log[k])
  {
    hide Lawful, Shows, Achieves, Quiet, StateOf, SameRoot;
    FromLawful(valid, host, reliable, m, k);
    QuietSelf(m.Found());
  }

  lemma SurvivorsKeep(valid: Validator, host: string, reliable: bool, m: Moment, id: Identity, goal: Doc)
    requires Lawful(valid, host, reliable, m) && m.WellShaped() && m.floor + 1 == |m.start|
    requires Consistent(valid, m.Found()) && TransactionOf(m.command, StateOf(m.Found()).value, id, goal)
    ensures forall k :: m.floor <= k < |m.log| ==> Within(valid, m.Found(), id, goal, m.log[k])
    ensures m.outcome == Ok ==> forall k :: m.durable <= k < |m.log| ==> StateOf(m.log[k]) == Some(goal)
    ensures Plain(m.outcome) ==> forall k :: m.durable <= k < |m.log| ==> Quiet(m.Found(), m.log[k])
  {
    ConsistentIsWithin(valid, m.Found(), id, goal);
    assert !Recovers(m.command);
    hide Lawful, Within, Quiet, StateOf, Consistent, TransactionOf, Plain;
    forall k | m.floor <= k < |m.log|
      ensures Within(valid, m.Found(), id, goal, m.log[k])
      ensures m.outcome == Ok && m.durable <= k ==> StateOf(m.log[k]) == Some(goal)
      ensures Plain(m.outcome) && m.durable <= k ==> Quiet(m.Found(), m.log[k])
    {
      SurvivorIsWithin(valid, host, reliable, m, id, goal, k);
      if m.outcome == Ok && m.durable <= k {
        SurvivorIsDone(valid, host, reliable, m, id, goal, k);
      }
      if Plain(m.outcome) && m.durable <= k {
        SurvivorIsQuiet(valid, host, reliable, m, k);
      }
    }
  }

  /** An install cut anywhere, with its unconfirmed steps landed or not, and then recovered through any
      number of further cuts: what one uncut recovery makes of the surviving world of that very run, so the
      package is installed entirely or not at all. If the command had returned, its answer still holds:
      success is not lost, and a plain failure brings nothing back. */
  method InstallCutAnywhere(valid: Validator, disk: Disk, request: Request, contents: seq<string>,
                            returned: bool, cuts: nat)
    returns (outcome: CupError, err: CupError, ghost moment: Moment, ghost at: nat)
    requires disk.Valid() && disk.Settled() && Consistent(valid, disk.now) && ValidIdentity(request.package)
    modifies disk`now, disk`temporaries, disk`log, disk`durable, disk`nextInode
    ensures Lawful(valid, disk.host, disk.reliable, moment) && moment.command == InstallCommand(request, contents)
    ensures moment.start == old(disk.log) && moment.floor == old(disk.durable) && moment.outcome == outcome
    ensures (if returned then moment.durable else moment.floor) <= at < |moment.log|
    ensures Recoverable(valid, moment.log[at])
    ensures err == Ok ==> SameCore(disk.now, Settle(valid, moment.log[at]))
    ensures err == Ok ==>
              Resolved(valid, old(disk.now), request.package,
                       InstallGoal(StateOf(old(disk.now)).value, request), disk.now)
    ensures err == Ok && returned && outcome == Ok ==>
              StateOf(disk.now) == Some(InstallGoal(StateOf(old(disk.now)).value, request))
    ensures err == Ok && returned && Plain(outcome) ==> Quiet(old(disk.now), disk.now)
    ensures disk.reliable ==> err == Ok
  {
    hide Within, Resolved, Consistent, Inv, InstallGoal, Quiet, StateOf, Lawful, ValidIdentity, Settle, Recoverable,
         SameCore;
    ghost var before := disk.now;
    ConsistentAgrees(valid, before, request.package);
    ghost var id, goal := request.package, InstallGoal(StateOf(before).value, request);
    ConsistentIsWithin(valid, before, id, goal);
    var from := disk.durable;
    outcome := RunInstall(valid, disk, request, contents);
    moment := MomentOf(disk, InstallCommand(request, contents), outcome);
    assert moment.WellShaped() && moment.Found() == before;
    SurvivorsKeep(valid, disk.host, disk.reliable, moment, id, goal);
    var floor := if returned then disk.durable else from;
    err, at := LoseAndRecover(valid, disk, floor, cuts, before, id, goal,
                              returned && outcome == Ok, returned && Plain(outcome));
  }

  /** The same for a removal. */
  method RemoveCutAnywhere(valid: Validator, disk: Disk, package: Identity, returned: bool, cuts: nat)
    returns (outcome: CupError, err: CupError, ghost moment: Moment, ghost at: nat)
    requires disk.Valid() && disk.Settled() && Consistent(valid, disk.now)
    modifies disk`now, disk`temporaries, disk`log, disk`durable, disk`nextInode
    ensures Lawful(valid, disk.host, disk.reliable, moment) && moment.command == RemoveCommand(package)
    ensures moment.start == old(disk.log) && moment.floor == old(disk.durable) && moment.outcome == outcome
    ensures (if returned then moment.durable else moment.floor) <= at < |moment.log|
    ensures Recoverable(valid, moment.log[at])
    ensures err == Ok ==> SameCore(disk.now, Settle(valid, moment.log[at]))
    ensures err == Ok ==>
              Resolved(valid, old(disk.now), package, RemoveGoal(StateOf(old(disk.now)).value, package), disk.now)
    ensures err == Ok && returned && outcome == Ok ==>
              StateOf(disk.now) == Some(RemoveGoal(StateOf(old(disk.now)).value, package))
    ensures err == Ok && returned && Plain(outcome) ==> Quiet(old(disk.now), disk.now)
    ensures disk.reliable ==> err == Ok
  {
    hide Within, Resolved, Consistent, Inv, RemoveGoal, Quiet, StateOf, Lawful, ValidIdentity, Settle, Recoverable,
         SameCore;
    ghost var before := disk.now;
    ConsistentAgrees(valid, before, package);
    ghost var id, goal := package, RemoveGoal(StateOf(before).value, package);
    ConsistentIsWithin(valid, before, id, goal);
    var from := disk.durable;
    outcome := RunRemove(valid, disk, package);
    moment := MomentOf(disk, RemoveCommand(package), outcome);
    assert moment.WellShaped() && moment.Found() == before;
    SurvivorsKeep(valid, disk.host, disk.reliable, moment, id, goal);
    var floor := if returned then disk.durable else from;
    err, at := LoseAndRecover(valid, disk, floor, cuts, before, id, goal,
                              returned && outcome == Ok, returned && Plain(outcome));
  }

  // ---- Safety over every run ----

  /** State and components agree about every identity except possibly the one that a pending journal
      names, and recovery can always decide. */
  ghost predicate Safe(valid: Validator, w: World) {
    && Recoverable(valid, w) && Consistent(valid, Settle(valid, w))
    && (JournalFile !in w ==> Consistent(valid, w))
    && (forall id :: !Names(w, id) ==> Agrees(valid, w, id))
  }

  /** The log a moment begins with: what the moment before it left. */
  function LogBefore(moments: seq<Moment>, first: seq<World>, k: nat): seq<World>
    requires k <= |moments|
  {
    if k == 0 then first else moments[k - 1].EndLog()
  }

  function DurableBefore(moments: seq<Moment>, first: nat, k: nat): nat
    requires k <= |moments|
  {
    if k == 0 then first else moments[k - 1].EndDurable()
  }

  /** The k-th moment is a lawful one of the k-th event, and begins where the one before it ended. */
  ghost predicate Joined(valid: Validator, host: string, reliable: bool, event: Event, moments: seq<Moment>,
                         log: seq<World>, durable: nat, k: nat)
    requires k < |moments|
  {
    && Lawful(valid, host, reliable, moments[k])
    && moments[k].command == event.command && (moments[k].survivor.Some? <==> event.Cut?)
    && moments[k].start == LogBefore(moments, log, k) && moments[k].floor == DurableBefore(moments, durable, k)
  }

  /** The moments are those of the events, one after the other. */
  ghost predicate History(valid: Validator, host: string, reliable: bool, events: seq<Event>, moments: seq<Moment>,
                          log: seq<World>, durable: nat, n: nat)
    requires n <= |events|
  {
    |moments| == n && forall k :: 0 <= k < n ==> Joined(valid, host, reliable, events[k], moments, log, durable, k)
  }

  lemma HistoryGrows(valid: Validator, host: string, reliable: bool, events: seq<Event>, moments: seq<Moment>,
                     log: seq<World>, durable: nat, n: nat, m: Moment)
    requires n < |events| && History(valid, host, reliable, events, moments, log, durable, n)
    requires Lawful(valid, host, reliable, m) && m.command == events[n].command
    requires m.survivor.Some? <==> events[n].Cut?
    requires m.start == LogBefore(moments, log, n) && m.floor == DurableBefore(moments, durable, n)
    ensures History(valid, host, reliable, events, moments + [m], log, durable, n + 1)
    ensures LogBefore(moments + [m], log, n + 1) == m.EndLog()
    ensures DurableBefore(moments + [m], durable, n + 1) == m.EndDurable()
  {
    hide Lawful;
    var longer := moments + [m];
    forall k | 0 <= k < n + 1 ensures Joined(valid, host, reliable, events[k], longer, log, durable, k) {
      SameBefore(moments, m, log, durable, k);
      if k < n {
        assert Joined(valid, host, reliable, events[k], moments, log, durable, k);
      }
    }
  }

  lemma SameBefore(moments: seq<Moment>, m: Moment, log: seq<World>, durable: nat, k: nat)
    requires k <= |moments|
    ensures LogBefore(moments + [m], log, k) == LogBefore(moments, log, k)
    ensures DurableBefore(moments + [m], durable, k) == DurableBefore(moments, durable, k)
    ensures (moments + [m])[k] == if k < |moments| then moments[k] else m
  {}

  lemma LawfulIsShaped(valid: Validator, host: string, reliable: bool, m: Moment)
    ensures Lawful(valid, host, reliable, m) ==> m.WellShaped()
  {}

  method RunEvent(valid: Validator, disk: Disk, event: Event) returns (ghost moment: Moment)
    requires disk.Valid() && AllSound(valid, disk.host, disk.log)
    requires event.command == RepairCommand(false) ==> AllLocal(disk.host, disk.log)
    modifies disk`now, disk`temporaries, disk`log, disk`durable, disk`nextInode
    ensures disk.Valid() && AllSound(valid, disk.host, disk.log) && AllSound(valid, disk.host, moment.log)
    ensures AllLocal(disk.host, old(disk.log)) ==> AllLocal(disk.host, disk.log)
    ensures AllInv(valid, old(disk.log)) && event.command != RepairCommand(false) ==>
              AllInv(valid, disk.log) && AllInv(valid, moment.log)
    ensures Lawful(valid, disk.host, disk.reliable, moment)
    ensures moment.command == event.command && (moment.survivor.Some? <==> event.Cut?)
    ensures moment.start == old(disk.log) && moment.floor == old(disk.durable)
    ensures moment.EndLog() == disk.log && moment.EndDurable() == disk.durable
  {
    hide Inv, Sound, Local, Shows, Achieves, Possible, NothingHappened, StateOf, SameRoot;
    var from := disk.durable;
    var err;
    err, moment := RunCommand(valid, disk, event.command);
    if event.Cut? {
      var survivor: nat :| from <= survivor < |disk.log|;
      moment := moment.(survivor := Some(survivor));
      disk.PowerLoss(survivor);
    }
  }

  /** Every repair among the events can read the state. */
  predicate AllReadable(events: seq<Event>) {
    forall k :: 0 <= k < |events| ==> events[k].command != RepairCommand(false)
  }

  /** Any number of commands, each complete or cut: the whole log is accounted for, moment by moment,
      and every world ever shown is safe, or has lost its state to a repair that could not read it. */
  method RunSession(valid: Validator, disk: Disk, events: seq<Event>) returns (ghost moments: seq<Moment>)
    requires disk.Valid() && AllSound(valid, disk.host, disk.log)
    requires AllReadable(events) || AllLocal(disk.host, disk.log)
    modifies disk`now, disk`temporaries, disk`log, disk`durable, disk`nextInode
    ensures disk.Valid() && AllSound(valid, disk.host, disk.log)
    ensures History(valid, disk.host, disk.reliable, events, moments, old(disk.log), old(disk.durable), |events|)
    ensures disk.log == LogBefore(moments, old(disk.log), |events|)
    ensures disk.durable == DurableBefore(moments, old(disk.durable), |events|)
    ensures forall k, w :: 0 <= k < |events| && w in moments[k].log ==>
              Safe(valid, w) || Stateless(valid, disk.host, w)
    ensures AllReadable(events) && AllInv(valid, old(disk.log)) ==>
              forall k, w :: 0 <= k < |events| && w in moments[k].log ==> Safe(valid, w)
  {
    hide Inv, Stateless, Safe, Lawful, History, LogBefore, DurableBefore, Local;
    ghost var log, durable := disk.log, disk.durable;
    ghost var kept := AllReadable(events) && AllInv(valid, log);
    moments := [];
    EmptyHistory(valid, disk.host, disk.reliable, events, log, durable);
    for i := 0 to |events|
      invariant disk.Valid() && AllSound(valid, disk.host, disk.log) && |moments| == i
      invariant AllReadable(events) || AllLocal(disk.host, disk.log)
      invariant kept ==> AllInv(valid, disk.log) && forall j :: 0 <= j < i ==> AllInv(valid, moments[j].log)
      invariant History(valid, disk.host, disk.reliable, events, moments, log, durable, i)
      invariant forall j :: 0 <= j < i ==> AllSound(valid, disk.host, moments[j].log)
      invariant disk.log == LogBefore(moments, log, i) && disk.durable == DurableBefore(moments, durable, i)
    {
      ghost var moment := RunEvent(valid, disk, events[i]);
      HistoryGrows(valid, disk.host, disk.reliable, events, moments, log, durable, i, moment);
      moments := moments + [moment];
    }
    forall w | Inv(valid, w) ensures Safe(valid, w) {
      InvIsSafe(valid, w);
    }
  }

  lemma EmptyHistory(valid: Validator, host: string, reliable: bool, events: seq<Event>, log: seq<World>, durable: nat)
    ensures History(valid, host, reliable, events, [], log, durable, 0)
    ensures LogBefore([], log, 0) == log && DurableBefore([], durable, 0) == durable
  {}

  lemma InvIsSafe(valid: Validator, w: World)
    requires Inv(valid, w)
    ensures Safe(valid, w)
  {
    SettleIsConsistent(valid, w);
  }

  /** Some command among the moments from `i` to `k` showed this world. */
  ghost predicate ShownBetween(moments: seq<Moment>, i: nat, k: nat, w: World)
    requires k <= |moments|
  {
    exists j, p :: i < j < k && |moments[j].start| <= p < |moments[j].log| && moments[j].log[p] == w
  }

  /** Whatever a power loss can leave of this log is what moment `i` left, up to staging, or was shown later. */
  ghost predicate Retained(moments: seq<Moment>, i: nat, k: nat, log: seq<World>, floor: nat)
    requires i < k <= |moments| && moments[i].WellShaped()
  {
    forall n :: floor <= n < |log| ==> SameRoot(log[n], moments[i].Left()) || ShownBetween(moments, i, k, log[n])
  }

  lemma RetainedOn(moments: seq<Moment>, i: nat, k: nat)
    requires i < k < |moments| && moments[i].WellShaped() && moments[k].WellShaped()
    requires Retained(moments, i, k, moments[k].start, moments[k].floor)
    ensures Retained(moments, i, k + 1, moments[k].EndLog(), moments[k].EndDurable())
  {
    var m := moments[k];
    var end := m.EndLog();
    forall n | m.EndDurable() <= n < |end|
      ensures SameRoot(end[n], moments[i].Left()) || ShownBetween(moments, i, k + 1, end[n])
    {
      var at := if m.survivor.Some? then m.survivor.value else n;
      assert end[n] == moments[k].log[at] && m.floor <= at;
      if at < |m.start| {
        assert end[n] == m.start[at];
      }
    }
  }

  lemma HistoryAt(valid: Validator, host: string, reliable: bool, events: seq<Event>, moments: seq<Moment>,
                  log: seq<World>, durable: nat, k: nat)
    requires History(valid, host, reliable, events, moments, log, durable, |events|) && k < |moments|
    ensures Lawful(valid, host, reliable, moments[k]) && moments[k].WellShaped()
    ensures moments[k].survivor.Some? <==> events[k].Cut?
    ensures moments[k].start == LogBefore(moments, log, k) && moments[k].floor == DurableBefore(moments, durable, k)
  {
    hide Lawful, LogBefore, DurableBefore;
    assert Joined(valid, host, reliable, events[k], moments, log, durable, k);
    LawfulIsShaped(valid, host, reliable, moments[k]);
  }

  lemma RetainedAtOnce(valid: Validator, host: string, reliable: bool, moments: seq<Moment>, i: nat)
    requires i < |moments| && Lawful(valid, host, reliable, moments[i]) && moments[i].WellShaped()
    requires moments[i].survivor.None? && moments[i].outcome == Ok
    requires StateOf(moments[i].Left()) != StateOf(moments[i].Found())
    ensures Retained(moments, i, i + 1, moments[i].EndLog(), moments[i].EndDurable())
  {
    hide Shows, Achieves, Possible, NothingHappened, StateOf, ShownBetween;
  }

  /** An acknowledged change of the state is never lost: whatever later power losses leave, the disk is
      the one acknowledged, up to staging, or one that a later command showed. */
  lemma {:induction false} AcknowledgedStays(valid: Validator, host: string, reliable: bool, events: seq<Event>,
                                             moments: seq<Moment>, log: seq<World>, durable: nat, i: nat, k: nat)
    requires History(valid, host, reliable, events, moments, log, durable, |events|)
    requires i < k <= |moments| && events[i].Complete? && moments[i].outcome == Ok
    requires moments[i].WellShaped() && StateOf(moments[i].Left()) != StateOf(moments[i].Found())
    ensures Retained(moments, i, k, LogBefore(moments, log, k), DurableBefore(moments, durable, k))
    decreases k
  {
    hide History, StateOf, Lawful, Retained;
    HistoryAt(valid, host, reliable, events, moments, log, durable, k - 1);
    if k - 1 > i {
      AcknowledgedStays(valid, host, reliable, events, moments, log, durable, i, k - 1);
      RetainedOn(moments, i, k - 1);
    } else {
      RetainedAtOnce(valid, host, reliable, moments, i);
    }
  }
}
