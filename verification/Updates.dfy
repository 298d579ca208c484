/** Package update: a plan made from one snapshot, carried out item by item while other commands run
    in between, each item validated again under its own lock. */
module Updates {
  import opened Text
  import opened Domain
  import opened States
  import opened Disks
  import opened Recovery
  import opened Installs
  import opened Sessions
  import RepairCommands
  import Catalogs
  import Versions

  datatype Action = NoStable | Ahead | Equal | Newer

  datatype PlanItem = PlanItem(reference: Identity, previousDefault: Option<Identity>, action: Action, stable: string)

  datatype Filter = Everything | ComponentFilter(component: string) | ToolFilter(component: string, tool: string)

  /** `update_filter_matches`. */
  predicate Matches(f: Filter, id: Identity, host: string) {
    && id.host == host
    && match f
       case Everything => true
       case ComponentFilter(component) => id.component == component
       case ToolFilter(component, tool) => id.component == component && id.tool == tool
  }

  predicate SameSubject(a: Identity, b: Identity) {
    ScopeOf(a) == ScopeOf(b) && a.tool == b.tool
  }

  /** The release an item installs: the reference at the stable version. */
  function Target(item: PlanItem): Identity {
    item.reference.(version := item.stable)
  }

  /** The stable version the catalog resolves for the tool and scope of a release. */
  function StableFor(catalog: seq<Catalogs.Entry>, id: Identity): Option<string> {
    Catalogs.ResolveStable(catalog, Catalogs.Tuple(id.component, id.tool, id.host, id.target))
  }

  function ActionFor(reference: Identity, catalog: seq<Catalogs.Entry>): Action
    requires Versions.IsVersion(reference.version)
  {
    match StableFor(catalog, reference)
    case None => NoStable
    case Some(stable) =>
      var c := Versions.Cmp(stable, reference.version);
      if c < 0 then Ahead else if c == 0 then Equal else Newer
  }

  /** An item is what the snapshot calls for: its reference, default or not, and how the stable compares. */
  ghost predicate Planned(d: Doc, catalog: seq<Catalogs.Entry>, item: PlanItem)
    requires WellFormed(d)
  {
    && ValidIdentity(item.reference)
    && IsToolReference(d, ScopeOf(item.reference), item.reference.tool, item.reference, item.previousDefault.Some?)
    && (item.previousDefault.Some? ==> item.previousDefault.value == item.reference)
    && item.action == ActionFor(item.reference, catalog)
    && (item.action != NoStable ==> StableFor(catalog, item.reference) == Some(item.stable))
  }

  /** The usable stable record of the tool and scope of a release. */
  ghost predicate IsStableRecord(catalog: seq<Catalogs.Entry>, id: Identity, e: Catalogs.Entry) {
    && e in catalog && e.stable && Catalogs.Usable(e)
    && e.tuple == Catalogs.Tuple(id.component, id.tool, id.host, id.target)
  }

  /** What an item decides: an update exactly when the stable record is newer than the reference, nothing to
      fetch when it is the reference, and no update when it is older or when there is none. */
  ghost predicate Judged(catalog: seq<Catalogs.Entry>, item: PlanItem) {
    && (item.action == NoStable <==> forall e :: e in catalog ==> !IsStableRecord(catalog, item.reference, e))
    && forall e :: IsStableRecord(catalog, item.reference, e) ==>
         && item.stable == e.version
         && (item.action == Newer <==> Versions.IsOlder(item.reference.version, e.version))
         && (item.action == Equal <==> item.reference.version == e.version)
         && (item.action == Ahead <==> Versions.IsOlder(e.version, item.reference.version))
  }

  lemma PlannedIsJudged(d: Doc, catalog: seq<Catalogs.Entry>, item: PlanItem)
    requires WellFormed(d) && Planned(d, catalog, item) && Catalogs.Acceptable(catalog)
    ensures Judged(catalog, item)
  {
    hide IsToolReference, Versions.Cmp, Versions.Older, Versions.KeyOf, Catalogs.Acceptable, Catalogs.Usable,
         Catalogs.Operational, Catalogs.ResolveStable;
    var id := item.reference;
    var tuple := Catalogs.Tuple(id.component, id.tool, id.host, id.target);
    forall e ensures IsStableRecord(catalog, id, e) <==> e in catalog && Catalogs.IsStableOf(e, tuple) {
      Catalogs.OperationalIff(e);
    }
    forall e | e in catalog && Catalogs.IsStableOf(e, tuple)
      ensures StableFor(catalog, id) == Some(e.version) && Versions.IsVersion(e.version)
    {
      Catalogs.StableIsUniqueAndMaximal(catalog, tuple, e);
    }
    if StableFor(catalog, id).Some? {
      var stable := StableFor(catalog, id).value;
      Versions.CmpIsAge(stable, id.version);
      Versions.CmpZero(stable, id.version);
    }
  }

  /** One item per tool and scope, and exactly the tools and scopes the filter matches among what is installed. */
  ghost predicate CompletePlan(d: Doc, catalog: seq<Catalogs.Entry>, f: Filter, host: string, plan: seq<PlanItem>)
    requires WellFormed(d)
  {
    && (forall k :: 0 <= k < |plan| ==> Planned(d, catalog, plan[k]) && Matches(f, plan[k].reference, host))
    && (forall j, k :: 0 <= j < k < |plan| ==> !SameSubject(plan[j].reference, plan[k].reference))
    && (forall id :: id in d.installed && Matches(f, id, host)
                     ==> exists k :: 0 <= k < |plan| && SameSubject(plan[k].reference, id))
  }

  /** The item is about this tool for this host and target. */
  predicate IsFor(item: PlanItem, component: string, tool: string, host: string, target: string) {
    && item.reference.component == component && item.reference.tool == tool
    && item.reference.host == host && item.reference.target == target
  }

  lemma SubjectIff(item: PlanItem, id: Identity)
    ensures SameSubject(item.reference, id) <==> IsFor(item, id.component, id.tool, id.host, id.target)
  {}

  // ---- Building the plan ----

  method FindItem(plan: seq<PlanItem>, id: Identity, host: string) returns (index: int)
    requires id.host == host && forall k :: 0 <= k < |plan| ==> plan[k].reference.host == host
    ensures -1 <= index < |plan|
    ensures index >= 0 ==> SameSubject(plan[index].reference, id)
    ensures index < 0 ==> forall k :: 0 <= k < |plan| ==> !SameSubject(plan[k].reference, id)
  {
    for i := 0 to |plan|
      invariant forall k :: 0 <= k < i ==> !SameSubject(plan[k].reference, id)
    {
      var r := plan[i].reference;
      if r.component == id.component && r.tool == id.tool && r.target == id.target {
        return i;
      }
    }
    return -1;
  }

  /** `update_plan_add` for a subject not yet planned. */
  method MakeItem(state: CupState, catalog: seq<Catalogs.Entry>, id: Identity) returns (err: CupError, item: PlanItem)
    requires state.Valid() && id in state.installed
    ensures err == Ok && WellFormed(state.Contents())
    ensures Planned(state.Contents(), catalog, item) && SameSubject(item.reference, id)
  {
    ValidListsAreWellFormed(state.installed, state.defaults);
    var reference, isDefault;
    err, reference, isDefault := state.GetToolReference(ScopeOf(id), id.tool);
    ReferenceIsValid(state.Contents(), ScopeOf(id), id.tool, reference, isDefault);
    hide IsToolReference, ValidIdentity, WellFormed;
    var action := ActionFor(reference, catalog);
    var stable := StableFor(catalog, reference);
    item := PlanItem(reference, if isDefault then Some(reference) else None, action,
                     if stable.Some? then stable.value else "");
  }

  lemma ReferenceIsValid(d: Doc, s: Scope, tool: string, r: Identity, isDefault: bool)
    requires WellFormed(d) && IsToolReference(d, s, tool, r, isDefault)
    ensures ValidIdentity(r) && Versions.IsVersion(r.version) && ScopeOf(r) == s && r.tool == tool && r in d.installed
  {}

  /** `update_plan_build`: one pass over the installed records. */
  method BuildPlan(state: CupState, catalog: seq<Catalogs.Entry>, f: Filter, host: string)
    returns (err: CupError, plan: seq<PlanItem>)
    requires state.Valid()
    ensures err == Ok && WellFormed(state.Contents()) && CompletePlan(state.Contents(), catalog, f, host, plan)
    ensures Catalogs.Acceptable(catalog) ==>
              forall k :: 0 <= k < |plan| ==> Judged(catalog, plan[k])
    ensures forall id :: id in state.installed ==>
              ((exists k :: 0 <= k < |plan| && IsFor(plan[k], id.component, id.tool, id.host, id.target)) <==>
                 && id.host == host && (f == Everything || f.component == id.component)
                 && (f.ToolFilter? ==> f.tool == id.tool))
  {
    hide Planned, DefaultMap, WellFormed, ValidIdentity, CompletePlan, Covers, Judged, Catalogs.Acceptable;
    ValidListsAreWellFormed(state.installed, state.defaults);
    ghost var d := state.Contents();
    err, plan := Ok, [];
    NothingCovered(f, host);
    for i := 0 to |state.installed|
      invariant err == Ok && forall k :: 0 <= k < |plan| ==> Planned(d, catalog, plan[k])
      invariant forall k :: 0 <= k < |plan| ==> plan[k].reference.host == host
      invariant Covers(state.installed[..i], f, host, plan)
    {
      var id := state.installed[i];
      assert state.installed[..i + 1] == state.installed[..i] + [id];
      if !Matches(f, id, host) {
        PlanSkips(state.installed[..i], id, f, host, plan);
        continue;
      }
      var index := FindItem(plan, id, host);
      if index < 0 {
        var item;
        err, item := MakeItem(state, catalog, id);
        PlanGrows(state.installed[..i], id, f, host, plan, item);
        plan := plan + [item];
      } else {
        PlanCovers(state.installed[..i], id, f, host, plan, index);
      }
    }
    assert state.installed[..|state.installed|] == state.installed;
    CoversAll(d, catalog, state.installed, f, host, plan);
    CompleteMeans(d, catalog, f, host, plan);
  }

  lemma CompleteMeans(d: Doc, catalog: seq<Catalogs.Entry>, f: Filter, host: string, plan: seq<PlanItem>)
    requires WellFormed(d) && CompletePlan(d, catalog, f, host, plan)
    ensures Catalogs.Acceptable(catalog) ==>
              forall k :: 0 <= k < |plan| ==> Judged(catalog, plan[k])
    ensures forall id :: id in d.installed ==>
              ((exists k :: 0 <= k < |plan| && IsFor(plan[k], id.component, id.tool, id.host, id.target)) <==>
                 && id.host == host && (f == Everything || f.component == id.component)
                 && (f.ToolFilter? ==> f.tool == id.tool))
  {
    hide Planned, WellFormed, Judged, Catalogs.Acceptable, Versions.IsVersion;
    if Catalogs.Acceptable(catalog) {
      forall k | 0 <= k < |plan| ensures Judged(catalog, plan[k]) {
        PlannedIsJudged(d, catalog, plan[k]);
      }
    }
    forall k, id | 0 <= k < |plan|
      ensures SameSubject(plan[k].reference, id) <==> IsFor(plan[k], id.component, id.tool, id.host, id.target)
    {
      SubjectIff(plan[k], id);
    }
  }

  lemma NothingCovered(f: Filter, host: string)
    ensures Covers([], f, host, [])
  {}

  lemma CoversAll(d: Doc, catalog: seq<Catalogs.Entry>, installed: seq<Identity>, f: Filter, host: string,
                  plan: seq<PlanItem>)
    requires WellFormed(d) && d.installed == Members(installed)
    requires Covers(installed, f, host, plan) && forall k :: 0 <= k < |plan| ==> Planned(d, catalog, plan[k])
    ensures CompletePlan(d, catalog, f, host, plan)
  {
    hide Planned, Matches, SameSubject, WellFormed;
  }

  /** One item per subject, and one for every matching record seen so far. */
  ghost predicate Covers(seen: seq<Identity>, f: Filter, host: string, plan: seq<PlanItem>) {
    && (forall k :: 0 <= k < |plan| ==> Matches(f, plan[k].reference, host))
    && (forall j, k :: 0 <= j < k < |plan| ==> !SameSubject(plan[j].reference, plan[k].reference))
    && (forall m :: 0 <= m < |seen| && Matches(f, seen[m], host)
                    ==> exists k :: 0 <= k < |plan| && SameSubject(plan[k].reference, seen[m]))
  }

  lemma PlanSkips(seen: seq<Identity>, id: Identity, f: Filter, host: string, plan: seq<PlanItem>)
    requires Covers(seen, f, host, plan) && !Matches(f, id, host)
    ensures Covers(seen + [id], f, host, plan)
  {
    hide Matches, SameSubject;
  }

  lemma PlanCovers(seen: seq<Identity>, id: Identity, f: Filter, host: string, plan: seq<PlanItem>, index: nat)
    requires Covers(seen, f, host, plan) && index < |plan| && SameSubject(plan[index].reference, id)
    ensures Covers(seen + [id], f, host, plan)
  {
    hide Matches, SameSubject;
  }

  lemma PlanGrows(seen: seq<Identity>, id: Identity, f: Filter, host: string, plan: seq<PlanItem>, item: PlanItem)
    requires Covers(seen, f, host, plan) && Matches(f, id, host) && SameSubject(item.reference, id)
    requires forall k :: 0 <= k < |plan| ==> !SameSubject(plan[k].reference, id)
    ensures Covers(seen + [id], f, host, plan + [item])
  {
    var longer := plan + [item];
    assert forall k :: 0 <= k < |plan| ==> longer[k] == plan[k];
    assert longer[|plan|] == item;
    assert Matches(f, item.reference, host);
    forall k | 0 <= k < |plan| ensures !SameSubject(plan[k].reference, item.reference) {
    }
    hide Matches, SameSubject;
    forall m | 0 <= m < |seen + [id]| && Matches(f, (seen + [id])[m], host)
      ensures exists k :: 0 <= k < |longer| && SameSubject(longer[k].reference, (seen + [id])[m])
    {
      if m < |seen| {
        var k :| 0 <= k < |plan| && SameSubject(plan[k].reference, seen[m]);
        assert SameSubject(longer[k].reference, seen[m]);
      } else {
        assert SameSubject(longer[|plan|].reference, id);
      }
    }
  }

  // ---- What carrying out an item may change ----

  /** The request an item turns into: its package, and everything the plan relied on. */
  function RequestOf(item: PlanItem): Request {
    Request(Target(item), true, Some(item.reference), item.previousDefault)
  }

  /** From one state to another, an update of this item keeps every release and every other default;
      its own default moves, if at all, from the planned release to a newer one of the same tool. */
  ghost predicate UpdateKeeps(before: Doc, item: PlanItem, after: Doc)
    requires Versions.IsVersion(item.reference.version) && Versions.IsVersion(item.stable)
  {
    && before.installed <= after.installed <= before.installed + {Target(item)}
    && before.defaults.Keys == after.defaults.Keys
    && (forall s :: s in before.defaults && after.defaults[s] != before.defaults[s] ==>
          && item.previousDefault == Some(item.reference) == Some(before.defaults[s])
          && after.defaults[s] == Target(item) && SameSubject(Target(item), item.reference)
          && Versions.Cmp(item.reference.version, item.stable) < 0)
    && (item.action == Equal ==> after == before)
  }

  lemma KeepsSame(d: Doc, item: PlanItem)
    requires Versions.IsVersion(item.reference.version) && Versions.IsVersion(item.stable)
    ensures UpdateKeeps(d, item, d)
  {}

  /** What makes an item of a plan actionable, whatever became of the snapshot since. */
  predicate Actionable(item: PlanItem) {
    && ValidIdentity(item.reference) && Versions.IsVersion(item.stable)
    && (item.previousDefault.Some? ==> item.previousDefault.value == item.reference)
    && (item.action == Equal ==> item.stable == item.reference.version)
    && (item.action == Newer ==> Versions.Cmp(item.stable, item.reference.version) > 0)
    && (item.action == Equal || item.action == Newer)
  }

  lemma PlannedIsActionable(d: Doc, catalog: seq<Catalogs.Entry>, item: PlanItem)
    requires WellFormed(d) && Planned(d, catalog, item)
    requires item.action == Equal || item.action == Newer
    ensures Actionable(item)
  {
    hide IsToolReference, Versions.Cmp;
    Versions.CmpZero(item.stable, item.reference.version);
  }

  /** An item is carried out: its target is recorded, it is the default of its scope if the planned release
      was, and nothing else has changed. */
  ghost predicate Carried(before: Doc, item: PlanItem, after: Doc) {
    var s := ScopeOf(item.reference);
    && after.installed == before.installed + {Target(item)}
    && before.defaults.Keys == after.defaults.Keys
    && (item.previousDefault.Some? ==> s in after.defaults && after.defaults[s] == Target(item))
    && forall o :: o in before.defaults && (o != s || item.previousDefault.None?) ==>
         after.defaults[o] == before.defaults[o]
  }

  /** The goal of an item at any later state from which its reference has not changed. */
  lemma GoalKeeps(d: Doc, item: PlanItem)
    requires WellFormed(d) && Actionable(item) && !Outdated(d, RequestOf(item))
    ensures UpdateKeeps(d, item, InstallGoal(d, RequestOf(item)))
    ensures Carried(d, item, InstallGoal(d, RequestOf(item)))
  {
    hide Versions.Cmp, Versions.IsVersion;
    var r, reference := RequestOf(item), item.reference;
    var goal, s := InstallGoal(d, r), ScopeOf(reference);
    VersionsAreValid(item);
    Versions.CmpSwap(item.stable, reference.version);
    ReferenceIsValid(d, s, reference.tool, reference, item.previousDefault.Some?);
    assert !ScopeIsEmpty(d, s);
    if item.action == Equal {
      assert Target(item) == reference;
    }
  }

  lemma VersionsAreValid(item: PlanItem)
    requires Actionable(item)
    ensures Versions.IsVersion(item.reference.version) && Versions.IsVersion(item.stable)
    ensures ValidIdentity(Target(item))
  {}

  /** A later state is either the one before or the goal: both keep what an update must keep. */
  lemma WithinKeeps(valid: Validator, before: World, item: PlanItem, w: World)
    requires StateOf(before).Some? && WellFormed(StateOf(before).value) && Actionable(item)
    requires !Outdated(StateOf(before).value, RequestOf(item))
    requires Within(valid, before, Target(item), InstallGoal(StateOf(before).value, RequestOf(item)), w)
    ensures StateOf(w).Some? && Versions.IsVersion(item.reference.version) && Versions.IsVersion(item.stable)
    ensures UpdateKeeps(StateOf(before).value, item, StateOf(w).value)
  {
    hide Inv, InstallGoal, Versions.IsVersion, Versions.Cmp, UpdateKeeps, Settle, Carried;
    VersionsAreValid(item);
    GoalKeeps(StateOf(before).value, item);
    KeepsSame(StateOf(before).value, item);
  }

  // ---- Carrying out the plan ----

  /** One executed item: where in the log it begins, the disk it started from, everything shown since,
      and what it returned. */
  datatype Turn = Turn(item: PlanItem, contents: seq<string>, at: nat, before: World, shown: seq<World>,
                       outcome: CupError)
  {
    function After(): World { if shown == [] then before else shown[|shown| - 1] }

    /** The turn is that part of this log. */
    ghost predicate In(log: seq<World>) {
      0 < at <= at + |shown| <= |log| && log[at - 1] == before && log[at..at + |shown|] == shown
    }
  }

  ghost predicate TurnKeeps(t: Turn) {
    && Actionable(t.item) && (t.shown != [] ==> Admissible(t.before))
    && forall k :: 0 <= k < |t.shown| ==>
         StateOf(t.shown[k]).Some? && UpdateKeeps(StateOf(t.before).value, t.item, StateOf(t.shown[k]).value)
  }

  /** What the answer of a turn means: without a valid state, or with a transaction pending, it fails and
      shows nothing. Otherwise success is the goal of the item at the state it found, an item is
      skipped only when its reference is gone and then shows nothing, any other plain failure leaves the
      root as it was; and where nothing fails, it succeeds exactly when it can. */
  ghost predicate TurnAnswers(valid: Validator, host: string, reliable: bool, t: Turn) {
    if !Admissible(t.before) then !GoesOn(t.outcome) && t.shown == []
    else
      var d, request := StateOf(t.before).value, RequestOf(t.item);
      && (Outdated(d, request) ==> t.outcome != Ok && t.shown == [])
      && (t.outcome == NotInstalled ==> Outdated(d, request))
      && (t.outcome == Ok ==>
            && Consistent(valid, t.After()) && StateOf(t.After()) == Some(InstallGoal(d, request))
            && Carried(d, t.item, StateOf(t.After()).value))
      && (Plain(t.outcome) ==> t.After() == t.before || Quiet(t.before, t.After()))
      && (reliable ==>
            && (t.outcome == Ok <==> CanInstall(valid, host, d, request, t.contents))
            && (t.outcome == NotInstalled <==> Outdated(d, request)))
  }

  /** The loop goes on after success and after a skip. */
  predicate GoesOn(err: CupError) {
    err == Ok || err == NotInstalled
  }

  /** `package_install_update_artifact` for one item, from whatever state the disk is in by now. */
  method ExecuteItem(valid: Validator, disk: Disk, item: PlanItem, contents: seq<string>)
    returns (err: CupError, ghost turn: Turn)
    requires disk.Valid() && AllSound(valid, disk.host, disk.log) && Actionable(item)
    modifies disk`now, disk`temporaries, disk`log, disk`durable, disk`nextInode
    ensures disk.Valid() && AllSound(valid, disk.host, disk.log) && disk.Grew()
    ensures AllLocal(disk.host, old(disk.log)) && item.reference.host == disk.host ==> AllLocal(disk.host, disk.log)
    ensures turn == Turn(item, contents, |old(disk.log)|, old(disk.now), disk.log[|old(disk.log)|..], err)
    ensures TurnKeeps(turn) && TurnAnswers(valid, disk.host, disk.reliable, turn)
  {
    hide Inv, Consistent, InstallGoal, Versions.IsVersion, Versions.Cmp, UpdateKeeps, ReferenceUnchanged,
         ValidIdentity, CanInstall, Quiet, Outdated, WellFormed, Within, Actionable, RepairCommands.Stateless,
         RepairCommands.Local, Carried, Plain;
    ghost var before := disk.now;
    ghost var start := |disk.log|;
    VersionsAreValid(item);
    SoundIsRecoverable(valid, disk.host, before);
    var operation := new InstallOperation(disk, valid, RequestOf(item));
    err := operation.Execute(contents);
    turn := Turn(item, contents, start, before, disk.log[start..], err);
    hide StateOf;
    if Admissible(before) && !Outdated(StateOf(before).value, RequestOf(item)) {
      GoalKeeps(StateOf(before).value, item);
    }
    assert turn.After() == disk.now;
    if Admissible(before) && !Outdated(StateOf(before).value, RequestOf(item)) {
      forall w | Within(valid, before, Target(item), InstallGoal(StateOf(before).value, RequestOf(item)), w)
        ensures StateOf(w).Some? && UpdateKeeps(StateOf(before).value, item, StateOf(w).value)
        ensures Inv(valid, w)
        ensures RepairCommands.Local(disk.host, before) && item.reference.host == disk.host ==>
                  RepairCommands.Local(disk.host, w)
      {
        WithinKeeps(valid, before, item, w);
        WithinHasInv(valid, before, Target(item), InstallGoal(StateOf(before).value, RequestOf(item)), w);
        KeepsLocal(disk.host, before, item, w);
      }
    }
  }

  lemma KeepsLocal(host: string, before: World, item: PlanItem, w: World)
    requires StateOf(before).Some? && StateOf(w).Some?
    requires Versions.IsVersion(item.reference.version) && Versions.IsVersion(item.stable)
    requires UpdateKeeps(StateOf(before).value, item, StateOf(w).value)
    ensures RepairCommands.Local(host, before) && item.reference.host == host ==> RepairCommands.Local(host, w)
  {}

  lemma WithinHasInv(valid: Validator, before: World, id: Identity, goal: Doc, w: World)
    requires Within(valid, before, id, goal, w)
    ensures Inv(valid, w)
  {}

  /** Every repair among the commands can read the state. */
  predicate Readable(commands: seq<Command>) {
    RepairCommand(false) !in commands
  }

  method RunOthers(valid: Validator, disk: Disk, commands: seq<Command>)
    requires disk.Valid() && AllSound(valid, disk.host, disk.log)
    requires Readable(commands) || AllLocal(disk.host, disk.log)
    modifies disk`now, disk`temporaries, disk`log, disk`durable, disk`nextInode
    ensures disk.Valid() && AllSound(valid, disk.host, disk.log) && disk.Grew()
    ensures AllLocal(disk.host, old(disk.log)) ==> AllLocal(disk.host, disk.log)
    ensures commands == [] ==> disk.now == old(disk.now) && disk.log == old(disk.log)
  {
    hide AllSound, AllLocal, Lawful;
    for k := 0 to |commands|
      invariant disk.Valid() && AllSound(valid, disk.host, disk.log) && disk.Grew()
      invariant AllLocal(disk.host, old(disk.log)) ==> AllLocal(disk.host, disk.log)
      invariant commands == [] ==> disk.now == old(disk.now) && disk.log == old(disk.log)
    {
      var err;
      ghost var moment;
      err, moment := RunCommand(valid, disk, commands[k]);
    }
  }

  /** The items that are carried out rather than skipped, among the first `n`. */
  function Attempts(plan: seq<PlanItem>, n: nat): (r: seq<nat>)
    requires n <= |plan|
    ensures forall k :: 0 <= k < |r| ==> r[k] < n
  {
    if n == 0 then []
    else
      var before := Attempts(plan, n - 1);
      if plan[n - 1].action == Equal || plan[n - 1].action == Newer then before + [n - 1] else before
  }

  /** The turns are just these items of the plan, in this order. */
  ghost predicate Carries(turns: seq<Turn>, plan: seq<PlanItem>, contents: seq<seq<string>>, indices: seq<nat>)
    requires |contents| == |plan| && forall k :: 0 <= k < |indices| ==> indices[k] < |plan|
  {
    && |turns| == |indices|
    && forall k :: 0 <= k < |turns| ==> turns[k].item == plan[indices[k]] && turns[k].contents == contents[indices[k]]
  }

  /** The turns follow one another in the log, from position `from` on. */
  ghost predicate Ordered(turns: seq<Turn>, log: seq<World>, from: nat) {
    && (forall k :: 0 <= k < |turns| ==> from <= turns[k].at && turns[k].In(log))
    && (forall j, k :: 0 <= j < k < |turns| ==> turns[j].at + |turns[j].shown| <= turns[k].at)
  }

  /** The items of one snapshot, one per tool and scope. */
  ghost predicate OneEach(d: Doc, catalog: seq<Catalogs.Entry>, plan: seq<PlanItem>)
    requires WellFormed(d)
  {
    && (forall k :: 0 <= k < |plan| ==> Planned(d, catalog, plan[k]))
    && forall j, k :: 0 <= j < k < |plan| ==> !SameSubject(plan[j].reference, plan[k].reference)
  }

  predicate IsAttempted(item: PlanItem) {
    item.action == Equal || item.action == Newer
  }

  /** The target of an item is recorded, and is the default of its scope if the planned release was. */
  predicate IsDone(d: Doc, item: PlanItem) {
    && Target(item) in d.installed
    && (item.previousDefault.Some? ==>
          ScopeOf(item.reference) in d.defaults && d.defaults[ScopeOf(item.reference)] == Target(item))
  }

  /** After `n` items that nothing disturbed: what was attempted is done, and every later item still finds the
      reference it was planned for. */
  ghost predicate Advanced(plan: seq<PlanItem>, n: nat, d: Doc) {
    && WellFormed(d) && n <= |plan|
    && (forall k :: 0 <= k < n && IsAttempted(plan[k]) ==> IsDone(d, plan[k]))
    && (forall k :: n <= k < |plan| ==> StillPlanned(d, plan[k]))
  }

  /** The same of a disk. */
  ghost predicate Undisturbed(plan: seq<PlanItem>, n: nat, w: World) {
    StateOf(w).Some? && Advanced(plan, n, StateOf(w).value)
  }

  /** Nothing else runs, and the disk is the one the plan was made of. */
  ghost predicate Alone(d: Doc, catalog: seq<Catalogs.Entry>, plan: seq<PlanItem>, others: seq<seq<Command>>, w: World)
    requires WellFormed(d)
  {
    (forall k :: 0 <= k < |others| ==> others[k] == []) && OneEach(d, catalog, plan) && StateOf(w) == Some(d)
  }

  ghost predicate StillPlanned(d: Doc, item: PlanItem)
    requires WellFormed(d)
  {
    IsToolReference(d, ScopeOf(item.reference), item.reference.tool, item.reference, item.previousDefault.Some?)
  }

  lemma PlanIsFresh(d: Doc, catalog: seq<Catalogs.Entry>, plan: seq<PlanItem>)
    requires WellFormed(d) && OneEach(d, catalog, plan)
    ensures Advanced(plan, 0, d)
  {
    hide IsToolReference, ValidIdentity, ActionFor, StableFor;
    forall k | 0 <= k < |plan| ensures StillPlanned(d, plan[k]) {
      assert Planned(d, catalog, plan[k]);
    }
  }

  lemma StillPlannedIsNotOutdated(d: Doc, item: PlanItem)
    requires WellFormed(d) && Actionable(item) && StillPlanned(d, item)
    ensures !Outdated(d, RequestOf(item))
  {
    hide IsToolReference, ValidIdentity, Versions.IsVersion;
  }

  lemma UndisturbedSkips(plan: seq<PlanItem>, i: nat, w: World)
    requires i < |plan| && !IsAttempted(plan[i])
    ensures Undisturbed(plan, i, w) ==> Undisturbed(plan, i + 1, w)
  {
    hide StillPlanned, IsDone;
  }

  lemma AloneAtFirst(d: Doc, catalog: seq<Catalogs.Entry>, plan: seq<PlanItem>, others: seq<seq<Command>>, w: World)
    requires WellFormed(d)
    ensures Alone(d, catalog, plan, others, w) ==> Undisturbed(plan, 0, w)
  {
    hide OneEach, Advanced;
    if OneEach(d, catalog, plan) {
      PlanIsFresh(d, catalog, plan);
    }
  }

  lemma AloneMeansNothing(d: Doc, catalog: seq<Catalogs.Entry>, plan: seq<PlanItem>, others: seq<seq<Command>>,
                          w: World, i: nat)
    requires WellFormed(d) && i < |others|
    ensures Alone(d, catalog, plan, others, w) ==> others[i] == []
  {}

  /** Carrying out one item disturbs no other of the same snapshot. */
  lemma AdvancedGrows(d: Doc, catalog: seq<Catalogs.Entry>, plan: seq<PlanItem>, i: nat, before: Doc, after: Doc)
    requires WellFormed(d) && OneEach(d, catalog, plan) && i < |plan| && IsAttempted(plan[i])
    requires Advanced(plan, i, before) && Carried(before, plan[i], after) && WellFormed(after)
    ensures Advanced(plan, i + 1, after)
  {
    hide Planned, IsToolReference, ValidIdentity, WellFormed;
    forall k | 0 <= k < i + 1 && IsAttempted(plan[k]) ensures IsDone(after, plan[k]) {
      if k < i {
        DoneStays(d, catalog, plan, k, i, before, after);
      }
    }
    forall k | i + 1 <= k < |plan| ensures StillPlanned(after, plan[k]) {
      assert StillPlanned(before, plan[k]) && StillPlanned(before, plan[i]);
      ReferenceStays(before, plan[i], plan[k], after);
    }
  }

  lemma DoneStays(d: Doc, catalog: seq<Catalogs.Entry>, plan: seq<PlanItem>, k: nat, i: nat, before: Doc, after: Doc)
    requires WellFormed(d) && OneEach(d, catalog, plan) && k < i < |plan|
    requires IsDone(before, plan[k]) && Carried(before, plan[i], after)
    ensures IsDone(after, plan[k])
  {
    hide ValidIdentity, Versions.Cmp, ActionFor, StableFor;
    assert Planned(d, catalog, plan[k]) && Planned(d, catalog, plan[i]);
    assert !SameSubject(plan[k].reference, plan[i].reference);
  }

  lemma ReferenceStays(before: Doc, item: PlanItem, other: PlanItem, after: Doc)
    requires WellFormed(before) && WellFormed(after) && !SameSubject(item.reference, other.reference)
    requires StillPlanned(before, item) && StillPlanned(before, other) && Carried(before, item, after)
    ensures StillPlanned(after, other)
  {
    hide ValidIdentity, Versions.Cmp;
  }

  /** Among the items carried out are all whose stable record is the reference or newer. */
  lemma NewerIsAttempted(d: Doc, catalog: seq<Catalogs.Entry>, plan: seq<PlanItem>, contents: seq<seq<string>>,
                         turns: seq<Turn>, i: nat, e: Catalogs.Entry)
    requires WellFormed(d) && Catalogs.Acceptable(catalog) && |contents| == |plan| && i < |plan|
    requires Planned(d, catalog, plan[i]) && Carries(turns, plan, contents, Attempts(plan, |plan|))
    requires IsTargeted(catalog, plan[i].reference, e)
    ensures HasTurn(turns, plan[i], contents[i])
  {
    hide Planned, Catalogs.Acceptable, Versions.IsVersion, Versions.Older, Attempts;
    PlannedIsJudged(d, catalog, plan[i]);
    if IsAttempted(plan[i]) {
      AttemptIsListed(plan, |plan|, i);
      var indices := Attempts(plan, |plan|);
      var k :| 0 <= k < |indices| && indices[k] == i;
      assert turns[k].item == plan[indices[k]];
    }
  }

  /** The stable record of the release is its own or a newer version. */
  ghost predicate IsTargeted(catalog: seq<Catalogs.Entry>, id: Identity, e: Catalogs.Entry) {
    IsStableRecord(catalog, id, e) && (Versions.IsOlder(id.version, e.version) || id.version == e.version)
  }

  predicate HasTurn(turns: seq<Turn>, item: PlanItem, contents: seq<string>) {
    exists k :: 0 <= k < |turns| && turns[k].item == item && turns[k].contents == contents
  }

  /** Every item whose stable record is its reference or newer is among those carried out. */
  ghost predicate AttemptsStable(catalog: seq<Catalogs.Entry>, plan: seq<PlanItem>, contents: seq<seq<string>>,
                                 turns: seq<Turn>)
    requires |contents| == |plan|
  {
    forall i, e :: 0 <= i < |plan| && IsTargeted(catalog, plan[i].reference, e) ==>
      HasTurn(turns, plan[i], contents[i])
  }

  /** Every tool of the plan has the stable release if that is newer, as its default if the planned release
      was one. */
  ghost predicate UpToDate(catalog: seq<Catalogs.Entry>, plan: seq<PlanItem>, d: Doc) {
    forall i, e :: 0 <= i < |plan| && IsStableRecord(catalog, plan[i].reference, e)
                   && Versions.IsOlder(plan[i].reference.version, e.version) ==>
      var newest, s := plan[i].reference.(version := e.version), ScopeOf(plan[i].reference);
      && newest in d.installed
      && (plan[i].previousDefault.Some? ==> s in d.defaults && d.defaults[s] == newest)
  }

  lemma AllAttempted(d: Doc, catalog: seq<Catalogs.Entry>, plan: seq<PlanItem>, contents: seq<seq<string>>,
                     turns: seq<Turn>)
    requires WellFormed(d) && |contents| == |plan| && forall k :: 0 <= k < |plan| ==> Planned(d, catalog, plan[k])
    requires Carries(turns, plan, contents, Attempts(plan, |plan|))
    ensures Catalogs.Acceptable(catalog) ==> AttemptsStable(catalog, plan, contents, turns)
  {
    hide Planned, Catalogs.Acceptable, IsTargeted, Attempts, Carries, WellFormed, HasTurn;
    if Catalogs.Acceptable(catalog) {
      forall i, e | 0 <= i < |plan| && IsTargeted(catalog, plan[i].reference, e)
        ensures HasTurn(turns, plan[i], contents[i])
      {
        NewerIsAttempted(d, catalog, plan, contents, turns, i, e);
      }
    }
  }

  lemma AllDone(d: Doc, catalog: seq<Catalogs.Entry>, plan: seq<PlanItem>, others: seq<seq<Command>>, start: World,
                w: World)
    requires WellFormed(d) && Alone(d, catalog, plan, others, start) && Undisturbed(plan, |plan|, w)
    ensures StateOf(w).Some? && (Catalogs.Acceptable(catalog) ==> UpToDate(catalog, plan, StateOf(w).value))
  {
    hide Planned, Catalogs.Acceptable, Versions.IsVersion, Versions.Older, Versions.KeyOf, WellFormed, StillPlanned;
    if Catalogs.Acceptable(catalog) {
      forall i | 0 <= i < |plan| ensures Judged(catalog, plan[i]) {
        PlannedIsJudged(d, catalog, plan[i]);
      }
    }
  }

  lemma {:induction false} AttemptIsListed(plan: seq<PlanItem>, n: nat, i: nat)
    requires i < n <= |plan| && IsAttempted(plan[i])
    ensures i in Attempts(plan, n)
  {
    if i < n - 1 {
      AttemptIsListed(plan, n - 1, i);
    }
  }

  /** How far the loop has come: the turns so far are those of the first `n` items, and it went on after each. */
  ghost predicate Underway(valid: Validator, host: string, reliable: bool, plan: seq<PlanItem>,
                           contents: seq<seq<string>>, turns: seq<Turn>, log: seq<World>, from: nat, n: nat)
    requires |contents| == |plan| && n <= |plan|
  {
    && AllAnswered(valid, host, reliable, turns)
    && (forall k :: 0 <= k < |turns| ==> turns[k].outcome == Ok || turns[k].outcome == NotInstalled)
    && Carries(turns, plan, contents, Attempts(plan, n)) && Ordered(turns, log, from)
  }

  ghost predicate AllAnswered(valid: Validator, host: string, reliable: bool, turns: seq<Turn>) {
    forall k :: 0 <= k < |turns| ==> TurnKeeps(turns[k]) && TurnAnswers(valid, host, reliable, turns[k])
  }

  /** What the loop leaves: it went on after every turn but the last, and stopped there if that failed. */
  ghost predicate Concluded(valid: Validator, host: string, reliable: bool, plan: seq<PlanItem>,
                            contents: seq<seq<string>>, turns: seq<Turn>, log: seq<World>, from: nat, err: CupError)
    requires |contents| == |plan|
  {
    && Ordered(turns, log, from) && AllAnswered(valid, host, reliable, turns)
    && (forall k :: 0 <= k < |turns| - 1 ==> turns[k].outcome == Ok || turns[k].outcome == NotInstalled)
    && (err == Ok && |turns| > 0 ==>
          turns[|turns| - 1].outcome == Ok || turns[|turns| - 1].outcome == NotInstalled)
    && (err != Ok ==> |turns| > 0 && err == turns[|turns| - 1].outcome && err != NotInstalled)
    && exists n :: 0 <= n <= |plan| && Carries(turns, plan, contents, Attempts(plan, n))
                   && if err == Ok then n == |plan| else n > 0 && n - 1 in Attempts(plan, n)
  }

  lemma UnderwaySkips(valid: Validator, host: string, reliable: bool, plan: seq<PlanItem>, contents: seq<seq<string>>,
                      turns: seq<Turn>, log: seq<World>, from: nat, n: nat, longer: seq<World>)
    requires |contents| == |plan| && n < |plan| && !IsAttempted(plan[n]) && log <= longer
    requires Underway(valid, host, reliable, plan, contents, turns, log, from, n)
    ensures Underway(valid, host, reliable, plan, contents, turns, longer, from, n + 1)
  {
    hide Ordered, Carries, Attempts, AllAnswered;
    OrderedStays(turns, log, from, longer);
    SkippedAttempt(plan, n);
  }

  /** One turn more: the loop goes on, or it concludes with the answer of that turn. */
  lemma UnderwayGrows(valid: Validator, host: string, reliable: bool, plan: seq<PlanItem>, contents: seq<seq<string>>,
                      turns: seq<Turn>, log: seq<World>, from: nat, n: nat, longer: seq<World>, t: Turn)
    requires |contents| == |plan| && n < |plan| && IsAttempted(plan[n]) && log <= longer && from <= |log| <= t.at
    requires Underway(valid, host, reliable, plan, contents, turns, log, from, n)
    requires t.item == plan[n] && t.contents == contents[n] && t.In(longer)
    requires TurnKeeps(t) && TurnAnswers(valid, host, reliable, t)
    ensures GoesOn(t.outcome) ==>
              Underway(valid, host, reliable, plan, contents, turns + [t], longer, from, n + 1)
    ensures !GoesOn(t.outcome) ==>
              Concluded(valid, host, reliable, plan, contents, turns + [t], longer, from, t.outcome)
  {
    hide Ordered, Carries, Attempts, TurnKeeps, TurnAnswers;
    OrderedGrows(turns, log, from, longer, t);
    NextAttempt(turns, plan, contents, n, t);
    var all := turns + [t];
    assert forall k :: 0 <= k < |turns| ==> all[k] == turns[k];
  }

  lemma UnderwayEnds(valid: Validator, host: string, reliable: bool, d: Doc, catalog: seq<Catalogs.Entry>,
                     plan: seq<PlanItem>, contents: seq<seq<string>>, turns: seq<Turn>, log: seq<World>, from: nat)
    requires |contents| == |plan| && Underway(valid, host, reliable, plan, contents, turns, log, from, |plan|)
    requires WellFormed(d) && forall k :: 0 <= k < |plan| ==> Planned(d, catalog, plan[k])
    ensures Concluded(valid, host, reliable, plan, contents, turns, log, from, Ok)
    ensures Catalogs.Acceptable(catalog) ==> AttemptsStable(catalog, plan, contents, turns)
  {
    hide Ordered, Carries, Attempts, AllAnswered, Planned, WellFormed, AttemptsStable, Catalogs.Acceptable;
    AllAttempted(d, catalog, plan, contents, turns);
  }

  /** The execution loop of `cup update`. Before every item any other commands may have run to
      completion. Each item is attempted in order; one whose reference is gone is skipped; the first
      other failure stops the loop and is its answer. The turns are successive parts of the log, and
      whatever an item shows, it keeps what an update must keep. */
  method ExecutePlan(valid: Validator, disk: Disk, plan: seq<PlanItem>, contents: seq<seq<string>>,
                     others: seq<seq<Command>>, ghost d: Doc, ghost catalog: seq<Catalogs.Entry>)
    returns (err: CupError, ghost turns: seq<Turn>)
    requires disk.Valid() && AllSound(valid, disk.host, disk.log)
    requires (forall k :: 0 <= k < |others| ==> Readable(others[k]))
             || (AllLocal(disk.host, disk.log) && forall k :: 0 <= k < |plan| ==> plan[k].reference.host == disk.host)
    requires WellFormed(d) && forall k :: 0 <= k < |plan| ==> Planned(d, catalog, plan[k])
    requires |contents| == |others| == |plan|
    modifies disk`now, disk`temporaries, disk`log, disk`durable, disk`nextInode
    ensures disk.Valid() && AllSound(valid, disk.host, disk.log) && disk.Grew()
    ensures Concluded(valid, disk.host, disk.reliable, plan, contents, turns, disk.log, |old(disk.log)|, err)
    ensures Catalogs.Acceptable(catalog) && err == Ok ==> AttemptsStable(catalog, plan, contents, turns)
    ensures Alone(d, catalog, plan, others, old(disk.now)) && Catalogs.Acceptable(catalog) && err == Ok ==>
              StateOf(disk.now).Some? && UpToDate(catalog, plan, StateOf(disk.now).value)
  {
    hide Planned, AllSound, AllLocal, TurnKeeps, TurnAnswers, WellFormed, Underway, Concluded, Actionable, Readable,
         Alone, Undisturbed, UpToDate, AttemptsStable, Catalogs.Acceptable, StateOf, ValidIdentity;
    ghost var alone := Alone(d, catalog, plan, others, disk.now);
    AloneAtFirst(d, catalog, plan, others, disk.now);
    ghost var local := AllLocal(disk.host, disk.log)
                       && forall k :: 0 <= k < |plan| ==> plan[k].reference.host == disk.host;
    ghost var from := |disk.log|;
    err, turns := Ok, [];
    NoTurns(valid, disk.host, disk.reliable, plan, contents, disk.log, from);
    for i := 0 to |plan|
      invariant disk.Valid() && AllSound(valid, disk.host, disk.log) && disk.Grew()
      invariant local ==> AllLocal(disk.host, disk.log)
      invariant Underway(valid, disk.host, disk.reliable, plan, contents, turns, disk.log, from, i)
      invariant alone ==> Undisturbed(plan, i, disk.now)
    {
      ghost var log := disk.log;
      AloneMeansNothing(d, catalog, plan, others, old(disk.now), i);
      RunOthers(valid, disk, others[i]);
      GrewIsLonger(log, disk.log);
      var item := plan[i];
      if item.action == NoStable || item.action == Ahead {
        UnderwaySkips(valid, disk.host, disk.reliable, plan, contents, turns, log, from, i, disk.log);
        UndisturbedSkips(plan, i, disk.now);
        continue;
      }
      PlannedIsActionable(d, catalog, item);
      ghost var turn;
      err, turn := ExecuteItem(valid, disk, item, contents[i]);
      GrewIsLonger(log, disk.log);
      UnderwayGrows(valid, disk.host, disk.reliable, plan, contents, turns, log, from, i, disk.log, turn);
      turns := turns + [turn];
      if !GoesOn(err) {
        return;
      }
      if alone {
        TurnAdvances(valid, disk.host, disk.reliable, d, catalog, plan, others, old(disk.now), i, turn);
      }
    }
    UnderwayEnds(valid, disk.host, disk.reliable, d, catalog, plan, contents, turns, disk.log, from);
    if alone {
      AllDone(d, catalog, plan, others, old(disk.now), disk.now);
    }
    err := Ok;
  }

  lemma GrewIsLonger(log: seq<World>, longer: seq<World>)
    requires |log| <= |longer| && forall k :: 0 <= k < |log| ==> longer[k] == log[k]
    ensures log <= longer
  {}

  /** A turn of an undisturbed loop, if it is not the last, carries its item out. */
  lemma TurnAdvances(valid: Validator, host: string, reliable: bool, d: Doc, catalog: seq<Catalogs.Entry>,
                     plan: seq<PlanItem>, others: seq<seq<Command>>, start: World, i: nat, t: Turn)
    requires WellFormed(d) && Alone(d, catalog, plan, others, start) && i < |plan| && IsAttempted(plan[i])
    requires t.item == plan[i] && Actionable(t.item) && TurnAnswers(valid, host, reliable, t) && GoesOn(t.outcome)
    requires Undisturbed(plan, i, t.before)
    ensures Undisturbed(plan, i + 1, t.After())
  {
    hide OneEach, Carried, CanInstall, Outdated, InstallGoal, Quiet, Actionable, StillPlanned, IsDone, StateOf,
         Consistent;
    var before := StateOf(t.before).value;
    assert StillPlanned(before, t.item);
    StillPlannedIsNotOutdated(before, t.item);
    ConsistentIsWellFormed(valid, t.After());
    AdvancedGrows(d, catalog, plan, i, before, StateOf(t.After()).value);
  }

  lemma ConsistentIsWellFormed(valid: Validator, w: World)
    ensures Consistent(valid, w) ==> StateOf(w).Some? && WellFormed(StateOf(w).value)
  {}

  lemma NoTurns(valid: Validator, host: string, reliable: bool, plan: seq<PlanItem>, contents: seq<seq<string>>,
                log: seq<World>, from: nat)
    requires |contents| == |plan|
    ensures Underway(valid, host, reliable, plan, contents, [], log, from, 0)
  {}

  lemma SkippedAttempt(plan: seq<PlanItem>, i: nat)
    requires i < |plan| && (plan[i].action == NoStable || plan[i].action == Ahead)
    ensures Attempts(plan, i + 1) == Attempts(plan, i)
  {}

  lemma NextAttempt(turns: seq<Turn>, plan: seq<PlanItem>, contents: seq<seq<string>>, i: nat, t: Turn)
    requires i < |plan| == |contents| && (plan[i].action == Equal || plan[i].action == Newer)
    requires Carries(turns, plan, contents, Attempts(plan, i)) && t.item == plan[i] && t.contents == contents[i]
    ensures Carries(turns + [t], plan, contents, Attempts(plan, i + 1)) && i in Attempts(plan, i + 1)
  {}

  lemma OrderedStays(turns: seq<Turn>, log: seq<World>, from: nat, longer: seq<World>)
    requires Ordered(turns, log, from) && log <= longer
    ensures Ordered(turns, longer, from)
  {
    forall k | 0 <= k < |turns| ensures turns[k].In(longer) {
      var t := turns[k];
      assert t.In(log);
      assert longer[t.at..t.at + |t.shown|] == log[t.at..t.at + |t.shown|];
    }
  }

  lemma OrderedGrows(turns: seq<Turn>, log: seq<World>, from: nat, longer: seq<World>, t: Turn)
    requires Ordered(turns, log, from) && log <= longer && from <= |log| <= t.at && t.In(longer)
    ensures Ordered(turns + [t], longer, from)
  {
    OrderedStays(turns, log, from, longer);
    var all := turns + [t];
    assert forall k :: 0 <= k < |turns| ==> all[k] == turns[k] && turns[k].In(log);
    assert all[|turns|] == t;
  }
}
