/** Power losses after a finished recovery when every directory is durable on its own. Clearing the journal
    synchronises the root directory; deleting a tree synchronises nothing about its name, so a deletion that
    recovery has made may come undone although the journal stays gone. */
module DirectoryLosses {
  import opened Text
  import opened Domain
  import opened States
  import opened Disks
  import opened Recovery
  import opened Repairs
  import opened RepairCommands
  import opened Removals

  /** What may stand again at a path whose deletion is forgotten: the object with any of its entries. */
  predicate Remnant(before: Option<Object>, after: Option<Object>) {
    || after.None? || after == before
    || (before.Some? && IsDirectory(before.value) && IsDirectory(after.value)
        && after.value.inode == before.value.inode
        && after.value.body.tree.entries <= before.value.body.tree.entries)
  }

  /** The paths that recovery deletes; its renames are synchronised on both sides. */
  function Deleted(valid: Validator, start: World): set<Name>
    requires Recoverable(valid, start) && JournalFile in start
  {
    var j := JournalOf(start).value;
    if !Installed(start, j.package) then {Package(j.package), Staged(j.temporary)}
    else if Healthy(valid, start, Package(j.package), j.package) then {Staged(j.temporary)}
    else {}
  }

  /** What a loss after a successful recovery of `start` may leave. */
  ghost predicate MayReturn(valid: Validator, start: World, w: World)
    requires Recoverable(valid, start) && JournalFile in start
  {
    forall n: Name :: !n.Preserved? ==>
      if n in Deleted(valid, start) then Remnant(Look(start, n), Look(w, n))
      else Look(w, n) == Look(Settle(valid, start), n)
  }

  /** The guard of the deletion that matters: the package is on disk and is not recorded. */
  predicate DeletesPackage(start: World) {
    JournalOf(start).Some? && !Installed(start, JournalOf(start).value.package)
    && Package(JournalOf(start).value.package) in start
  }

  /** Whatever comes back, the state is the recovered one, nothing is pending, and no identity but the one
      that the journal named can be out of step. */
  lemma OthersAgree(valid: Validator, start: World, w: World)
    requires Inv(valid, start) && JournalFile in start && MayReturn(valid, start, w)
    ensures JournalFile !in w && StateOf(w) == StateOf(start)
    ensures forall id :: Names(start, id) || (Agrees(valid, w, id) && Look(w, Package(id)) == Look(start, Package(id)))
    ensures !DeletesPackage(start) ==> Agrees(valid, w, JournalOf(start).value.package)
    ensures DeletesPackage(start) ==>
              var p := Package(JournalOf(start).value.package); Remnant(Look(start, p), Look(w, p))
  {
    hide Healthy;
    var settled := Settle(valid, start);
    SettleIsConsistent(valid, start);
    assert Look(w, JournalFile) == Look(settled, JournalFile) == None;
    assert Look(w, StateFile) == Look(settled, StateFile);
    SameState(w, settled);
    forall id | !Names(start, id) ensures Agrees(valid, w, id) && Look(w, Package(id)) == Look(start, Package(id)) {
      assert Look(w, Package(id)) == Look(settled, Package(id)) == Look(start, Package(id));
      assert Agrees(valid, settled, id);
      SameHealth(valid, w, settled, id);
    }
    var id := JournalOf(start).value.package;
    if Installed(start, id) {
      assert Look(w, Package(id)) == Look(settled, Package(id));
      assert Agrees(valid, settled, id);
      SameHealth(valid, w, settled, id);
    }
  }

  lemma SameHealth(valid: Validator, a: World, b: World, id: Identity)
    requires Look(a, Package(id)) == Look(b, Package(id))
    ensures Healthy(valid, a, Package(id), id) <==> Healthy(valid, b, Package(id), id)
  {}

  /** The world in which the whole deleted package is back. */
  function Returned(valid: Validator, start: World): World
    requires Recoverable(valid, start) && DeletesPackage(start) && JournalFile in start
  {
    var p := Package(JournalOf(start).value.package);
    Settle(valid, start)[p := start[p]]
  }

  lemma ReturnedMayReturn(valid: Validator, start: World)
    requires Inv(valid, start) && JournalFile in start && DeletesPackage(start)
    ensures MayReturn(valid, start, Returned(valid, start)) && !Consistent(valid, Returned(valid, start))
  {
    var id, w := JournalOf(start).value.package, Returned(valid, start);
    assert Look(w, StateFile) == Look(start, StateFile);
    SameState(w, start);
    assert !Agrees(valid, w, id);
  }

  /** Recovery stands every such loss if and only if it had no unrecorded package to delete. */
  lemma LossIsHarmlessIff(valid: Validator, start: World)
    requires Inv(valid, start) && JournalFile in start
    ensures (forall w :: MayReturn(valid, start, w) ==> Consistent(valid, w)) <==> !DeletesPackage(start)
  {
    hide MayReturn, Agrees, Returned;
    if DeletesPackage(start) {
      ReturnedMayReturn(valid, start);
    } else {
      forall w | MayReturn(valid, start, w) ensures Consistent(valid, w) {
        OthersAgree(valid, start, w);
      }
    }
  }

  /** A finished repair makes up for the loss. It records the returned package if its tree is still
      complete, so that an installation that recovery had undone is there after all; otherwise the state
      stays what it was and what came back is moved aside. */
  lemma RepairAfterLoss(valid: Validator, host: string, start: World, w: World, after: World)
    requires Inv(valid, start) && JournalFile in start && Local(host, start) && MayReturn(valid, start, w)
    requires forall id :: Package(id) in w ==> Scanned(host, id) && Movable(w[Package(id)])
    requires Repairing(valid, host, w, true, after) && Healed(valid, host, w, Aim(valid, host, w, true), after)
    ensures Consistent(valid, after)
    ensures var id := JournalOf(start).value.package;
            StateOf(after).value.installed
            == StateOf(start).value.installed + if Healthy(valid, w, Package(id), id) then {id} else {}
    ensures StateOf(after).value.defaults == StateOf(start).value.defaults
  {
    hide MayReturn, Healthy, Found, Issues, Repairing, Healed;
    OthersAgree(valid, start, w);
    var id := JournalOf(start).value.package;
    forall q
      ensures q in Found(valid, host, w) <==>
                q in StateOf(start).value.installed || (q == id && Healthy(valid, w, Package(id), id))
    {
      InScan(valid, host, w, q);
      if Healthy(valid, w, Package(q), q) {
        HealthyIsPresent(valid, w, q);
      }
      assert Names(start, q) || Agrees(valid, w, q);
    }
    var goal := Aim(valid, host, w, true);
    assert goal == Reconciled(StateOf(start).value, Found(valid, host, w), host);
    assert goal.defaults == StateOf(start).value.defaults by {
      assert forall s :: s in StateOf(start).value.defaults ==>
          Survives(Found(valid, host, w), host, StateOf(start).value.defaults[s]);
    }
    forall q | q in goal.installed ensures q.host == host {
      InScan(valid, host, w, q);
    }
    HealedIsConsistent(valid, host, w, true, after);
    assert StateOf(after) == Some(goal) by {
      HealedHasGoal(valid, host, w, goal, after);
    }
  }

  lemma HealedHasGoal(valid: Validator, host: string, root: World, goal: Doc, w: World)
    requires Healed(valid, host, root, goal, w)
    ensures StateOf(w) == Some(goal)
  {}
}
