/** What the disk means while a package transaction may be pending, and the recovery that finishes or
    undoes it from state.txt alone. */
module Recovery {
  import opened Text
  import opened Domain
  import opened States
  import opened Disks
  import StateFiles

  /** Full package validation: metadata of the identity and manifest inventory of the tree. */
  type Validator = (Identity, set<string>) -> bool

  function StateOf(w: World): Option<Doc> {
    if StateFile in w && w[StateFile].body.StateBody? then Some(w[StateFile].body.doc) else None
  }

  function JournalOf(w: World): Option<Journal> {
    if JournalFile in w && w[JournalFile].body.JournalBody? then Some(w[JournalFile].body.journal) else None
  }

  predicate Healthy(valid: Validator, w: World, n: Name, id: Identity) {
    n in w && IsDirectory(w[n]) && valid(id, w[n].body.tree.entries)
  }

  predicate Installed(w: World, id: Identity) {
    StateOf(w).Some? && id in StateOf(w).value.installed
  }

  /** State and components agree about one identity. */
  predicate Agrees(valid: Validator, w: World, id: Identity) {
    if Installed(w, id) then Healthy(valid, w, Package(id), id) else Package(id) !in w
  }

  predicate Names(w: World, id: Identity) {
    JournalOf(w).Some? && JournalOf(w).value.package == id
  }

  /** Recovery can decide: there is nothing to recover, or valid state says whether the package
      belongs on disk and, if it does, a valid copy of it still exists. */
  predicate Recoverable(valid: Validator, w: World) {
    JournalFile in w ==>
      && JournalOf(w).Some? && StateOf(w).Some? && WellFormed(StateOf(w).value)
      && var j := JournalOf(w).value;
         Installed(w, j.package) ==>
           || Healthy(valid, w, Package(j.package), j.package)
           || (Healthy(valid, w, Staged(j.temporary), j.package)
               && (Package(j.package) in w ==> IsDirectory(w[Package(j.package)]) || IsRegular(w[Package(j.package)])))
  }

  /** A command that needs the state goes ahead: nothing is pending, and there is a valid state. */
  predicate Admissible(w: World) {
    JournalFile !in w && StateOf(w).Some? && WellFormed(StateOf(w).value)
  }

  /** The invariant of every world the disk can hold: valid state, and no identity but the one a
      pending journal names is out of step. */
  ghost predicate Inv(valid: Validator, w: World) {
    && StateOf(w).Some? && WellFormed(StateOf(w).value)
    && Recoverable(valid, w)
    && (forall id :: !Names(w, id) ==> Agrees(valid, w, id))
  }

  ghost predicate Consistent(valid: Validator, w: World) {
    && StateOf(w).Some? && WellFormed(StateOf(w).value)
    && JournalFile !in w
    && forall id :: Agrees(valid, w, id)
  }

  /** The world an undisturbed recovery leaves. */
  function Settle(valid: Validator, w: World): World
    requires Recoverable(valid, w)
  {
    if JournalFile !in w then w
    else
      var j := JournalOf(w).value;
      var p, s := Package(j.package), Staged(j.temporary);
      var rest := w - {s, JournalFile};
      if !Installed(w, j.package) then rest - {p}
      else if Healthy(valid, w, p, j.package) then rest
      else rest[p := w[s]]
  }

  /** What becomes of a disk with a pending transaction: the state and all other packages are what they were,
      the journal and its staging are gone, and the package of the journal is gone too if the state does not
      record it, and is otherwise the copy in place if that is valid, and the staged one if it is not. */
  ghost predicate FollowsState(valid: Validator, before: World, after: World) {
    JournalOf(before).Some? ==>
      var id, staged := JournalOf(before).value.package, Staged(JournalOf(before).value.temporary);
      && JournalFile !in after && staged !in after
      && Look(after, StateFile) == Look(before, StateFile)
      && (forall q :: q != id ==> Look(after, Package(q)) == Look(before, Package(q)))
      && Look(after, Package(id)) == if !Installed(before, id) then None
                                     else if Healthy(valid, before, Package(id), id) then Look(before, Package(id))
                                     else Look(before, staged)
  }

  lemma SettleFollowsState(valid: Validator, before: World, after: World)
    requires Recoverable(valid, before) && SameCore(after, Settle(valid, before))
    ensures FollowsState(valid, before, after)
  {
    var settled := Settle(valid, before);
    assert Look(after, JournalFile) == Look(settled, JournalFile);
    assert Look(after, StateFile) == Look(settled, StateFile);
    forall q ensures Look(after, Package(q)) == Look(settled, Package(q)) {
    }
    if JournalOf(before).Some? {
      var staged := Staged(JournalOf(before).value.temporary);
      assert Look(after, staged) == Look(settled, staged);
    }
  }

  /** Equal up to evidence moved aside into recovery directories. */
  ghost predicate SameCore(a: World, b: World) {
    forall n: Name :: !n.Preserved? ==> Look(a, n) == Look(b, n)
  }

  /** Recovering from `w` ends where recovering from `start` does. */
  ghost predicate SameEnd(valid: Validator, start: World, w: World)
    requires Recoverable(valid, start)
  {
    && Recoverable(valid, w) && SameCore(Settle(valid, w), Settle(valid, start))
    && (JournalFile in w ==> JournalFile in start && w[JournalFile] == start[JournalFile])
  }

  /** An object that is no longer at its place can be found under a fresh recovery name. */
  ghost predicate Kept(root: World, w: World, name: Name) {
    name in root && Look(w, name) != Look(root, name) ==>
      exists n: nat :: Preserved(n) !in root && Look(w, Preserved(n)) == Look(root, name)
  }

  /** Nothing that may be evidence is lost: what was moved aside before, and the invalid tree of every
      recorded package. */
  ghost predicate Evidence(valid: Validator, start: World, w: World) {
    && Look(w, StateFile) == Look(start, StateFile)
    && (forall n: nat :: Preserved(n) in start ==> Look(w, Preserved(n)) == Look(start, Preserved(n)))
    && (forall id :: Installed(start, id) && !Healthy(valid, start, Package(id), id) ==> Kept(start, w, Package(id)))
  }

  /** A world that recovery of `start` may show. */
  ghost predicate Leads(valid: Validator, start: World, w: World)
    requires Recoverable(valid, start)
  {
    SameEnd(valid, start, w) && Evidence(valid, start, w)
  }

  // ---- Every single step of recovery keeps its destination and the evidence ----

  lemma EvidenceTransitive(valid: Validator, a: World, b: World, c: World)
    requires Evidence(valid, a, b) && Evidence(valid, b, c)
    ensures Evidence(valid, a, c)
  {
    assert StateOf(b) == StateOf(a);
    forall id | Installed(a, id) && !Healthy(valid, a, Package(id), id) ensures Kept(a, c, Package(id)) {
      KeptOnward(valid, a, b, c, id);
    }
  }

  lemma KeptOnward(valid: Validator, a: World, b: World, c: World, id: Identity)
    requires Evidence(valid, a, b) && Evidence(valid, b, c)
    requires Installed(a, id) && !Healthy(valid, a, Package(id), id)
    ensures Kept(a, c, Package(id))
  {
    assert StateOf(b) == StateOf(a);
    var p := Package(id);
    if p in a && Look(c, p) != Look(a, p) {
      if Look(b, p) == Look(a, p) {
        assert !Healthy(valid, b, p, id) && Kept(b, c, p);
        var n: nat :| Preserved(n) !in b && Look(c, Preserved(n)) == Look(b, p);
        assert Preserved(n) !in a;
      } else {
        var n: nat :| Preserved(n) !in a && Look(b, Preserved(n)) == Look(a, p);
        assert Look(c, Preserved(n)) == Look(b, Preserved(n));
      }
    }
  }

  /** A step that leaves state, recovery names and all packages but one alone, and that one too if it is
      recorded and invalid. */
  lemma EvidenceFrame(valid: Validator, w: World, after: World, id: Identity)
    requires Look(after, StateFile) == Look(w, StateFile)
    requires forall n: nat :: Look(after, Preserved(n)) == Look(w, Preserved(n))
    requires forall q :: q != id ==> Look(after, Package(q)) == Look(w, Package(q))
    requires Installed(w, id) && !Healthy(valid, w, Package(id), id) && Package(id) in w ==>
               Look(after, Package(id)) == Look(w, Package(id))
    ensures Evidence(valid, w, after)
  {}

  lemma EvidenceAside(valid: Validator, w: World, id: Identity, n: nat)
    requires Package(id) in w && Preserved(n) !in w
    ensures Evidence(valid, w, Renamed(w, Package(id), Preserved(n), w[Package(id)]))
  {
    var after := Renamed(w, Package(id), Preserved(n), w[Package(id)]);
    assert Look(after, Preserved(n)) == Look(w, Package(id));
    forall q ensures Kept(w, after, Package(q)) {
      assert q != id ==> Look(after, Package(q)) == Look(w, Package(q));
    }
  }

  lemma EndTransitive(valid: Validator, a: World, b: World, c: World)
    requires Recoverable(valid, a) && SameEnd(valid, a, b) && SameEnd(valid, b, c)
    ensures SameEnd(valid, a, c)
  {
    hide Settle, Recoverable;
    forall n: Name | !n.Preserved?
      ensures Look(Settle(valid, c), n) == Look(Settle(valid, a), n)
    {
      assert Look(Settle(valid, c), n) == Look(Settle(valid, b), n);
    }
  }

  lemma LeadsTransitive(valid: Validator, a: World, b: World, c: World)
    requires Recoverable(valid, a) && Leads(valid, a, b) && Leads(valid, b, c)
    ensures Leads(valid, a, c)
  {
    hide Evidence;
    assert SameEnd(valid, a, c) by {
      EndTransitive(valid, a, b, c);
    }
    EvidenceTransitive(valid, a, b, c);
  }

  lemma LeadsSelf(valid: Validator, w: World)
    ensures Recoverable(valid, w) ==> Leads(valid, w, w)
  {
    hide Settle, Recoverable;
  }

  lemma LeadsMeansSame(valid: Validator, start: World, w: World)
    requires Recoverable(valid, start) && Leads(valid, start, w)
    ensures Recoverable(valid, w) && SameCore(Settle(valid, w), Settle(valid, start))
  {}

  lemma SettledAlready(valid: Validator, w: World)
    ensures JournalFile !in w ==> Recoverable(valid, w) && Settle(valid, w) == w && Leads(valid, w, w) && SameCore(w, w)
  {}

  /** When a readable journal can be recovered. */
  lemma RecoverableIff(valid: Validator, w: World)
    ensures JournalFile in w && (JournalOf(w).None? || StateOf(w).None? || !WellFormed(StateOf(w).value))
            ==> !Recoverable(valid, w)
    ensures JournalOf(w).Some? && StateOf(w).Some? && WellFormed(StateOf(w).value) ==>
              var id, n := JournalOf(w).value.package, JournalOf(w).value.temporary;
              Recoverable(valid, w) <==>
                || !Installed(w, id) || Healthy(valid, w, Package(id), id)
                || (Healthy(valid, w, Staged(n), id)
                    && (Package(id) in w ==> IsDirectory(w[Package(id)]) || IsRegular(w[Package(id)])))
  {}

  /** Deleting from a path that the recovered world does not have. */
  lemma LeadsShrink(valid: Validator, w: World, n: Name, after: World)
    requires Recoverable(valid, w) && JournalFile in w && Shrunk(w, n, after)
    requires var j := JournalOf(w).value;
             if Installed(w, j.package)
             then n == Staged(j.temporary) && Healthy(valid, w, Package(j.package), j.package)
             else n == Staged(j.temporary) || n == Package(j.package)
    ensures Leads(valid, w, after)
              && Installed(after, JournalOf(w).value.package) == Installed(w, JournalOf(w).value.package)
    ensures n != Package(JournalOf(w).value.package) ==>
              Look(after, Package(JournalOf(w).value.package)) == Look(w, Package(JournalOf(w).value.package))
    ensures JournalFile in after && after[JournalFile] == w[JournalFile]
  {
    assert StateOf(after) == StateOf(w) && JournalOf(after) == JournalOf(w);
    assert Settle(valid, after) == Settle(valid, w);
    EvidenceFrame(valid, w, after, JournalOf(w).value.package);
  }

  /** Moving an invalid recorded package aside while a valid staged copy exists. */
  lemma LeadsPreserve(valid: Validator, w: World, evidence: nat)
    requires Recoverable(valid, w) && JournalFile in w && Preserved(evidence) !in w
    requires var j := JournalOf(w).value;
             Installed(w, j.package) && Package(j.package) in w && !Healthy(valid, w, Package(j.package), j.package)
    ensures var p := Package(JournalOf(w).value.package);
            var after := Renamed(w, p, Preserved(evidence), w[p]);
            Leads(valid, w, after) && p !in after && JournalOf(after) == JournalOf(w) && StateOf(after) == StateOf(w)
            && JournalFile in after && after[JournalFile] == w[JournalFile]
            && after[Preserved(evidence)] == w[p]
            && Look(after, Staged(JournalOf(w).value.temporary)) == Look(w, Staged(JournalOf(w).value.temporary))
  {
    var j := JournalOf(w).value;
    var p := Package(j.package);
    var after := Renamed(w, p, Preserved(evidence), w[p]);
    assert StateOf(after) == StateOf(w) && JournalOf(after) == JournalOf(w);
    assert Healthy(valid, after, Staged(j.temporary), j.package);
    assert forall n: Name :: !n.Preserved? ==> Look(Settle(valid, after), n) == Look(Settle(valid, w), n);
    EvidenceAside(valid, w, j.package, evidence);
  }

  /** Moving the valid staged copy back into place. */
  lemma LeadsRestore(valid: Validator, w: World)
    requires Recoverable(valid, w) && JournalFile in w
    requires Installed(w, JournalOf(w).value.package) && Package(JournalOf(w).value.package) !in w
    ensures var p, s := Package(JournalOf(w).value.package), Staged(JournalOf(w).value.temporary);
            s in w
            && var after := Renamed(w, s, p, w[s]);
            Leads(valid, w, after) && Healthy(valid, after, p, JournalOf(w).value.package) && s !in after
            && JournalOf(after) == JournalOf(w) && StateOf(after) == StateOf(w)
            && JournalFile in after && after[JournalFile] == w[JournalFile]
  {
    var p, s := Package(JournalOf(w).value.package), Staged(JournalOf(w).value.temporary);
    var after := Renamed(w, s, p, w[s]);
    assert StateOf(after) == StateOf(w) && JournalOf(after) == JournalOf(w);
    assert Settle(valid, after) == Settle(valid, w);
    EvidenceFrame(valid, w, after, JournalOf(w).value.package);
  }

  /** Clearing the journal once there is nothing left to do. */
  lemma LeadsClear(valid: Validator, w: World)
    requires Recoverable(valid, w) && JournalFile in w
    requires var j := JournalOf(w).value;
             Staged(j.temporary) !in w
             && if Installed(w, j.package) then Healthy(valid, w, Package(j.package), j.package)
                else Package(j.package) !in w
    ensures Leads(valid, w, w - {JournalFile}) && Settle(valid, w) == w - {JournalFile}
  {
    assert Settle(valid, w) == w - {JournalFile};
    EvidenceFrame(valid, w, w - {JournalFile}, JournalOf(w).value.package);
  }

  /** Recovering any world of the invariant leaves a consistent one. */
  lemma SettleIsConsistent(valid: Validator, w: World)
    requires Inv(valid, w)
    ensures Consistent(valid, Settle(valid, w)) && StateOf(Settle(valid, w)) == StateOf(w)
  {
    var after := Settle(valid, w);
    assert Look(after, StateFile) == Look(w, StateFile);
    forall id ensures Agrees(valid, after, id) {
      if !Names(w, id) {
        assert Agrees(valid, w, id);
        assert Look(after, Package(id)) == Look(w, Package(id));
      }
    }
  }

  /** Whatever leads where an invariant world leads satisfies the invariant. */
  lemma EndKeepsInv(valid: Validator, start: World, w: World)
    requires Inv(valid, start) && SameEnd(valid, start, w)
    ensures Inv(valid, w)
  {
    var target, reached := Settle(valid, start), Settle(valid, w);
    SettleIsConsistent(valid, start);
    assert Look(reached, StateFile) == Look(target, StateFile);
    assert Look(w, StateFile) == Look(reached, StateFile);
    assert StateOf(w) == StateOf(target);
    forall id | !Names(w, id) ensures Agrees(valid, w, id) {
      assert Agrees(valid, target, id);
      assert Look(reached, Package(id)) == Look(target, Package(id));
      assert Look(w, Package(id)) == Look(reached, Package(id));
    }
  }

  lemma LeadsKeepsInv(valid: Validator, start: World, w: World)
    requires Inv(valid, start) && Leads(valid, start, w)
    ensures Inv(valid, w)
  {
    EndKeepsInv(valid, start, w);
  }

  // ---- The recovery procedure ----

  method InspectHealth(valid: Validator, disk: Disk, n: Name, id: Identity) returns (err: CupError, healthy: bool)
    ensures err == Ok ==> healthy == Healthy(valid, disk.now, n, id)
    ensures disk.reliable ==> err == Ok
  {
    var failed := disk.Fault();
    if failed {
      return TransactionError, false;
    }
    return Ok, Healthy(valid, disk.now, n, id);
  }

  /** `preserve_invalid_install`: evidence is moved to a fresh recovery path, never deleted. */
  method PreserveInvalidInstall(disk: Disk, n: Name) returns (err: CupError, evidence: nat)
    requires disk.Valid() && n.Package? && n in disk.now
    modifies disk`now, disk`temporaries, disk`log, disk`durable, disk`nextInode
    ensures disk.Valid() && disk.Grew()
    ensures Preserved(evidence) !in old(disk.now)
    ensures forall k :: |old(disk.log)| <= k < |disk.log| ==>
              disk.log[k] == old(disk.now)
              || disk.log[k] == Renamed(old(disk.now), n, Preserved(evidence), old(disk.now)[n])
    ensures disk.now == old(disk.now) || disk.now == Renamed(old(disk.now), n, Preserved(evidence), old(disk.now)[n])
    ensures !(IsDirectory(old(disk.now)[n]) || IsRegular(old(disk.now)[n])) ==>
              err != Ok && disk.now == old(disk.now) && disk.log == old(disk.log)
    ensures err == Ok ==> disk.now == Renamed(old(disk.now), n, Preserved(evidence), old(disk.now)[n])
    ensures disk.reliable && (IsDirectory(old(disk.now)[n]) || IsRegular(old(disk.now)[n])) ==> err == Ok
  {
    FreshNames(disk.now);
    evidence :| Preserved(evidence) !in disk.now;
    var failed := disk.Fault();
    if failed || !(IsDirectory(disk.now[n]) || IsRegular(disk.now[n])) {
      return TransactionError, evidence;
    }
    failed := disk.Fault();
    if failed {
      return Filesystem, evidence;
    }
    var inode := disk.now[n].inode;
    var state;
    err, state := disk.MovePathIfIdentity(n, Preserved(evidence), inode);
    if err != Ok && state != NotApplied {
      err := Commit;
    } else if err != Ok {
      failed := disk.Fault();
      err := if failed then Rollback else err;
    }
  }

  /** `state_save`: validates and measures the whole document, then replaces the observed file. */
  method SaveState(disk: Disk, doc: Doc, expected: nat) returns (err: CupError, identity: nat)
    requires disk.Valid()
    modifies disk`now, disk`temporaries, disk`log, disk`durable, disk`nextInode
    ensures err != NotInstalled
    ensures disk.Valid() && disk.Grew()
    ensures err == Ok ==> disk.Settled() && |disk.log| > |old(disk.log)|
                          && disk.now == old(disk.now)[StateFile := Object(identity, StateBody(doc))]
    ensures err != Ok && err != Commit ==> disk.now == old(disk.now)
    ensures err != Ok && err != Commit && |disk.log| > |old(disk.log)| ==> disk.Settled()
    ensures disk.now == old(disk.now)
            || disk.now == old(disk.now)[StateFile := Object(old(disk.nextInode), StateBody(doc))]
    ensures forall k :: |old(disk.log)| <= k < |disk.log| ==>
              || disk.log[k] == old(disk.now)
              || disk.log[k] == old(disk.now)[StateFile := Object(old(disk.nextInode), StateBody(doc))]
    ensures |disk.log| > |old(disk.log)| ==>
              && StateFiles.Storable(doc, disk.host) && StateFile in old(disk.now)
              && old(disk.now)[StateFile].inode == expected
    ensures disk.reliable ==>
              (err == Ok <==> && StateFiles.Storable(doc, disk.host)
                              && MayPublish(Look(old(disk.now), StateFile), Replace, Some(expected)))
  {
    hide StateFiles.DocBytes, WellFormed;
    identity := 0;
    err := StateFiles.CheckStorable(doc, disk.host);
    if err != Ok {
      return err, 0;
    }
    var failed := disk.Fault();
    if failed {
      return TemporaryError, 0;
    }
    err := disk.PublishFile(StateFile, StateBody(doc), Replace, Some(expected));
    if err == Ok {
      failed := disk.Fault();
      if failed || StateFile !in disk.now {
        return Commit, 0;
      }
      identity := disk.now[StateFile].inode;
    }
  }

  /** The canonical copy is valid, so the staged one goes. */
  method DiscardStaged(valid: Validator, disk: Disk, journal: Journal) returns (err: CupError)
    requires disk.Valid() && Recoverable(valid, disk.now) && JournalOf(disk.now) == Some(journal)
    requires Installed(disk.now, journal.package) && Healthy(valid, disk.now, Package(journal.package), journal.package)
    modifies disk`now, disk`log
    ensures disk.Valid() && disk.Grew() && Leads(valid, old(disk.now), disk.now)
    ensures forall k :: |old(disk.log)| <= k < |disk.log| ==> Leads(valid, old(disk.now), disk.log[k])
    ensures err == Ok ==> Ready(valid, disk.now, journal) && disk.now[JournalFile] == old(disk.now)[JournalFile]
    ensures disk.reliable ==> err == Ok
  {
    hide Leads, Settle, SameCore, Recoverable, Shrunk;
    var s := Staged(journal.temporary);
    ghost var start := disk.now;
    LeadsSelf(valid, start);
    err := Ok;
    if s in disk.now {
      err := disk.RemoveTree(s);
      forall w | Shrunk(start, s, w) ensures Leads(valid, start, w) {
        LeadsShrink(valid, start, s, w);
      }
      if err != Ok {
        return Commit;
      }
      ShrunkToNothing(start, s);
      LeadsShrink(valid, start, s, disk.now);
    }
  }

  /** The valid staged copy goes back to the canonical path, which is free. */
  method RestoreStaged(valid: Validator, disk: Disk, journal: Journal, moved: bool) returns (err: CupError)
    requires disk.Valid() && Recoverable(valid, disk.now) && JournalOf(disk.now) == Some(journal)
    requires Installed(disk.now, journal.package) && Package(journal.package) !in disk.now
    modifies disk`now, disk`temporaries, disk`log, disk`durable
    ensures disk.Valid() && disk.Grew() && Leads(valid, old(disk.now), disk.now)
    ensures forall k :: |old(disk.log)| <= k < |disk.log| ==> Leads(valid, old(disk.now), disk.log[k])
    ensures err == Ok ==> Ready(valid, disk.now, journal) && disk.now[JournalFile] == old(disk.now)[JournalFile]
    ensures disk.reliable ==> err == Ok
  {
    hide Leads, Settle, SameCore, Recoverable;
    var p, s := Package(journal.package), Staged(journal.temporary);
    ghost var start := disk.now;
    LeadsSelf(valid, start);
    var failed := disk.Fault();
    if failed {
      return Commit;
    }
    LeadsRestore(valid, start);
    var state;
    err, state := disk.MovePath(s, p);
    if err != Ok {
      err := if state == Applied || moved then Commit else TransactionError;
    }
  }

  /** `recover_installed_package`: the state records the package, so a valid copy must end up in place. */
  method RecoverInstalledPackage(valid: Validator, disk: Disk, journal: Journal, installValid: bool, stagedValid: bool)
    returns (err: CupError)
    requires disk.Valid() && Installed(disk.now, journal.package) && WellFormed(StateOf(disk.now).value)
    requires JournalOf(disk.now) == Some(journal)
    requires installValid == Healthy(valid, disk.now, Package(journal.package), journal.package)
    requires stagedValid == Healthy(valid, disk.now, Staged(journal.temporary), journal.package)
    modifies disk`now, disk`temporaries, disk`log, disk`durable, disk`nextInode
    ensures disk.Valid() && disk.Grew()
    ensures !Recoverable(valid, old(disk.now)) ==> err != Ok && disk.now == old(disk.now) && disk.log == old(disk.log)
    ensures Recoverable(valid, old(disk.now)) ==>
              && Leads(valid, old(disk.now), disk.now)
              && forall k :: |old(disk.log)| <= k < |disk.log| ==> Leads(valid, old(disk.now), disk.log[k])
    ensures err == Ok ==> Ready(valid, disk.now, journal) && disk.now[JournalFile] == old(disk.now)[JournalFile]
    ensures disk.reliable ==> (err == Ok <==> Recoverable(valid, old(disk.now)))
  {
    hide Leads, Settle, SameCore, Recoverable;
    ghost var start := disk.now;
    RecoverableIff(valid, start);
    LeadsSelf(valid, start);
    if installValid {
      err := DiscardStaged(valid, disk, journal);
      return;
    }
    if !stagedValid {
      return TransactionError;
    }
    var p := Package(journal.package);
    var moved := p in disk.now;
    if moved {
      var evidence;
      err, evidence := PreserveInvalidInstall(disk, p);
      if Recoverable(valid, start) {
        LeadsPreserve(valid, start, evidence);
      }
      if err != Ok {
        return;
      }
    }
    ghost var middle := disk.now;
    LeadsMeansSame(valid, start, middle);
    err := RestoreStaged(valid, disk, journal, moved);
    forall w | Leads(valid, middle, w) ensures Leads(valid, start, w) {
      LeadsTransitive(valid, start, middle, w);
    }
  }

  /** Everything is in place and only the journal is left to clear. */
  predicate Ready(valid: Validator, w: World, journal: Journal) {
    && JournalOf(w) == Some(journal) && Staged(journal.temporary) !in w
    && if Installed(w, journal.package) then Healthy(valid, w, Package(journal.package), journal.package)
       else Package(journal.package) !in w
  }

  /** `recover_absent_package`: the state does not record the package, so both paths are deleted. */
  method RecoverAbsentPackage(valid: Validator, disk: Disk, journal: Journal) returns (err: CupError)
    requires disk.Valid() && Recoverable(valid, disk.now)
    requires JournalOf(disk.now) == Some(journal) && !Installed(disk.now, journal.package)
    modifies disk`now, disk`log
    ensures disk.Valid() && disk.Grew()
    ensures Leads(valid, old(disk.now), disk.now)
    ensures forall k :: |old(disk.log)| <= k < |disk.log| ==> Leads(valid, old(disk.now), disk.log[k])
    ensures err == Ok ==> Ready(valid, disk.now, journal) && disk.now[JournalFile] == old(disk.now)[JournalFile]
    ensures disk.reliable ==> err == Ok
  {
    hide Leads, Settle, SameCore, Recoverable;
    var p, s := Package(journal.package), Staged(journal.temporary);
    ghost var start := disk.now;
    LeadsSelf(valid, start);
    if p in disk.now {
      err := disk.RemoveTree(p);
      forall w | Shrunk(start, p, w) ensures Leads(valid, start, w) {
        LeadsShrink(valid, start, p, w);
      }
      if err != Ok {
        return Commit;
      }
      LeadsShrink(valid, start, p, disk.now);
    }
    ghost var middle := disk.now;
    LeadsMeansSame(valid, start, middle);
    if s in disk.now {
      err := disk.RemoveTree(s);
      forall w | Shrunk(middle, s, w) ensures Leads(valid, start, w) {
        LeadsShrink(valid, middle, s, w);
        LeadsTransitive(valid, start, middle, w);
      }
      if err != Ok {
        return Commit;
      }
      LeadsShrink(valid, middle, s, disk.now);
    }
    return Ok;
  }

  /** Brings the package of the journal in line with the state: the decision between keeping, restoring
      and deleting. */
  method BringInLine(valid: Validator, disk: Disk, journal: Journal) returns (err: CupError)
    requires disk.Valid() && JournalOf(disk.now) == Some(journal)
    requires StateOf(disk.now).Some? && WellFormed(StateOf(disk.now).value)
    modifies disk`now, disk`temporaries, disk`log, disk`durable, disk`nextInode
    ensures disk.Valid() && disk.Grew()
    ensures !Recoverable(valid, old(disk.now)) ==> err != Ok && disk.now == old(disk.now) && disk.log == old(disk.log)
    ensures Recoverable(valid, old(disk.now)) ==>
              && Leads(valid, old(disk.now), disk.now)
              && forall k :: |old(disk.log)| <= k < |disk.log| ==> Leads(valid, old(disk.now), disk.log[k])
    ensures err == Ok ==> Ready(valid, disk.now, journal) && disk.now[JournalFile] == old(disk.now)[JournalFile]
    ensures disk.reliable ==> (err == Ok <==> Recoverable(valid, old(disk.now)))
  {
    hide Leads, Settle, SameCore, Recoverable, Healthy, WellFormed;
    RecoverableIff(valid, disk.now);
    LeadsSelf(valid, disk.now);
    if journal.package in StateOf(disk.now).value.installed {
      var installValid, stagedValid;
      err, installValid := InspectHealth(valid, disk, Package(journal.package), journal.package);
      if err != Ok {
        return;
      }
      err, stagedValid := InspectHealth(valid, disk, Staged(journal.temporary), journal.package);
      if err != Ok {
        return;
      }
      err := RecoverInstalledPackage(valid, disk, journal, installValid, stagedValid);
    } else {
      err := RecoverAbsentPackage(valid, disk, journal);
    }
  }

  /** The last step: only the journal is left. */
  method ClearRecovered(valid: Validator, disk: Disk, journal: Journal) returns (err: CupError)
    requires disk.Valid() && Recoverable(valid, disk.now) && Ready(valid, disk.now, journal)
    modifies disk`now, disk`log, disk`durable
    ensures disk.Valid() && disk.Grew() && Leads(valid, old(disk.now), disk.now)
    ensures forall k :: |old(disk.log)| <= k < |disk.log| ==> Leads(valid, old(disk.now), disk.log[k])
    ensures forall name :: name != JournalFile ==> Look(disk.now, name) == Look(old(disk.now), name)
    ensures err == Ok ==>
              disk.Settled() && JournalFile !in disk.now && SameCore(disk.now, Settle(valid, old(disk.now)))
    ensures disk.reliable ==> err == Ok
  {
    hide Leads, Settle, SameCore, Recoverable;
    ghost var ready := disk.now;
    LeadsSelf(valid, ready);
    LeadsClear(valid, ready);
    err := disk.ClearJournal(disk.now[JournalFile].inode);
    if err == Ok {
      SettledAlready(valid, disk.now);
      LeadsMeansSame(valid, ready, disk.now);
    }
  }

  /** Recovery of a pending package transaction. It refuses, touching nothing, exactly when the disk is
      not recoverable; otherwise every world it ever shows still recovers to the same result, with every
      invalid tree in place or moved aside, and success means that result is in place, durable, with the
      journal and the staged path gone. */
  method Recover(valid: Validator, disk: Disk) returns (err: CupError)
    requires disk.Valid()
    modifies disk`now, disk`temporaries, disk`log, disk`durable, disk`nextInode
    ensures disk.Valid() && disk.Grew()
    ensures JournalFile !in old(disk.now) || !Recoverable(valid, old(disk.now)) ==>
              disk.now == old(disk.now) && disk.log == old(disk.log)
    ensures !Recoverable(valid, old(disk.now)) ==> err != Ok
    ensures Recoverable(valid, old(disk.now)) ==>
              && Leads(valid, old(disk.now), disk.now)
              && forall k :: |old(disk.log)| <= k < |disk.log| ==> Leads(valid, old(disk.now), disk.log[k])
    ensures err == Ok ==>
              && JournalFile !in disk.now && SameCore(disk.now, Settle(valid, old(disk.now)))
              && FollowsState(valid, old(disk.now), disk.now)
              && (JournalOf(old(disk.now)).Some? ==>
                    disk.Settled() && Staged(JournalOf(old(disk.now)).value.temporary) !in disk.now)
    ensures disk.reliable ==> (err == Ok <==> Recoverable(valid, old(disk.now)))
  {
    hide Leads, Settle, SameCore, Recoverable, FollowsState;
    SettledAlready(valid, disk.now);
    if JournalFile !in disk.now {
      SettleFollowsState(valid, disk.now, disk.now);
      return Ok;
    }
    RecoverableIff(valid, disk.now);
    LeadsSelf(valid, disk.now);
    var failed := disk.Fault();
    var loaded, state := JournalOf(disk.now), StateOf(disk.now);
    if failed || loaded.None? || state.None? || !WellFormed(state.value) {
      return TransactionError;
    }
    var journal := loaded.value;
    ghost var start := disk.now;
    err := BringInLine(valid, disk, journal);
    if err != Ok {
      return;
    }
    ghost var ready := disk.now;
    LeadsMeansSame(valid, start, ready);
    err := ClearRecovered(valid, disk, journal);
    forall w | Leads(valid, ready, w) ensures Leads(valid, start, w) {
      LeadsTransitive(valid, start, ready, w);
    }
    if err == Ok {
      SettledAlready(valid, disk.now);
      LeadsMeansSame(valid, start, disk.now);
      assert Look(disk.now, Staged(journal.temporary)) == Look(ready, Staged(journal.temporary));
      SettleFollowsState(valid, start, disk.now);
    }
  }

  /** Some staging name and some recovery name are always free. */
  lemma FreshNames(w: World)
    ensures exists n: nat :: Preserved(n) !in w
    ensures exists n: nat :: Staged(n) !in w
  {
    var p := set name | name in w && name.Preserved? :: name.n;
    var s := set name | name in w && name.Staged? :: name.n;
    assert Preserved(Above(p)) in w ==> Above(p) in p;
    assert Staged(Above(s)) in w ==> Above(s) in s;
  }

  /** A number above every member of a finite set. */
  ghost function Above(used: set<nat>): (n: nat)
    ensures forall k :: k in used ==> k < n
  {
    if used == {} then 0
    else
      var m :| m in used;
      var rest := Above(used - {m});
      assert forall k :: k in used ==> k == m || k in used - {m};
      if rest <= m then m + 1 else rest
  }
}
