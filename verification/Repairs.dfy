/** Reconciling a state with a complete scan of the package tree. */
module Repairs {
  import opened Domain
  import opened States
  import opened Disks
  import opened Recovery

  /** A record survives if it belongs to another host or its package was found. */
  predicate Survives(packages: set<Identity>, host: string, id: Identity) {
    id.host != host || id in packages
  }

  /** The state a scan calls for: records of other hosts and exactly the packages found, with every
      default whose package survives. */
  function Reconciled(d: Doc, packages: set<Identity>, host: string): Doc {
    Doc((set id | id in d.installed && id.host != host) + packages,
        map s | s in d.defaults && Survives(packages, host, d.defaults[s]) :: d.defaults[s])
  }

  /** Reconciling again with the same scan changes nothing. */
  lemma ReconciledTwice(d: Doc, packages: set<Identity>, host: string)
    ensures Reconciled(Reconciled(d, packages, host), packages, host) == Reconciled(d, packages, host)
  {
    var once := Reconciled(d, packages, host);
    var twice := Reconciled(once, packages, host);
    assert twice.installed == once.installed;
    assert twice.defaults == once.defaults;
  }

  /** A state needs no reconciliation exactly when it lists, for this host, just the packages found. */
  lemma NothingToReconcile(d: Doc, packages: set<Identity>, host: string)
    requires WellFormed(d)
    ensures Reconciled(d, packages, host) == d <==>
              && (forall id :: id in packages ==> id in d.installed)
              && forall id :: id in d.installed && id.host == host ==> id in packages
  {
    var after := Reconciled(d, packages, host);
    if after == d {
      forall id | id in packages ensures id in d.installed {
        assert id in after.installed;
      }
    }
    if && (forall id :: id in packages ==> id in d.installed)
       && forall id :: id in d.installed && id.host == host ==> id in packages
    {
      assert after.installed == d.installed;
      assert after.defaults == d.defaults;
    }
  }

  /** A complete scan of a disk finds the valid packages. */
  ghost predicate ScanOf(valid: Validator, w: World, packages: set<Identity>, host: string) {
    forall id :: id in packages <==> id.host == host && Healthy(valid, w, Package(id), id)
  }

  /** On a consistent disk repair leaves state alone. */
  lemma ConsistentNeedsNoRepair(valid: Validator, w: World, packages: set<Identity>, host: string)
    requires Consistent(valid, w) && ScanOf(valid, w, packages, host)
    ensures Reconciled(StateOf(w).value, packages, host) == StateOf(w).value
  {
    hide Healthy;
    var d := StateOf(w).value;
    forall id | id in packages ensures id in d.installed {
      assert Agrees(valid, w, id);
      HealthyIsPresent(valid, w, id);
    }
    forall id | id in d.installed && id.host == host ensures id in packages {
      assert Agrees(valid, w, id);
    }
    NothingToReconcile(d, packages, host);
  }

  lemma HealthyIsPresent(valid: Validator, w: World, id: Identity)
    requires Healthy(valid, w, Package(id), id)
    ensures Package(id) in w
  {}

  /** Once every invalid package is moved aside, the reconciled state makes the disk consistent on this host. */
  lemma ReconciledAgrees(valid: Validator, w: World, packages: set<Identity>, host: string, id: Identity)
    requires StateOf(w).Some? && ScanOf(valid, w, packages, host)
    requires id.host == host && (Package(id) in w ==> Healthy(valid, w, Package(id), id))
    ensures var after := w[StateFile := Object(0, StateBody(Reconciled(StateOf(w).value, packages, host)))];
            Agrees(valid, after, id)
  {}

  // ---- The three passes ----

  /** The defaults of `d` that are still installed. */
  ghost function DefaultsWithin(d: Doc, installed: seq<Identity>): map<Scope, Identity> {
    map s | s in d.defaults && d.defaults[s] in installed :: d.defaults[s]
  }

  /** Some records of `d`, with those defaults of `d` that are among them. */
  ghost predicate Trimmed(d: Doc, state: CupState)
    reads state
  {
    && (forall id :: id in state.installed ==> id in d.installed)
    && DefaultMap(state.defaults) == DefaultsWithin(d, state.installed)
  }

  method RemoveStaleInstalledEntries(state: CupState, packages: seq<Identity>, host: string)
    returns (err: CupError, changed: bool)
    requires state.Valid()
    modifies state
    ensures err == Ok && state.Valid() && Trimmed(old(state.Contents()), state)
    ensures forall id :: id in state.installed <==> id in old(state.installed) && Survives(Members(packages), host, id)
    ensures changed <==> exists id :: id in old(state.installed) && !Survives(Members(packages), host, id)
    ensures !changed ==> state.Contents() == old(state.Contents())
  {
    hide ValidIdentity, DefaultMap, Survives;
    err := Ok;
    ghost var d := state.Contents();
    DefaultMapMeaning(state.defaults);
    assert Trimmed(d, state);
    changed := false;
    var index := 0;
    while index < |state.installed|
      invariant index <= |state.installed| && state.Valid() && Trimmed(d, state)
      invariant forall k :: 0 <= k < index ==> Survives(Members(packages), host, state.installed[k])
      invariant forall id :: id in d.installed && Survives(Members(packages), host, id) ==> id in state.installed
      invariant changed ==> exists id :: id in d.installed && !Survives(Members(packages), host, id)
      invariant !changed ==> state.Contents() == d
      decreases |state.installed| - index
    {
      var id := state.installed[index];
      KeptIf(packages, host, id);
      if id.host != host || id in packages {
        index := index + 1;
        continue;
      }
      var dropped := DropRecord(state, d, id, index);
      changed := true;
    }
  }

  lemma KeptIf(packages: seq<Identity>, host: string, id: Identity)
    ensures Survives(Members(packages), host, id) <==> id.host != host || id in packages
  {}

  /** One stale record goes, together with the default that pointed at it. */
  method DropRecord(state: CupState, ghost d: Doc, id: Identity, ghost index: nat) returns (err: CupError)
    requires state.Valid() && Trimmed(d, state) && index < |state.installed| && state.installed[index] == id
    modifies state
    ensures err == Ok && state.Valid() && Trimmed(d, state)
    ensures state.installed == old(state.installed)[..index] + old(state.installed)[index + 1..]
    ensures |state.installed| == |old(state.installed)| - 1
    ensures forall other :: other in state.installed <==> other in old(state.installed) && other != id
  {
    hide DefaultMap, ValidIdentity;
    assert id in state.installed;
    ghost var before, was := state.installed, DefaultMap(state.defaults);
    DefaultMapMeaning(state.defaults);
    err := state.ClearMatchingDefault(id);
    if err != Ok {
      return;
    }
    err := state.RemoveInstalled(id);
    CloseGap(before, index);
    TrimmedAfter(d, before, id, state.installed, was, DefaultMap(state.defaults));
  }

  lemma TrimmedAfter(d: Doc, before: seq<Identity>, id: Identity, after: seq<Identity>,
                     was: map<Scope, Identity>, now: map<Scope, Identity>)
    requires forall other :: other in after <==> other in before && other != id
    requires was == DefaultsWithin(d, before) && forall s :: s in was ==> ScopeOf(was[s]) == s
    requires var s := ScopeOf(id); now == if s in was && was[s] == id then was - {s} else was
    ensures now == DefaultsWithin(d, after)
  {}

  method AdoptScannedPackages(state: CupState, packages: seq<Identity>) returns (err: CupError, changed: bool)
    requires state.Valid()
    modifies state`installed
    ensures state.Valid()
    ensures err == if forall i :: 0 <= i < |packages| ==> ValidIdentity(packages[i]) then Ok else InvalidInput
    ensures err == Ok ==> forall id :: id in state.installed <==> id in old(state.installed) || id in packages
    ensures err == Ok ==> (changed <==> exists id :: id in packages && id !in old(state.installed))
    ensures err == Ok && !changed ==> state.installed == old(state.installed)
  {
    hide ValidIdentity, DefaultMap;
    changed := false;
    for i := 0 to |packages|
      invariant state.Valid() && forall k :: 0 <= k < i ==> ValidIdentity(packages[k])
      invariant forall id :: id in state.installed <==> id in old(state.installed) || id in packages[..i]
      invariant changed <==> exists id :: id in packages[..i] && id !in old(state.installed)
      invariant !changed ==> state.installed == old(state.installed)
    {
      var package := packages[i];
      assert packages[..i + 1] == packages[..i] + [package];
      var index := state.FindInstalledIndex(package);
      if index >= 0 {
        assert package in state.installed;
      }
      if index < 0 || !ValidIdentity(package) {
        var added := state.AddInstalled(package);
        if added != Ok {
          return added, changed;
        }
        changed := true;
      }
    }
    assert packages[..|packages|] == packages;
    return Ok, changed;
  }

  predicate DefaultStays(installed: seq<Identity>, host: string, id: Identity) {
    id.host != host || id in installed
  }

  /** Drops the defaults of this host that are not installed, and only those. */
  method RemoveStaleDefaults(state: CupState, host: string) returns (changed: bool)
    requires DistinctScopes(state.defaults)
    modifies state`defaults
    ensures DistinctScopes(state.defaults) && (old(state.Valid()) ==> state.Valid())
    ensures forall s :: s in state.Contents().defaults <==>
                          s in old(state.Contents()).defaults
                          && DefaultStays(state.installed, host, old(state.Contents()).defaults[s])
    ensures forall s :: s in state.Contents().defaults ==>
                          state.Contents().defaults[s] == old(state.Contents()).defaults[s]
    ensures changed <==> exists s :: s in old(state.Contents()).defaults
                                     && !DefaultStays(state.installed, host, old(state.Contents()).defaults[s])
  {
    hide ValidIdentity, DefaultMap;
    ghost var was := DefaultMap(state.defaults);
    changed := false;
    var index := 0;
    while index < |state.defaults|
      invariant index <= |state.defaults| && DistinctScopes(state.defaults) && (old(state.Valid()) ==> state.Valid())
      invariant forall k :: 0 <= k < index ==> DefaultStays(state.installed, host, state.defaults[k])
      invariant KeptDefaults(was, DefaultMap(state.defaults), state.installed, host)
      invariant changed <==> exists s :: s in was && s !in DefaultMap(state.defaults)
      decreases |state.defaults| - index
    {
      var id := state.defaults[index];
      var found := state.FindInstalledIndex(id);
      if id.host != host || found >= 0 {
        index := index + 1;
        continue;
      }
      DefaultMapMeaning(state.defaults);
      state.ClearDefault(ScopeOf(id));
      changed := true;
    }
    ghost var now := DefaultMap(state.defaults);
    DefaultMapMeaning(state.defaults);
    forall s | s in now ensures DefaultStays(state.installed, host, was[s]) {
      assert now[s] in state.defaults;
    }
    assert was == old(state.Contents()).defaults;
    if changed {
      ghost var s: Scope :| s in was && s !in now;
      assert !DefaultStays(state.installed, host, was[s]);
    }
  }

  /** `now` is `was` without some defaults that do not stay. */
  ghost predicate KeptDefaults(was: map<Scope, Identity>, now: map<Scope, Identity>, installed: seq<Identity>,
                               host: string)
  {
    && (forall s :: s in now ==> s in was && now[s] == was[s])
    && forall s :: s in was && DefaultStays(installed, host, was[s]) ==> s in now
  }

  lemma AllStay(was: map<Scope, Identity>, now: map<Scope, Identity>, installed: seq<Identity>, host: string)
    requires forall s :: s in was ==> was[s] in installed
    requires forall s :: s in now <==> s in was && DefaultStays(installed, host, was[s])
    requires forall s :: s in now ==> now[s] == was[s]
    ensures now == was
  {}

  /** `reconcile_state`. The change flag is raised exactly when the meaning of the state changes. */
  method ReconcileState(state: CupState, packages: seq<Identity>, host: string, changedBefore: bool)
    returns (err: CupError, changed: bool)
    requires state.Valid()
    modifies state
    ensures state.Valid()
    ensures err == if forall i :: 0 <= i < |packages| ==> ValidIdentity(packages[i]) then Ok else InvalidInput
    ensures err == Ok ==> state.Contents() == Reconciled(old(state.Contents()), Members(packages), host)
    ensures err == Ok ==> (changed <==> changedBefore || state.Contents() != old(state.Contents()))
  {
    hide ValidIdentity, DefaultMap, Survives;
    ghost var d, installed := state.Contents(), state.installed;
    ValidListsAreWellFormed(state.installed, state.defaults);
    var removed, adopted, cleared;
    err, removed := RemoveStaleInstalledEntries(state, packages, host);
    ghost var kept := state.installed;
    err, adopted := AdoptScannedPackages(state, packages);
    if err != Ok {
      return err, changedBefore;
    }
    ghost var was := state.Contents().defaults;
    ValidListsAreWellFormed(state.installed, state.defaults);
    cleared := RemoveStaleDefaults(state, host);
    forall s | s in was ensures was[s] in state.installed {
    }
    AllStay(was, state.Contents().defaults, state.installed, host);
    err := state.Validate();
    changed := changedBefore || removed || adopted || cleared;
    Outcome(d, installed, kept, state.installed, state.defaults, packages, host);
  }

  lemma Outcome(d: Doc, before: seq<Identity>, kept: seq<Identity>, after: seq<Identity>, defaults: seq<Identity>,
                packages: seq<Identity>, host: string)
    requires d.installed == Members(before)
    requires forall id :: id in kept <==> id in before && Survives(Members(packages), host, id)
    requires forall id :: id in after <==> id in kept || id in packages
    requires DefaultMap(defaults) == DefaultsWithin(d, kept)
    requires forall s :: s in d.defaults ==> d.defaults[s] in d.installed
    ensures DocOf(after, defaults) == Reconciled(d, Members(packages), host)
    ensures DocOf(after, defaults) != d <==>
              || (exists id :: id in before && !Survives(Members(packages), host, id))
              || exists id :: id in packages && id !in kept
  {
    hide DefaultMap;
    var goal := Reconciled(d, Members(packages), host);
    assert Members(after) == goal.installed;
    assert DefaultsWithin(d, kept) == goal.defaults;
    forall id | id in packages ensures Survives(Members(packages), host, id) {
    }
    if DocOf(after, defaults) == d {
      forall id ensures id in before <==> id in after {
        assert id in Members(before) <==> id in Members(after);
      }
    }
    if && (forall id :: id in before ==> Survives(Members(packages), host, id))
       && forall id :: id in packages ==> id in kept
    {
      assert Members(after) == d.installed;
      assert DefaultsWithin(d, kept) == d.defaults;
    }
  }
}
