/** Installed packages and defaults. `Doc` is what a state means; `CupState` is the record of arrays
    that the operations edit in place. */
module States {
  import opened Text
  import opened Domain
  import Versions

  datatype Doc = Doc(installed: set<Identity>, defaults: map<Scope, Identity>)

  /** Identities are valid, and every default is installed and filed under its own scope. */
  predicate WellFormed(d: Doc) {
    && (forall id :: id in d.installed ==> ValidIdentity(id))
    && (forall s :: s in d.defaults ==> d.defaults[s] in d.installed && ScopeOf(d.defaults[s]) == s)
  }

  function WithInstalled(d: Doc, id: Identity): Doc {
    d.(installed := d.installed + {id})
  }

  function WithoutInstalled(d: Doc, id: Identity): Doc {
    d.(installed := d.installed - {id})
  }

  function WithDefault(d: Doc, id: Identity): Doc {
    d.(defaults := d.defaults[ScopeOf(id) := id])
  }

  function WithoutDefault(d: Doc, s: Scope): Doc {
    d.(defaults := d.defaults - {s})
  }

  /** The default of the scope of `id` is dropped when it is `id` itself. */
  function WithoutMatchingDefault(d: Doc, id: Identity): Doc {
    var s := ScopeOf(id);
    if s in d.defaults && d.defaults[s] == id then WithoutDefault(d, s) else d
  }

  predicate InstalledInScope(d: Doc, s: Scope, id: Identity) {
    id in d.installed && ScopeOf(id) == s
  }

  /** `r` is what an update of `tool` in `s` starts from: the default if it is of that tool, and
      otherwise the newest installed release of the tool. */
  predicate IsToolReference(d: Doc, s: Scope, tool: string, r: Identity, isDefault: bool)
    requires WellFormed(d)
  {
    if s in d.defaults && d.defaults[s].tool == tool then
      r == d.defaults[s] && isDefault
    else
      && !isDefault && InstalledInScope(d, s, r) && r.tool == tool
      && forall other :: other in d.installed && ScopeOf(other) == s && other.tool == tool
                         ==> Versions.Cmp(other.version, r.version) <= 0
  }

  /** There is at most one reference. */
  lemma ToolReferenceUnique(d: Doc, s: Scope, tool: string, a: Identity, x: bool, b: Identity, y: bool)
    requires WellFormed(d)
    requires IsToolReference(d, s, tool, a, x) && IsToolReference(d, s, tool, b, y)
    ensures a == b && x == y
  {
    if !(s in d.defaults && d.defaults[s].tool == tool) {
      Versions.CmpSwap(a.version, b.version);
      Versions.CmpZero(a.version, b.version);
    }
  }

  /** The reference is installed; it is a default exactly when it is said to be, and otherwise every other
      release of the tool is older. */
  lemma ReferenceIsNewest(installed: seq<Identity>, defaults: seq<Identity>, s: Scope, tool: string, r: Identity,
                          isDefault: bool)
    requires ValidLists(installed, defaults)
    ensures WellFormed(DocOf(installed, defaults))
    ensures IsToolReference(DocOf(installed, defaults), s, tool, r, isDefault) ==>
              && r in installed && ScopeOf(r) == s && r.tool == tool && (isDefault <==> r in defaults)
              && (!isDefault ==> forall id :: id in installed && ScopeOf(id) == s && id.tool == tool && id != r ==>
                                   Versions.IsOlder(id.version, r.version))
  {
    hide Versions.Cmp, Versions.Older, Versions.KeyOf, Versions.IsVersion, DefaultMap;
    ValidListsAreWellFormed(installed, defaults);
    DefaultMapMeaning(defaults);
    var d := DocOf(installed, defaults);
    if IsToolReference(d, s, tool, r, isDefault) && !isDefault {
      forall id | id in installed && ScopeOf(id) == s && id.tool == tool && id != r
        ensures Versions.IsOlder(id.version, r.version)
      {
        Versions.CmpZero(id.version, r.version);
        Versions.CmpIsAge(id.version, r.version);
      }
    }
  }

  // ---- Arrays and what they mean ----

  const MAX_STATE_DEFAULTS := |COMPONENTS| * |PLATFORMS|

  ghost function Members(ids: seq<Identity>): set<Identity> {
    set id | id in ids
  }

  /** The default map of a list; a later entry of a scope would win, but valid lists have none. */
  function DefaultMap(ids: seq<Identity>): map<Scope, Identity> {
    if ids == [] then map[]
    else DefaultMap(ids[..|ids| - 1])[ScopeOf(ids[|ids| - 1]) := ids[|ids| - 1]]
  }

  predicate Distinct(ids: seq<Identity>) {
    forall i, j :: 0 <= i < j < |ids| ==> ids[i] != ids[j]
  }

  predicate DistinctScopes(ids: seq<Identity>) {
    forall i, j :: 0 <= i < j < |ids| ==> ScopeOf(ids[i]) != ScopeOf(ids[j])
  }

  lemma {:induction false} DefaultMapMeaning(ids: seq<Identity>)
    requires DistinctScopes(ids)
    ensures forall i :: 0 <= i < |ids| ==>
              ScopeOf(ids[i]) in DefaultMap(ids) && DefaultMap(ids)[ScopeOf(ids[i])] == ids[i]
    ensures forall s :: s in DefaultMap(ids) ==> DefaultMap(ids)[s] in ids && ScopeOf(DefaultMap(ids)[s]) == s
  {
    if ids != [] {
      var rest := ids[..|ids| - 1];
      DefaultMapMeaning(rest);
      assert ids == rest + [ids[|ids| - 1]];
      forall i | 0 <= i < |ids| - 1
        ensures ScopeOf(ids[i]) in DefaultMap(ids) && DefaultMap(ids)[ScopeOf(ids[i])] == ids[i]
      {
        assert rest[i] == ids[i];
      }
    }
  }

  /** Two lists with the same members mean the same map, whatever their order. */
  lemma SameMembersSameMap(a: seq<Identity>, b: seq<Identity>)
    requires DistinctScopes(a) && DistinctScopes(b) && forall id :: id in a <==> id in b
    ensures DefaultMap(a) == DefaultMap(b)
  {
    DefaultMapMeaning(a);
    DefaultMapMeaning(b);
    forall s ensures s in DefaultMap(a) <==> s in DefaultMap(b)
      ensures s in DefaultMap(a) ==> s in DefaultMap(b) && DefaultMap(a)[s] == DefaultMap(b)[s]
    {
      if s in DefaultMap(a) {
        assert DefaultMap(a)[s] in b;
      }
      if s in DefaultMap(b) {
        assert DefaultMap(b)[s] in a;
      }
    }
  }

  ghost function DocOf(installed: seq<Identity>, defaults: seq<Identity>): Doc {
    Doc(Members(installed), DefaultMap(defaults))
  }

  /** What `state_validate` accepts. */
  predicate ValidLists(installed: seq<Identity>, defaults: seq<Identity>) {
    && |defaults| <= MAX_STATE_DEFAULTS
    && Distinct(installed) && (forall i :: 0 <= i < |installed| ==> ValidIdentity(installed[i]))
    && DistinctScopes(defaults) && (forall i :: 0 <= i < |defaults| ==> defaults[i] in installed)
  }

  /** Valid arrays mean a well-formed document. */
  lemma ValidListsAreWellFormed(installed: seq<Identity>, defaults: seq<Identity>)
    requires ValidLists(installed, defaults)
    ensures WellFormed(DocOf(installed, defaults))
  {
    DefaultMapMeaning(defaults);
  }

  // ---- Defaults never run out on one host ----

  function AllScopes(host: string): (r: seq<Scope>)
    ensures |r| == MAX_STATE_DEFAULTS
  {
    seq(MAX_STATE_DEFAULTS, i requires 0 <= i < MAX_STATE_DEFAULTS =>
      Scope(COMPONENTS[i / |PLATFORMS|], host, PLATFORMS[i % |PLATFORMS|]))
  }

  lemma ScopeIsListed(s: Scope)
    requires ValidScope(s)
    ensures s in AllScopes(s.host)
  {
    var c :| 0 <= c < |COMPONENTS| && COMPONENTS[c] == s.component;
    var t :| 0 <= t < |PLATFORMS| && PLATFORMS[t] == s.target;
    var i := c * |PLATFORMS| + t;
    assert i / |PLATFORMS| == c && i % |PLATFORMS| == t;
    assert AllScopes(s.host)[i] == s;
  }

  /** Distinct values drawn from a list are no more than the list is long. */
  lemma {:induction false} Pigeonhole<T>(values: seq<T>, holes: seq<T>)
    requires forall i, j :: 0 <= i < j < |values| ==> values[i] != values[j]
    requires forall i :: 0 <= i < |values| ==> values[i] in holes
    ensures |values| <= |holes|
    decreases |values|
  {
    if values != [] {
      var last := values[|values| - 1];
      var h :| 0 <= h < |holes| && holes[h] == last;
      var rest := holes[..h] + holes[h + 1..];
      forall i | 0 <= i < |values| - 1 ensures values[i] in rest {
        var k :| 0 <= k < |holes| && holes[k] == values[i];
        assert k != h;
        assert rest[if k < h then k else k - 1] == values[i];
      }
      Pigeonhole(values[..|values| - 1], rest);
    }
  }

  /** With every default on one host, a valid scope that is not taken always finds a free slot. */
  lemma RoomForEveryScope(defaults: seq<Identity>, id: Identity)
    requires DistinctScopes(defaults) && ValidIdentity(id)
    requires forall i :: 0 <= i < |defaults| ==> ValidIdentity(defaults[i]) && defaults[i].host == id.host
    requires forall i :: 0 <= i < |defaults| ==> ScopeOf(defaults[i]) != ScopeOf(id)
    ensures |defaults| < MAX_STATE_DEFAULTS
  {
    var s := ScopeOf(id);
    var taken := seq(|defaults|, i requires 0 <= i < |defaults| => ScopeOf(defaults[i])) + [s];
    forall i | 0 <= i < |taken| ensures taken[i] in AllScopes(s.host) {
      ScopeIsListed(taken[i]);
    }
    Pigeonhole(taken, AllScopes(s.host));
  }

  // ---- The operations ----

  lemma CloseGap(ids: seq<Identity>, index: nat)
    requires Distinct(ids) && index < |ids|
    ensures var after := ids[..index] + ids[index + 1..];
            && Distinct(after) && |after| == |ids| - 1
            && (forall k :: 0 <= k < |after| ==> after[k] == ids[Skip(index, k)])
            && Members(after) == Members(ids) - {ids[index]}
            && forall id :: id in after <==> id in ids && id != ids[index]
  {
    var after := ids[..index] + ids[index + 1..];
    forall id ensures id in after <==> id in ids && id != ids[index] {
      if id in ids && id != ids[index] {
        var k :| 0 <= k < |ids| && ids[k] == id;
        assert after[if k < index then k else k - 1] == id;
      }
    }
  }

  class CupState {
    var installed: seq<Identity>
    var defaults: seq<Identity>

    constructor ()
      ensures installed == [] && defaults == [] && Valid()
    {
      installed, defaults := [], [];
    }

    predicate Valid()
      reads this
    {
      ValidLists(installed, defaults)
    }

    ghost function Contents(): Doc
      reads this
    {
      DocOf(installed, defaults)
    }

    method FindInstalledIndex(id: Identity) returns (index: int)
      ensures -1 <= index < |installed|
      ensures index >= 0 ==> installed[index] == id
      ensures index < 0 ==> id !in installed
    {
      for i := 0 to |installed|
        invariant forall k :: 0 <= k < i ==> installed[k] != id
      {
        if installed[i] == id {
          return i;
        }
      }
      return -1;
    }

    method FindDefaultIndex(s: Scope) returns (index: int)
      ensures -1 <= index < |defaults|
      ensures index >= 0 ==> ScopeOf(defaults[index]) == s
      ensures index < 0 ==> forall k :: 0 <= k < |defaults| ==> ScopeOf(defaults[k]) != s
    {
      for i := 0 to |defaults|
        invariant forall k :: 0 <= k < i ==> ScopeOf(defaults[k]) != s
      {
        if ScopeOf(defaults[i]) == s {
          return i;
        }
      }
      return -1;
    }

    /** `state_validate`: nested scans over both arrays. */
    method Validate() returns (err: CupError)
      ensures err == if Valid() then Ok else InconsistentState
    {
      hide ValidIdentity;
      if |defaults| > MAX_STATE_DEFAULTS {
        return InconsistentState;
      }
      for i := 0 to |installed|
        invariant forall k :: 0 <= k < i ==> ValidIdentity(installed[k])
        invariant forall j, k :: 0 <= j < k < i ==> installed[j] != installed[k]
      {
        if !ValidIdentity(installed[i]) {
          return InconsistentState;
        }
        for j := 0 to i
          invariant forall k :: 0 <= k < j ==> installed[k] != installed[i]
        {
          if installed[j] == installed[i] {
            return InconsistentState;
          }
        }
      }
      for i := 0 to |defaults|
        invariant forall k :: 0 <= k < i ==> defaults[k] in installed
        invariant forall j, k :: 0 <= j < k < i ==> ScopeOf(defaults[j]) != ScopeOf(defaults[k])
      {
        if !ValidIdentity(defaults[i]) {
          assert !(defaults[i] in installed);
          return InconsistentState;
        }
        for j := 0 to i
          invariant forall k :: 0 <= k < j ==> ScopeOf(defaults[k]) != ScopeOf(defaults[i])
        {
          if ScopeOf(defaults[j]) == ScopeOf(defaults[i]) {
            return InconsistentState;
          }
        }
        var index := FindInstalledIndex(defaults[i]);
        if index < 0 {
          return InconsistentState;
        }
      }
      return Ok;
    }

    method AddInstalled(id: Identity) returns (err: CupError)
      requires Valid()
      modifies this`installed
      ensures Valid()
      ensures err == if !ValidIdentity(id) then InvalidInput
                     else if id in old(installed) then AlreadyInstalled else Ok
      ensures installed == if err == Ok then old(installed) + [id] else old(installed)
      ensures err == Ok ==> Contents() == WithInstalled(old(Contents()), id)
    {
      if !ValidIdentity(id) {
        return InvalidInput;
      }
      var index := FindInstalledIndex(id);
      if index >= 0 {
        return AlreadyInstalled;
      }
      installed := installed + [id];
      return Ok;
    }

    method RemoveInstalled(id: Identity) returns (err: CupError)
      requires Valid()
      modifies this`installed
      ensures Valid()
      ensures err == if !ValidIdentity(id) then InvalidInput
                     else if id !in old(installed) then NotInstalled
                     else if id in defaults then InconsistentState else Ok
      ensures err != Ok ==> installed == old(installed)
      ensures err == Ok ==> Contents() == WithoutInstalled(old(Contents()), id) && |installed| == |old(installed)| - 1
      ensures err == Ok ==>
                exists index :: 0 <= index < |old(installed)| && old(installed)[index] == id
                  && installed == old(installed)[..index] + old(installed)[index + 1..]
    {
      hide ValidIdentity, DefaultMap;
      if !ValidIdentity(id) {
        return InvalidInput;
      }
      var index := FindInstalledIndex(id);
      if index < 0 {
        return NotInstalled;
      }
      for i := 0 to |defaults|
        invariant forall k :: 0 <= k < i ==> defaults[k] != id
      {
        if defaults[i] == id {
          return InconsistentState;
        }
      }
      CloseGap(installed, index);
      installed := installed[..index] + installed[index + 1..];
      return Ok;
    }

    method GetDefault(s: Scope) returns (r: Option<Identity>)
      requires Valid()
      ensures r == if s in Contents().defaults then Some(Contents().defaults[s]) else None
    {
      DefaultMapMeaning(defaults);
      var index := FindDefaultIndex(s);
      return if index < 0 then None else Some(defaults[index]);
    }

    /** Replaces or appends the default of a scope. The array is full only if every slot is taken by
        another scope, which cannot happen while all records share one host. */
    method SetDefault(id: Identity) returns (err: CupError)
      requires Valid()
      modifies this`defaults
      ensures Valid()
      ensures err == if !ValidIdentity(id) then InvalidInput
                     else if id !in installed then InconsistentState
                     else if ScopeOf(id) !in old(Contents()).defaults && |old(defaults)| == MAX_STATE_DEFAULTS
                     then DefaultFull else Ok
      ensures err == DefaultFull ==> exists other :: other in old(defaults) && other.host != id.host
      ensures err != Ok ==> defaults == old(defaults)
      ensures err == Ok ==> Contents() == WithDefault(old(Contents()), id)
    {
      hide ValidIdentity, DefaultMap;
      if !ValidIdentity(id) {
        return InvalidInput;
      }
      var index := FindInstalledIndex(id);
      if index < 0 {
        return InconsistentState;
      }
      ghost var before := defaults;
      DefaultMapMeaning(before);
      index := FindDefaultIndex(ScopeOf(id));
      if index >= 0 {
        defaults := defaults[index := id];
        UpdatedMap(before, index, id);
        return Ok;
      }
      if |defaults| >= MAX_STATE_DEFAULTS {
        if forall k :: 0 <= k < |defaults| ==> defaults[k].host == id.host {
          RoomForEveryScope(defaults, id);
        }
        return DefaultFull;
      }
      defaults := defaults + [id];
      AppendedMap(before, id);
      return Ok;
    }

    /** Shifts the later defaults down one slot. */
    method ClearDefault(s: Scope)
      requires DistinctScopes(defaults)
      modifies this`defaults
      ensures DistinctScopes(defaults) && (old(Valid()) ==> Valid())
      ensures Contents() == WithoutDefault(old(Contents()), s)
      ensures |defaults| == if s in old(Contents()).defaults then |old(defaults)| - 1 else |old(defaults)|
      ensures s !in old(Contents()).defaults ==> defaults == old(defaults)
      ensures s in old(Contents()).defaults ==>
                exists index :: 0 <= index < |old(defaults)| && ScopeOf(old(defaults)[index]) == s
                  && defaults == old(defaults)[..index] + old(defaults)[index + 1..]
    {
      hide DefaultMap, ValidIdentity;
      ghost var before := defaults;
      DefaultMapMeaning(before);
      var index := FindDefaultIndex(s);
      if index < 0 {
        assert DefaultMap(before) - {s} == DefaultMap(before);
        return;
      }
      CloseSlot(index);
      RemovedMap(before, index, defaults);
    }

    /** Moves every record after the slot one down and drops the last. */
    method CloseSlot(index: nat)
      requires index < |defaults|
      modifies this`defaults
      ensures defaults == old(defaults)[..index] + old(defaults)[index + 1..]
      ensures |defaults| == |old(defaults)| - 1
      ensures forall k :: 0 <= k < |defaults| ==> defaults[k] == old(defaults)[Skip(index, k)]
    {
      ghost var before := defaults;
      var i := index;
      while i + 1 < |defaults|
        invariant index <= i < |defaults| && |defaults| == |before|
        invariant forall k :: 0 <= k < i ==> defaults[k] == before[Skip(index, k)]
        invariant forall k :: i <= k < |before| ==> defaults[k] == before[k]
      {
        defaults := defaults[i := defaults[i + 1]];
        i := i + 1;
      }
      defaults := defaults[..|defaults| - 1];
      SlotClosed(before, index, defaults);
    }

    method ClearMatchingDefault(id: Identity) returns (err: CupError)
      requires Valid()
      modifies this`defaults
      ensures Valid()
      ensures err == if ValidIdentity(id) then Ok else InvalidInput
      ensures Contents() == if err == Ok then WithoutMatchingDefault(old(Contents()), id) else old(Contents())
      ensures err == Ok ==> id !in defaults
      ensures id !in old(defaults) ==> defaults == old(defaults)
    {
      hide ValidIdentity, DefaultMap;
      if !ValidIdentity(id) {
        return InvalidInput;
      }
      DefaultMapMeaning(defaults);
      var current := GetDefault(ScopeOf(id));
      if current == Some(id) {
        ClearDefault(ScopeOf(id));
      }
      DefaultMapMeaning(defaults);
      return Ok;
    }

    /** The release an update of `tool` starts from. */
    method GetToolReference(s: Scope, tool: string) returns (err: CupError, reference: Identity, isDefault: bool)
      requires Valid()
      ensures err == Ok || err == NotInstalled
      ensures WellFormed(Contents())
      ensures err == Ok ==> IsToolReference(Contents(), s, tool, reference, isDefault)
      ensures err == NotInstalled ==> forall r, b :: !IsToolReference(Contents(), s, tool, r, b)
      ensures err == NotInstalled ==> forall id :: id in installed ==> ScopeOf(id) != s || id.tool != tool
      ensures err == Ok ==> reference in installed && ScopeOf(reference) == s && reference.tool == tool
      ensures err == Ok ==> (isDefault <==> reference in defaults)
      ensures err == Ok && !isDefault ==>
                forall id :: id in installed && ScopeOf(id) == s && id.tool == tool && id != reference ==>
                  Versions.IsOlder(id.version, reference.version)
    {
      ValidListsAreWellFormed(installed, defaults);
      hide DefaultMap, BestSoFar, ValidIdentity, IsToolReference, Versions.IsOlder;
      ReferenceCases(installed, defaults, s, tool);
      forall r, b | IsToolReference(Contents(), s, tool, r, b)
        ensures r in installed && ScopeOf(r) == s && r.tool == tool && (b <==> r in defaults)
        ensures !b ==>
                  forall id :: id in installed && ScopeOf(id) == s && id.tool == tool && id != r ==>
                    Versions.IsOlder(id.version, r.version)
      {
        ReferenceIsNewest(installed, defaults, s, tool, r, b);
      }
      reference, isDefault := Identity("", "", "", "", ""), false;
      var current := GetDefault(s);
      if current.Some? && current.value.tool == tool {
        return Ok, current.value, true;
      }
      var best := NewestInstalled(s, tool);
      if best.None? {
        return NotInstalled, reference, false;
      }
      return Ok, best.value, false;
    }

    /** The newest installed release of a tool in a scope. */
    method NewestInstalled(s: Scope, tool: string) returns (best: Option<Identity>)
      requires forall i :: 0 <= i < |installed| ==> ValidIdentity(installed[i])
      ensures BestSoFar(installed, s, tool, best)
    {
      hide BestSoFar, ValidIdentity;
      best := None;
      NoneYet(s, tool);
      for i := 0 to |installed|
        invariant BestSoFar(installed[..i], s, tool, best)
      {
        assert installed[..i + 1] == installed[..i] + [installed[i]];
        var candidate := installed[i];
        NewBest(installed[..i], s, tool, best, candidate);
        if ScopeOf(candidate) == s && candidate.tool == tool {
          if best.None? {
            best := Some(candidate);
          } else {
            var status, comparison := Versions.ReleaseCompare(candidate.version, best.value.version);
            if comparison > 0 {
              best := Some(candidate);
            }
          }
        }
      }
      assert installed[..|installed|] == installed;
    }
  }

  lemma SlotClosed(before: seq<Identity>, index: nat, after: seq<Identity>)
    requires index < |before| && |after| == |before| - 1
    requires forall k :: 0 <= k < |after| ==> after[k] == before[Skip(index, k)]
    ensures after == before[..index] + before[index + 1..]
  {}

  /** `best` is the newest of the candidates of one tool among `ids`. */
  ghost predicate BestSoFar(ids: seq<Identity>, s: Scope, tool: string, best: Option<Identity>) {
    && (forall id :: id in ids ==> ValidIdentity(id))
    && (best.None? ==> forall id :: id in ids ==> ScopeOf(id) != s || id.tool != tool)
    && (best.Some? ==>
          && best.value in ids && ScopeOf(best.value) == s && best.value.tool == tool
          && forall id :: id in ids && ScopeOf(id) == s && id.tool == tool
                          ==> Versions.Cmp(id.version, best.value.version) <= 0)
  }

  lemma NoneYet(s: Scope, tool: string)
    ensures BestSoFar([], s, tool, None)
  {}

  lemma NewBest(ids: seq<Identity>, s: Scope, tool: string, best: Option<Identity>, candidate: Identity)
    requires BestSoFar(ids, s, tool, best) && ValidIdentity(candidate)
    ensures best.Some? ==> Versions.IsVersion(best.value.version)
    ensures Versions.IsVersion(candidate.version)
    ensures BestSoFar(ids + [candidate], s, tool,
                      if ScopeOf(candidate) == s && candidate.tool == tool
                         && (best.None? || Versions.KeyCmp(Versions.KeyOf(candidate.version),
                                                           Versions.KeyOf(best.value.version)) > 0)
                      then Some(candidate) else best)
  {
    hide Versions.IsVersion, Versions.KeyOf, Versions.KeyCmp;
    Versions.CmpZero(candidate.version, candidate.version);
    if best.Some? {
      Versions.CmpSwap(candidate.version, best.value.version);
      forall id | id in ids && ScopeOf(id) == s && id.tool == tool
                  && Versions.Cmp(candidate.version, best.value.version) > 0
        ensures Versions.Cmp(id.version, candidate.version) <= 0
      {
        Versions.CmpTransitive(id.version, best.value.version, candidate.version);
      }
    }
  }

  /** When something is, and when nothing is, the reference of a tool. */
  lemma ReferenceCases(installed: seq<Identity>, defaults: seq<Identity>, s: Scope, tool: string)
    requires ValidLists(installed, defaults)
    ensures WellFormed(DocOf(installed, defaults))
    ensures var d := DocOf(installed, defaults);
            if s in d.defaults && d.defaults[s].tool == tool
            then IsToolReference(d, s, tool, d.defaults[s], true)
            else
              && (forall best :: BestSoFar(installed, s, tool, Some(best)) ==> IsToolReference(d, s, tool, best, false))
              && (BestSoFar(installed, s, tool, None) ==>
                    && (forall r, b :: !IsToolReference(d, s, tool, r, b))
                    && forall id :: id in installed ==> ScopeOf(id) != s || id.tool != tool)
  {
    hide Versions.Cmp, ValidIdentity, DefaultMap;
    ValidListsAreWellFormed(installed, defaults);
  }

  /** A map that files exactly the members of a list under their scopes is the map of the list. */
  lemma MapByMeaning(ids: seq<Identity>, m: map<Scope, Identity>)
    requires DistinctScopes(ids)
    requires forall i :: 0 <= i < |ids| ==> ScopeOf(ids[i]) in m && m[ScopeOf(ids[i])] == ids[i]
    requires forall s :: s in m ==> exists i :: 0 <= i < |ids| && ScopeOf(ids[i]) == s
    ensures DefaultMap(ids) == m
  {
    hide DefaultMap;
    DefaultMapMeaning(ids);
    var d := DefaultMap(ids);
    forall s ensures s in d <==> s in m
      ensures s in d ==> d[s] == m[s]
    {
      if s in d {
        var i :| 0 <= i < |ids| && ids[i] == d[s];
      }
      if s in m {
        var i :| 0 <= i < |ids| && ScopeOf(ids[i]) == s;
      }
    }
  }

  lemma UpdatedMap(ids: seq<Identity>, index: nat, id: Identity)
    requires DistinctScopes(ids) && index < |ids| && ScopeOf(ids[index]) == ScopeOf(id)
    ensures DistinctScopes(ids[index := id])
    ensures DefaultMap(ids[index := id]) == DefaultMap(ids)[ScopeOf(id) := id]
  {
    hide DefaultMap;
    var after, m := ids[index := id], DefaultMap(ids)[ScopeOf(id) := id];
    DefaultMapMeaning(ids);
    forall s | s in m ensures exists i :: 0 <= i < |after| && ScopeOf(after[i]) == s {
      if s != ScopeOf(id) {
        var k :| 0 <= k < |ids| && ids[k] == DefaultMap(ids)[s];
        assert ScopeOf(after[k]) == s;
      } else {
        assert ScopeOf(after[index]) == s;
      }
    }
    MapByMeaning(after, m);
  }

  lemma AppendedMap(ids: seq<Identity>, id: Identity)
    ensures DefaultMap(ids + [id]) == DefaultMap(ids)[ScopeOf(id) := id]
  {
    assert (ids + [id])[..|ids|] == ids;
  }

  lemma RemovedMap(ids: seq<Identity>, index: nat, after: seq<Identity>)
    requires DistinctScopes(ids) && index < |ids| && |after| == |ids| - 1
    requires forall k :: 0 <= k < |after| ==> after[k] == ids[Skip(index, k)]
    ensures DistinctScopes(after) && DefaultMap(after) == DefaultMap(ids) - {ScopeOf(ids[index])}
    ensures forall k :: 0 <= k < |after| ==> after[k] in ids
  {
    hide DefaultMap;
    var gone := ScopeOf(ids[index]);
    var d := DefaultMap(ids);
    var m := d - {gone};
    DefaultMapMeaning(ids);
    forall j, k | 0 <= j < k < |after| ensures ScopeOf(after[j]) != ScopeOf(after[k]) {
      assert Skip(index, j) < Skip(index, k);
    }
    forall k | 0 <= k < |after| ensures ScopeOf(after[k]) in m && m[ScopeOf(after[k])] == after[k] {
      var origin := Skip(index, k);
      assert ScopeOf(ids[origin]) in d && d[ScopeOf(ids[origin])] == ids[origin];
      assert ScopeOf(ids[origin]) != gone by {
        assert origin != index;
      }
    }
    forall s | s in m ensures exists i :: 0 <= i < |after| && ScopeOf(after[i]) == s {
      var k :| 0 <= k < |ids| && ids[k] == d[s];
      assert k != index;
      var i := if k < index then k else k - 1;
      assert Skip(index, i) == k;
      assert ScopeOf(after[i]) == s;
    }
    MapByMeaning(after, m);
  }

  /** Where the k-th survivor came from when one slot is closed. */
  function Skip(index: nat, k: nat): nat {
    if k < index then k else k + 1
  }

  // ---- Whole sequences of operations ----

  datatype Edit =
    | AddEdit(id: Identity)
    | RemoveEdit(id: Identity)
    | SetEdit(id: Identity)
    | ClearEdit(scope: Scope)
    | ClearMatchingEdit(id: Identity)

  predicate OnHost(ids: seq<Identity>, host: string) {
    forall i :: 0 <= i < |ids| ==> ids[i].host == host
  }

  predicate AddsOnHost(edits: seq<Edit>, host: string) {
    forall k :: 0 <= k < |edits| && edits[k].AddEdit? ==> edits[k].id.host == host
  }

  /** The answer to one edit of a state with this meaning. */
  function EditAnswer(d: Doc, edit: Edit): CupError {
    match edit
    case AddEdit(id) =>
      if !ValidIdentity(id) then InvalidInput else if id in d.installed then AlreadyInstalled else Ok
    case RemoveEdit(id) =>
      if !ValidIdentity(id) then InvalidInput
      else if id !in d.installed then NotInstalled
      else if id in d.defaults.Values then InconsistentState else Ok
    case SetEdit(id) =>
      if !ValidIdentity(id) then InvalidInput
      else if id !in d.installed then InconsistentState
      else if ScopeOf(id) !in d.defaults && |d.defaults| == MAX_STATE_DEFAULTS then DefaultFull else Ok
    case ClearEdit(_) => Ok
    case ClearMatchingEdit(id) => if ValidIdentity(id) then Ok else InvalidInput
  }

  /** A refused edit changes nothing. */
  function Edited(d: Doc, edit: Edit): Doc {
    if EditAnswer(d, edit) != Ok then d
    else
      match edit
      case AddEdit(id) => WithInstalled(d, id)
      case RemoveEdit(id) => WithoutInstalled(d, id)
      case SetEdit(id) => WithDefault(d, id)
      case ClearEdit(scope) => WithoutDefault(d, scope)
      case ClearMatchingEdit(id) => WithoutMatchingDefault(d, id)
  }

  /** The meaning after the first `n` edits. */
  function EditedBy(d: Doc, edits: seq<Edit>, n: nat): Doc
    requires n <= |edits|
  {
    if n == 0 then d else Edited(EditedBy(d, edits, n - 1), edits[n - 1])
  }

  /** Any sequence of operations, failing or not, does to the arrays what the edits do to their meaning,
      answers each edit as that calls for, and keeps the state valid; while everything belongs to one host
      the bounded defaults never report full. */
  method RunEdits(state: CupState, edits: seq<Edit>, host: string) returns (errors: seq<CupError>)
    requires state.Valid()
    modifies state
    ensures state.Valid() && WellFormed(state.Contents()) && |errors| == |edits|
    ensures state.Contents() == EditedBy(old(state.Contents()), edits, |edits|)
    ensures forall k :: 0 <= k < |errors| ==>
              errors[k] == EditAnswer(EditedBy(old(state.Contents()), edits, k), edits[k])
    ensures old(OnHost(state.installed, host)) && AddsOnHost(edits, host) ==>
              OnHost(state.installed, host) && forall k :: 0 <= k < |errors| ==> errors[k] != DefaultFull
  {
    hide ValidIdentity, DefaultMap, WellFormed, EditAnswer, Edited;
    ghost var oneHost := OnHost(state.installed, host) && AddsOnHost(edits, host);
    ghost var start := state.Contents();
    errors := [];
    for i := 0 to |edits|
      invariant state.Valid() && |errors| == i && state.Contents() == EditedBy(start, edits, i)
      invariant forall k :: 0 <= k < i ==> errors[k] == EditAnswer(EditedBy(start, edits, k), edits[k])
      invariant oneHost ==> OnHost(state.installed, host) && forall k :: 0 <= k < i ==> errors[k] != DefaultFull
    {
      ghost var before := state.installed;
      var err := ApplyEdit(state, edits[i]);
      if oneHost {
        StaysOnHost(before, state.installed, edits[i], host);
      }
      errors := errors + [err];
    }
    ValidListsAreWellFormed(state.installed, state.defaults);
  }

  lemma StaysOnHost(before: seq<Identity>, after: seq<Identity>, edit: Edit, host: string)
    requires OnHost(before, host) && (edit.AddEdit? ==> edit.id.host == host)
    requires forall id :: id in after ==> id in before || edit == AddEdit(id)
    ensures OnHost(after, host) && forall id :: id in after ==> id.host == host
  {
    forall k | 0 <= k < |after| ensures after[k].host == host {
      assert after[k] in after;
    }
  }

  lemma {:induction false} DefaultMapSize(ids: seq<Identity>)
    requires DistinctScopes(ids)
    ensures |DefaultMap(ids)| == |ids|
  {
    if ids != [] {
      var front, last := ids[..|ids| - 1], ids[|ids| - 1];
      DefaultMapSize(front);
      DefaultMapMeaning(front);
    }
  }

  lemma DefaultIsListed(ids: seq<Identity>, id: Identity)
    requires DistinctScopes(ids)
    ensures id in DefaultMap(ids).Values <==> id in ids
  {
    DefaultMapMeaning(ids);
  }

  method ApplyEdit(state: CupState, edit: Edit) returns (err: CupError)
    requires state.Valid()
    modifies state
    ensures state.Valid()
    ensures err == EditAnswer(old(state.Contents()), edit)
    ensures state.Contents() == Edited(old(state.Contents()), edit)
    ensures forall id :: id in state.installed ==> id in old(state.installed) || edit == AddEdit(id)
    ensures err == DefaultFull ==> edit.SetEdit? && edit.id in state.installed
                                   && exists other :: other in state.installed && other.host != edit.id.host
  {
    hide ValidIdentity, DefaultMap;
    DefaultMapSize(state.defaults);
    match edit {
      case AddEdit(id) => err := state.AddInstalled(id);
      case RemoveEdit(id) =>
        DefaultIsListed(state.defaults, id);
        err := state.RemoveInstalled(id);
      case SetEdit(id) => err := state.SetDefault(id);
      case ClearEdit(scope) =>
        state.ClearDefault(scope);
        err := Ok;
      case ClearMatchingEdit(id) => err := state.ClearMatchingDefault(id);
    }
  }
}
