/** The package catalog after parsing: which record sets are accepted, and what queries answer. */
module Catalogs {
  import opened Text
  import opened Domain
  import Versions

  datatype Field =
    | ComponentField | ToolField | HostField | TargetField | VersionField | StableField | RevisionReasonField

  const REQUIRED_FIELDS: set<Field> := {ComponentField, ToolField, HostField, TargetField, VersionField, StableField}

  datatype ArtifactField = FormatField | UrlField | DigestField

  const REQUIRED_ARTIFACT_FIELDS: set<ArtifactField> := {FormatField, UrlField, DigestField}

  const ARCHIVE_FORMATS: set<string> := {"tar.xz", "tar.gz", "zip"}

  datatype Artifact = Artifact(format: string, url: string, sha256: string, fields: set<ArtifactField>)

  datatype Tuple = Tuple(component: string, tool: string, host: string, target: string)

  /** One record with the set of fields the document gave it. */
  datatype Entry = Entry(tuple: Tuple, version: string, stable: bool, fields: set<Field>, artifacts: seq<Artifact>)

  // ---- One record ----

  /** Every required field once, and complete artifacts of distinct formats. */
  predicate WellShaped(e: Entry) {
    && REQUIRED_FIELDS <= e.fields && e.artifacts != []
    && (forall j :: 0 <= j < |e.artifacts| ==> e.artifacts[j].fields == REQUIRED_ARTIFACT_FIELDS)
    && forall j, k :: 0 <= j < k < |e.artifacts| ==> e.artifacts[j].format != e.artifacts[k].format
  }

  predicate DomainIsOperational(t: Tuple) {
    (t.component, t.tool) in TOOLS && t.tool != "coffee" && t.host in PLATFORMS && t.target in PLATFORMS
  }

  /** `package_release_base`. */
  function ReleaseBase(version: string): string {
    version[..Versions.MarkerFrom(version, 0)]
  }

  /** A version differs from its base exactly when it denotes a revision. */
  lemma RevisedIff(version: string)
    requires Versions.IsVersion(version)
    ensures ReleaseBase(version) != version <==> Versions.KeyOf(version).revision != 0
  {
    Versions.RevisionIsPositive(version);
  }

  /** A revised version, and only a revised one, carries a reason. */
  predicate VersionContractHolds(e: Entry) {
    && Versions.IsVersion(e.version)
    && (ReleaseBase(e.version) != e.version <==> RevisionReasonField in e.fields)
  }

  predicate HasSupportedArtifact(e: Entry) {
    exists j :: 0 <= j < |e.artifacts| && e.artifacts[j].format in ARCHIVE_FORMATS
  }

  /** A record of this domain and an understood version must honour the version contract. */
  predicate Classifiable(e: Entry) {
    DomainIsOperational(e.tuple) && Versions.IsVersion(e.version) ==> VersionContractHolds(e)
  }

  predicate Operational(e: Entry) {
    DomainIsOperational(e.tuple) && VersionContractHolds(e) && HasSupportedArtifact(e)
  }

  // ---- Accepted record sets ----

  predicate Conflict(a: Entry, b: Entry) {
    a.tuple == b.tuple && (a.version == b.version || (a.stable && b.stable))
  }

  /** `s` is an operational stable record with a newer operational record `o` beside it. */
  predicate Outranked(s: Entry, o: Entry) {
    && s.stable && Operational(s) && Operational(o) && s.tuple == o.tuple
    && Versions.Cmp(s.version, o.version) < 0
  }

  /** What `validate_catalog` accepts. */
  predicate Acceptable(packages: seq<Entry>) {
    && (forall i :: 0 <= i < |packages| ==> WellShaped(packages[i]) && Classifiable(packages[i]))
    && (forall i, j :: 0 <= i < j < |packages| ==> !Conflict(packages[i], packages[j]))
    && (forall i, j :: 0 <= i < |packages| && 0 <= j < |packages| ==> !Outranked(packages[i], packages[j]))
  }

  /** The same, without any order of the records. */
  ghost predicate AcceptableBag(b: multiset<Entry>) {
    && (forall e :: e in b ==> WellShaped(e) && Classifiable(e) && b[e] == 1)
    && (forall e, f :: e in b && f in b && e != f ==> !Conflict(e, f))
    && (forall e, f :: e in b && f in b ==> !Outranked(e, f))
  }

  /** Whether a catalog is accepted does not depend on the order of its records. */
  lemma AcceptableIffBag(packages: seq<Entry>)
    ensures Acceptable(packages) <==> AcceptableBag(multiset(packages))
  {
    hide Acceptable, AcceptableBag;
    if Acceptable(packages) {
      BagOfAcceptable(packages);
    }
    if AcceptableBag(multiset(packages)) {
      AcceptableOfBag(packages);
    }
  }

  lemma BagOfAcceptable(packages: seq<Entry>)
    requires Acceptable(packages)
    ensures AcceptableBag(multiset(packages))
  {
    hide WellShaped, Classifiable, Outranked;
    DistinctIffOnce(packages);
    var b := multiset(packages);
    forall e, f | e in b && f in b ensures (e != f ==> !Conflict(e, f)) && !Outranked(e, f) {
      var i :| 0 <= i < |packages| && packages[i] == e;
      var j :| 0 <= j < |packages| && packages[j] == f;
      assert i < j || j < i || e == f;
    }
    forall i, j | 0 <= i < j < |packages| ensures packages[i] != packages[j] {
      assert !Conflict(packages[i], packages[j]);
    }
  }

  lemma AcceptableOfBag(packages: seq<Entry>)
    requires AcceptableBag(multiset(packages))
    ensures Acceptable(packages)
  {
    hide WellShaped, Classifiable, Outranked, Conflict;
    DistinctIffOnce(packages);
    var b := multiset(packages);
    forall i | 0 <= i < |packages| ensures packages[i] in b {
    }
    forall i, j | 0 <= i < j < |packages| ensures !Conflict(packages[i], packages[j]) {
      assert packages[i] in packages && packages[j] in packages;
    }
  }

  lemma AcceptanceIgnoresOrder(a: seq<Entry>, b: seq<Entry>)
    requires multiset(a) == multiset(b)
    ensures Acceptable(a) == Acceptable(b)
  {
    hide Acceptable, AcceptableBag;
    AcceptableIffBag(a);
    AcceptableIffBag(b);
  }

  // ---- Queries ----

  predicate Answers(e: Entry, t: Tuple, version: Option<string>) {
    Operational(e) && e.tuple == t && (version.Some? ==> e.version == version.value)
  }

  /** `find_release`: the first operational record of the tuple, of a given version or of any. */
  function FindRelease(packages: seq<Entry>, t: Tuple, version: Option<string>): (r: Option<Entry>)
    ensures r.Some? ==> r.value in packages && Answers(r.value, t, version)
    ensures r.None? ==> forall e :: e in packages ==> !Answers(e, t, version)
  {
    hide Answers;
    if packages == [] then None
    else if Answers(packages[0], t, version) then Some(packages[0])
    else
      var r := FindRelease(packages[1..], t, version);
      assert packages == [packages[0]] + packages[1..];
      r
  }

  predicate IsStableOf(e: Entry, t: Tuple) {
    e.stable && Operational(e) && e.tuple == t
  }

  /** `package_catalog_resolve_stable`. */
  function ResolveStable(packages: seq<Entry>, t: Tuple): (r: Option<string>)
    ensures r.Some? ==>
              Versions.IsVersion(r.value) && exists e :: e in packages && IsStableOf(e, t) && e.version == r.value
    ensures r.None? ==> forall e :: e in packages ==> !IsStableOf(e, t)
  {
    if packages == [] then None
    else if IsStableOf(packages[0], t) then Some(packages[0].version)
    else
      var r := ResolveStable(packages[1..], t);
      assert packages == [packages[0]] + packages[1..];
      r
  }

  lemma NoConflict(packages: seq<Entry>, i: nat, j: nat)
    requires Acceptable(packages) && i < |packages| && j < |packages| && i != j
    ensures !Conflict(packages[i], packages[j])
  {
    hide WellShaped, Classifiable, Outranked;
    var a, b := if i < j then i else j, if i < j then j else i;
    assert !Conflict(packages[a], packages[b]);
  }

  /** In an accepted catalog the version of a tuple picks at most one record. */
  lemma FindReleaseIff(packages: seq<Entry>, t: Tuple, version: string, e: Entry)
    requires Acceptable(packages)
    ensures FindRelease(packages, t, Some(version)) == Some(e) <==> e in packages && Answers(e, t, Some(version))
  {
    hide Operational, FindRelease, WellShaped, Classifiable;
    var r := FindRelease(packages, t, Some(version));
    if e in packages && Answers(e, t, Some(version)) && r.Some? {
      var i :| 0 <= i < |packages| && packages[i] == e;
      var j :| 0 <= j < |packages| && packages[j] == r.value;
      if i != j {
        NoConflict(packages, i, j);
      }
    }
  }

  /** A tool this program knows, on platforms it knows, in a version it understands. */
  predicate Known(e: Entry) {
    && (e.tuple.component, e.tuple.tool) in TOOLS && e.tuple.tool != "coffee"
    && e.tuple.host in PLATFORMS && e.tuple.target in PLATFORMS
    && Versions.IsVersion(e.version)
  }

  /** A record this program can use: a known one, with a reason exactly for a revision, and with an archive
      that can be unpacked. */
  predicate Usable(e: Entry) {
    && Known(e) && (Versions.KeyOf(e.version).revision > 0 <==> RevisionReasonField in e.fields)
    && exists a :: a in e.artifacts && (a.format == "tar.xz" || a.format == "tar.gz" || a.format == "zip")
  }

  lemma OperationalIff(e: Entry)
    ensures Operational(e) <==> Usable(e)
  {
    hide Versions.IsVersion, Versions.KeyOf, ReleaseBase;
    if Versions.IsVersion(e.version) {
      RevisedIff(e.version);
    }
  }

  /** In an accepted catalog a lookup by tuple and version finds just the usable record of that name. */
  lemma FindsUsable(packages: seq<Entry>, e: Entry)
    requires Acceptable(packages) && e in packages
    ensures FindRelease(packages, e.tuple, Some(e.version)) == Some(e) <==> Usable(e)
  {
    hide Acceptable, Operational, Usable;
    OperationalIff(e);
    FindReleaseIff(packages, e.tuple, e.version, e);
  }

  /** All that a record must say: component, tool, host, target, version and whether it is stable, and at
      least one artifact, each of its own format and with address and digest. */
  predicate Complete(e: Entry) {
    && ComponentField in e.fields && ToolField in e.fields && HostField in e.fields && TargetField in e.fields
    && VersionField in e.fields && StableField in e.fields
    && |e.artifacts| > 0
    && (forall a :: a in e.artifacts ==> a.fields == {FormatField, UrlField, DigestField})
    && forall j, k :: 0 <= j < |e.artifacts| && 0 <= k < |e.artifacts| && j != k ==>
         e.artifacts[j].format != e.artifacts[k].format
  }

  lemma WellShapedIff(e: Entry)
    ensures WellShaped(e) <==> Complete(e)
  {
    if WellShaped(e) {
      forall j, k | 0 <= j < |e.artifacts| && 0 <= k < |e.artifacts| && j != k
        ensures e.artifacts[j].format != e.artifacts[k].format
      {
        assert j < k || k < j;
      }
    }
  }

  /** A usable stable and a usable record of the same tuple. */
  predicate Rivals(s: Entry, o: Entry) {
    s.tuple == o.tuple && s.stable && Usable(s) && Usable(o)
  }

  /** What is accepted: complete records, of which the known ones have a reason exactly for a revision; no
      version of a tuple twice and no two stables; and no usable stable older than another usable record of
      its tuple. */
  lemma AcceptableIff(packages: seq<Entry>)
    ensures Acceptable(packages) <==>
              && (forall e :: e in packages ==> Complete(e))
              && (forall e :: e in packages && Known(e) ==>
                    (Versions.KeyOf(e.version).revision > 0 <==> RevisionReasonField in e.fields))
              && (forall i, j :: 0 <= i < j < |packages| && packages[i].tuple == packages[j].tuple ==>
                    packages[i].version != packages[j].version && !(packages[i].stable && packages[j].stable))
              && (forall s, o :: s in packages && o in packages && Rivals(s, o) ==>
                    !Versions.IsOlder(s.version, o.version))
  {
    hide WellShaped, Versions.IsVersion, Versions.KeyOf, Versions.Cmp, Versions.Older, Operational, Classifiable,
         ReleaseBase;
    forall e | e in packages
      ensures (Operational(e) <==> Usable(e)) && (WellShaped(e) <==> Complete(e))
      ensures Classifiable(e) <==>
                (Known(e) ==> (Versions.KeyOf(e.version).revision > 0 <==> RevisionReasonField in e.fields))
    {
      OperationalIff(e);
      ClassifiableIff(e);
      WellShapedIff(e);
    }
    forall s, o | s in packages && o in packages
      ensures Outranked(s, o) <==> Rivals(s, o) && Versions.IsOlder(s.version, o.version)
    {
      if Usable(s) && Usable(o) {
        Versions.CmpIsAge(s.version, o.version);
      }
    }
    hide Usable, Known, Complete;
    if Acceptable(packages) {
      forall s, o | s in packages && o in packages ensures !Outranked(s, o) && WellShaped(s) && Classifiable(s) {
        var i :| 0 <= i < |packages| && packages[i] == s;
        var j :| 0 <= j < |packages| && packages[j] == o;
      }
    }
  }

  lemma ClassifiableIff(e: Entry)
    ensures Classifiable(e) <==>
              (Known(e) ==> (Versions.KeyOf(e.version).revision > 0 <==> RevisionReasonField in e.fields))
  {
    hide Versions.IsVersion, Versions.KeyOf, ReleaseBase;
    if Versions.IsVersion(e.version) {
      RevisedIff(e.version);
    }
  }

  /** The stable record of a tuple is unique, it is what the query answers, and no operational version
      of the tuple is newer or equal but itself. */
  lemma StableIsUniqueAndMaximal(packages: seq<Entry>, t: Tuple, e: Entry)
    requires Acceptable(packages) && e in packages && IsStableOf(e, t)
    ensures ResolveStable(packages, t) == Some(e.version)
    ensures forall o :: o in packages && IsStableOf(o, t) ==> o == e
    ensures forall o :: o in packages && Operational(o) && o.tuple == t && o != e ==>
                          Versions.IsVersion(o.version) && Versions.IsVersion(e.version)
                          && Versions.Cmp(o.version, e.version) < 0
                          && Versions.IsOlder(o.version, e.version)
  {
    hide Versions.Older, Versions.KeyOf, DomainIsOperational, HasSupportedArtifact, ResolveStable, WellShaped,
         Classifiable, Versions.Cmp, Versions.IsVersion, ReleaseBase;
    var i :| 0 <= i < |packages| && packages[i] == e;
    forall o | o in packages && o != e && Operational(o) && o.tuple == t
      ensures !o.stable && Versions.IsVersion(o.version) && Versions.IsVersion(e.version)
      ensures Versions.Cmp(o.version, e.version) < 0
      ensures Versions.IsOlder(o.version, e.version)
    {
      var j :| 0 <= j < |packages| && packages[j] == o;
      NoConflict(packages, i, j);
      assert !Outranked(packages[i], packages[j]);
      Versions.CmpZero(e.version, o.version);
      Versions.CmpSwap(e.version, o.version);
      Versions.CmpIsAge(o.version, e.version);
    }
  }

  /** A stable record this program cannot use is not replaced by an older usable one. */
  lemma UnusableStableSuppressesFallback(packages: seq<Entry>, e: Entry)
    requires Acceptable(packages) && e in packages && e.stable && !Operational(e)
    ensures ResolveStable(packages, e.tuple) == None
  {
    hide Operational, ResolveStable, WellShaped, Classifiable;
    var i :| 0 <= i < |packages| && packages[i] == e;
    forall o | o in packages ensures !IsStableOf(o, e.tuple) {
      var j :| 0 <= j < |packages| && packages[j] == o;
      if i != j {
        NoConflict(packages, i, j);
      }
    }
  }

  /** Every query about a version, a stable or mere presence has the same answer in any order. */
  lemma QueriesIgnoreOrder(a: seq<Entry>, b: seq<Entry>, t: Tuple, version: string)
    requires multiset(a) == multiset(b) && Acceptable(a)
    ensures FindRelease(a, t, Some(version)) == FindRelease(b, t, Some(version))
    ensures ResolveStable(a, t) == ResolveStable(b, t)
    ensures FindRelease(a, t, None).Some? == FindRelease(b, t, None).Some?
  {
    hide Acceptable, Answers, IsStableOf;
    AcceptanceIgnoresOrder(a, b);
    SameBag(a, b);
    var r := FindRelease(a, t, Some(version));
    if r.Some? {
      FindReleaseIff(a, t, version, r.value);
      FindReleaseIff(b, t, version, r.value);
    }
    if e :| e in a && IsStableOf(e, t) {
      StableIsUniqueAndMaximal(a, t, e);
      StableIsUniqueAndMaximal(b, t, e);
    }
  }

  // ---- The operations ----

  class PackageCatalog {
    var packages: seq<Entry>
    var operational: seq<bool>

    constructor (packages: seq<Entry>)
      ensures this.packages == packages
    {
      this.packages, operational := packages, seq(|packages|, i => false);
    }

    /** The flag of every record is what its contents say. */
    predicate Classified()
      reads this
    {
      |operational| == |packages| && forall i :: 0 <= i < |packages| ==> operational[i] == Operational(packages[i])
    }

    /** `validate_catalog`: one pass that classifies each record and compares it with the later ones,
        and a second that ranks every usable stable. */
    method Validate(haveRevision: bool, haveUpdateUrl: bool) returns (err: CupError)
      modifies this`operational
      ensures err == if haveRevision && haveUpdateUrl && Acceptable(packages) then Ok else CatalogError
      ensures err == Ok ==> Classified()
    {
      hide WellShaped, Classifiable, Operational;
      if !haveRevision || !haveUpdateUrl {
        return CatalogError;
      }
      err := ClassifyRecords();
      if err == Ok {
        err := RankStables();
      }
    }

    /** A usable stable must be the maximum of the usable versions of its tuple. */
    method RankStables() returns (err: CupError)
      requires Classified()
      ensures err == if forall i, j :: 0 <= i < |packages| && 0 <= j < |packages|
                                       ==> !Outranked(packages[i], packages[j])
                     then Ok else CatalogError
    {
      hide Operational;
      for i := 0 to |packages|
        invariant forall k, j :: 0 <= k < i && 0 <= j < |packages| ==> !Outranked(packages[k], packages[j])
      {
        if !packages[i].stable || !operational[i] {
          continue;
        }
        for j := 0 to |packages|
          invariant forall m :: 0 <= m < j ==> !Outranked(packages[i], packages[m])
        {
          if !operational[j] || packages[i].tuple != packages[j].tuple {
            continue;
          }
          RankIs(packages[i], packages[j]);
          var status, compared := Versions.ReleaseCompare(packages[i].version, packages[j].version);
          if status != Versions.Ok || compared < 0 {
            return CatalogError;
          }
        }
      }
      return Ok;
    }

    method ClassifyRecords() returns (err: CupError)
      modifies this`operational
      ensures err == if (forall i :: 0 <= i < |packages| ==> WellShaped(packages[i]) && Classifiable(packages[i]))
                        && forall i, j :: 0 <= i < j < |packages| ==> !Conflict(packages[i], packages[j])
                     then Ok else CatalogError
      ensures err == Ok ==> Classified()
    {
      hide WellShaped, Classifiable, Operational;
      operational := [];
      for i := 0 to |packages|
        invariant |operational| == i && forall k :: 0 <= k < i ==> operational[k] == Operational(packages[k])
        invariant forall k :: 0 <= k < i ==> WellShaped(packages[k]) && Classifiable(packages[k])
        invariant forall k, j :: 0 <= k < i && k < j < |packages| ==> !Conflict(packages[k], packages[j])
      {
        var shaped := IsWellShaped(packages[i]);
        if !shaped || !Classifiable(packages[i]) {
          return CatalogError;
        }
        operational := operational + [Operational(packages[i])];
        for j := i + 1 to |packages|
          invariant forall m :: i < m < j ==> !Conflict(packages[i], packages[m])
        {
          if Conflict(packages[i], packages[j]) {
            return CatalogError;
          }
        }
      }
      return Ok;
    }

    /** Presence, stability and artifacts of a release all start from this lookup. */
    method Find(t: Tuple, version: Option<string>) returns (r: Option<Entry>)
      requires Classified()
      ensures r == FindRelease(packages, t, version)
    {
      hide Operational, FindRelease;
      assert packages[0..] == packages;
      for i := 0 to |packages|
        invariant FindRelease(packages, t, version) == FindRelease(packages[i..], t, version)
      {
        FindStep(packages, i, t, version);
        if operational[i] && packages[i].tuple == t && (version.None? || packages[i].version == version.value) {
          return Some(packages[i]);
        }
      }
      FindNothing(t, version);
      assert packages[|packages|..] == [];
      return None;
    }

    method Stable(t: Tuple) returns (r: Option<string>)
      requires Classified()
      ensures r == ResolveStable(packages, t)
    {
      hide Operational, ResolveStable;
      assert packages[0..] == packages;
      for i := 0 to |packages|
        invariant ResolveStable(packages, t) == ResolveStable(packages[i..], t)
      {
        StableStep(packages, i, t);
        if packages[i].stable && operational[i] && packages[i].tuple == t {
          return Some(packages[i].version);
        }
      }
      StableNothing(t);
      assert packages[|packages|..] == [];
      return None;
    }
  }

  lemma FindStep(packages: seq<Entry>, i: nat, t: Tuple, version: Option<string>)
    requires i < |packages|
    ensures FindRelease(packages[i..], t, version)
         == if Answers(packages[i], t, version) then Some(packages[i]) else FindRelease(packages[i + 1..], t, version)
  {
    assert packages[i..][1..] == packages[i + 1..];
  }

  lemma FindNothing(t: Tuple, version: Option<string>)
    ensures FindRelease([], t, version) == None
  {}

  lemma StableStep(packages: seq<Entry>, i: nat, t: Tuple)
    requires i < |packages|
    ensures ResolveStable(packages[i..], t)
         == if IsStableOf(packages[i], t) then Some(packages[i].version) else ResolveStable(packages[i + 1..], t)
  {
    assert packages[i..][1..] == packages[i + 1..];
  }

  lemma StableNothing(t: Tuple)
    ensures ResolveStable([], t) == None
  {}

  /** Comparing two usable records decides whether the first is outranked. */
  lemma RankIs(s: Entry, o: Entry)
    requires s.stable && Operational(s) && Operational(o) && s.tuple == o.tuple
    ensures Versions.IsVersion(s.version) && Versions.IsVersion(o.version)
    ensures Outranked(s, o) <==> Versions.KeyCmp(Versions.KeyOf(s.version), Versions.KeyOf(o.version)) < 0
  {}

  /** The shape checks of one record, artifact by artifact. */
  method IsWellShaped(e: Entry) returns (ok: bool)
    ensures ok == WellShaped(e)
  {
    if !(REQUIRED_FIELDS <= e.fields) || |e.artifacts| == 0 {
      return false;
    }
    for j := 0 to |e.artifacts|
      invariant forall m :: 0 <= m < j ==> e.artifacts[m].fields == REQUIRED_ARTIFACT_FIELDS
      invariant forall m, k :: 0 <= m < j && m < k < |e.artifacts| ==> e.artifacts[m].format != e.artifacts[k].format
    {
      if e.artifacts[j].fields != REQUIRED_ARTIFACT_FIELDS {
        return false;
      }
      for k := j + 1 to |e.artifacts|
        invariant forall m :: j < m < k ==> e.artifacts[j].format != e.artifacts[m].format
      {
        if e.artifacts[j].format == e.artifacts[k].format {
          return false;
        }
      }
    }
    return true;
  }
}
