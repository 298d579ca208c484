/** state.txt as a whole: what is written, what is accepted, and that the two agree. */
module StateFiles {
  import opened Text
  import opened Domain
  import opened States
  import opened Documents
  import opened StateDocument

  // ---- Writing ----

  function RecordLines(isDefault: bool, ids: seq<Identity>): (r: seq<string>)
    ensures |r| == |ids| && forall i :: 0 <= i < |r| ==> r[i] == Record(isDefault, ids[i])
  {
    seq(|ids|, i requires 0 <= i < |ids| => Record(isDefault, ids[i]))
  }

  function Lines(installed: seq<Identity>, defaults: seq<Identity>): seq<string>
    requires ValidLists(installed, defaults)
  {
    [HEADER] + (RecordLines(false, Sort(installed)) + RecordLines(true, Sort(defaults)))
  }

  /** The bytes of a state file. */
  function Bytes(installed: seq<Identity>, defaults: seq<Identity>): string
    requires ValidLists(installed, defaults)
  {
    Flatten(Lines(installed, defaults))
  }

  // ---- Reading ----

  datatype Lists = Lists(installed: seq<Identity>, defaults: seq<Identity>)

  datatype Loaded = Loaded(lists: Lists) | Refused(err: CupError)

  predicate ScopeTaken(ids: seq<Identity>, s: Scope) {
    exists i :: 0 <= i < |ids| && ScopeOf(ids[i]) == s
  }

  /** The effect of one record: a second record of an identity or of a default scope is refused. */
  function AddEntry(l: Lists, e: Entry): Option<Lists> {
    if e.isDefault then
      if ScopeTaken(l.defaults, ScopeOf(e.id)) || |l.defaults| >= MAX_STATE_DEFAULTS then None
      else Some(l.(defaults := l.defaults + [e.id]))
    else if e.id in l.installed then None
    else Some(l.(installed := l.installed + [e.id]))
  }

  function LoadLines(lines: seq<string>, host: string, l: Lists): Option<Lists>
    decreases |lines|
  {
    match NextLine(lines, MAX_STATE_LINE_LEN)
    case End => Some(l)
    case TooLong => None
    case Line(text, rest) =>
      match ParseRecord(text, host)
      case None => None
      case Some(e) =>
        match AddEntry(l, e)
        case None => None
        case Some(m) => LoadLines(rest, host, m)
  }

  /** What loading a present file of these bytes gives. */
  function Load(data: string, host: string): (r: Loaded)
    ensures r.Loaded? ==> ValidLists(r.lists.installed, r.lists.defaults)
  {
    if |data| > MAX_STATE_FILE_BYTES then Refused(StateFull)
    else if !IsDocument(data) then Refused(StateLoad)
    else
      match NextLine(LinesFrom(data, 0), MAX_STATE_LINE_LEN)
      case End => Refused(StateLoad)
      case TooLong => Refused(StateLoad)
      case Line(text, rest) =>
        if text != HEADER then Refused(StateLoad)
        else
          match LoadLines(rest, host, Lists([], []))
          case None => Refused(StateLoad)
          case Some(l) => if ValidLists(l.installed, l.defaults) then Loaded(l) else Refused(StateLoad)
  }

  // ---- What was written is read back ----

  lemma LoadOneRecord(isDefault: bool, id: Identity, rest: seq<string>, l: Lists)
    requires ValidIdentity(id)
    ensures LoadLines([Record(isDefault, id)] + rest, id.host, l)
         == match AddEntry(l, Entry(isDefault, id)) case None => None case Some(m) => LoadLines(rest, id.host, m)
  {
    hide ValidIdentity, Record, Trim, AddEntry;
    hide ParseRecord, IsLine;
    RecordRoundTrip(isDefault, id);
    var lines := [Record(isDefault, id)] + rest;
    assert lines[1..] == rest;
  }

  lemma {:induction false} LoadInstalled(ids: seq<Identity>, k: nat, host: string, rest: seq<string>)
    requires OneHost(ids, host) && Distinct(ids) && k <= |ids|
    ensures LoadLines(RecordLines(false, ids[k..]) + rest, host, Lists(ids[..k], []))
         == LoadLines(rest, host, Lists(ids, []))
    decreases |ids| - k
  {
    hide ValidIdentity, Record, LoadLines;
    if k == |ids| {
      assert RecordLines(false, ids[k..]) + rest == rest && ids[..k] == ids;
    } else {
      var after := RecordLines(false, ids[k + 1..]) + rest;
      assert RecordLines(false, ids[k..]) + rest == [Record(false, ids[k])] + after;
      assert ids[..k] + [ids[k]] == ids[..k + 1];
      LoadOneRecord(false, ids[k], after, Lists(ids[..k], []));
      LoadInstalled(ids, k + 1, host, rest);
    }
  }

  lemma {:induction false} LoadDefaults(ids: seq<Identity>, k: nat, host: string, installed: seq<Identity>)
    requires OneHost(ids, host) && DistinctScopes(ids) && k <= |ids| <= MAX_STATE_DEFAULTS
    ensures LoadLines(RecordLines(true, ids[k..]), host, Lists(installed, ids[..k])) == Some(Lists(installed, ids))
    decreases |ids| - k
  {
    if k == |ids| {
      assert RecordLines(true, ids[k..]) == [] && ids[..k] == ids;
    } else {
      hide ValidIdentity, Record, LoadLines;
      var after := RecordLines(true, ids[k + 1..]);
      assert RecordLines(true, ids[k..]) == [Record(true, ids[k])] + after;
      assert ids[..k] + [ids[k]] == ids[..k + 1];
      LoadOneRecord(true, ids[k], after, Lists(installed, ids[..k]));
      LoadDefaults(ids, k + 1, host, installed);
    }
  }

  lemma HeaderLine(rest: seq<string>)
    ensures NextLine([HEADER] + rest, MAX_STATE_LINE_LEN) == Line(HEADER, rest)
    ensures IsLine(HEADER)
  {
    TrimNothing(HEADER);
    assert ([HEADER] + rest)[1..] == rest;
  }

  /** The sorted lists are valid when the lists are, and mean the same. */
  lemma SortedListsAreValid(installed: seq<Identity>, defaults: seq<Identity>, host: string)
    requires ValidLists(installed, defaults) && OneHost(installed, host)
    ensures OneHost(defaults, host) && Distinct(defaults)
    ensures SortedFrom(installed, Sort(installed), host) && SortedFrom(defaults, Sort(defaults), host)
    ensures ValidLists(Sort(installed), Sort(defaults))
    ensures DocOf(Sort(installed), Sort(defaults)) == DocOf(installed, defaults)
  {
    hide Sort, ValidIdentity, DefaultMap, IdCmp;
    assert OneHost(defaults, host) by {
      forall i | 0 <= i < |defaults| ensures ValidIdentity(defaults[i]) && defaults[i].host == host {
        assert defaults[i] in installed;
      }
    }
    SortSorts(installed, host);
    SortSorts(defaults, host);
    var sorted := Sort(defaults);
    forall i, j | 0 <= i < j < |sorted| ensures ScopeOf(sorted[i]) != ScopeOf(sorted[j]) {
      assert sorted[i] in defaults && sorted[j] in defaults;
    }
    forall i | 0 <= i < |sorted| ensures sorted[i] in Sort(installed) {
      assert sorted[i] in defaults;
    }
    SameMembersSameMap(sorted, defaults);
  }

  /** Every line written is a text line. */
  lemma LinesAreText(installed: seq<Identity>, defaults: seq<Identity>)
    requires ValidLists(installed, defaults)
    ensures forall i :: 0 <= i < |Lines(installed, defaults)| ==> IsLine(Lines(installed, defaults)[i])
  {
    hide Sort, IsLine, Record, ValidIdentity;
    HeaderLine([]);
    forall id, isDefault | ValidIdentity(id) ensures IsLine(Record(isDefault, id)) {
      RecordRoundTrip(isDefault, id);
    }
  }

  /** Whatever is written within the size limit loads as the same lists, sorted: the same installed
      set and the same default map. */
  lemma RoundTrip(installed: seq<Identity>, defaults: seq<Identity>, host: string)
    requires ValidLists(installed, defaults) && OneHost(installed, host)
    requires |Bytes(installed, defaults)| <= MAX_STATE_FILE_BYTES
    ensures Load(Bytes(installed, defaults), host) == Loaded(Lists(Sort(installed), Sort(defaults)))
    ensures DocOf(Sort(installed), Sort(defaults)) == DocOf(installed, defaults)
  {
    hide Sort, ValidLists, ValidIdentity, Flatten, LinesFrom, IsDocument, LoadLines, NextLine, Record, IsLine, DocOf;
    SortedListsAreValid(installed, defaults, host);
    LinesAreText(installed, defaults);
    var lines, data := Lines(installed, defaults), Bytes(installed, defaults);
    var sorted, sortedDefaults := Sort(installed), Sort(defaults);
    FlattenIsDocument(lines);
    assert data[0..] == data;
    LinesOfFlatten(data, 0, lines);
    HeaderLine(RecordLines(false, sorted) + RecordLines(true, sortedDefaults));
    assert sorted[0..] == sorted && sortedDefaults[0..] == sortedDefaults;
    assert sorted[..0] == [] && sortedDefaults[..0] == [];
    LoadInstalled(sorted, 0, host, RecordLines(true, sortedDefaults));
    SortedShape(sorted, sortedDefaults);
    LoadDefaults(sortedDefaults, 0, host, sorted);
  }

  lemma SortedShape(installed: seq<Identity>, defaults: seq<Identity>)
    requires ValidLists(installed, defaults)
    ensures |defaults| <= MAX_STATE_DEFAULTS && DistinctScopes(defaults)
  {}

  // ---- The bytes depend on the meaning alone ----

  lemma SameMembersSameSort(a: seq<Identity>, b: seq<Identity>, host: string)
    requires OneHost(a, host) && OneHost(b, host) && Distinct(a) && Distinct(b) && forall id :: id in a <==> id in b
    ensures Sort(a) == Sort(b)
  {
    hide Sort, IdCmp, ValidIdentity;
    forall i | 0 <= i < |a| ensures a[i] in b {
    }
    Pigeonhole(a, b);
    forall i | 0 <= i < |b| ensures b[i] in a {
    }
    Pigeonhole(b, a);
    SortSorts(a, host);
    SortSorts(b, host);
    SortedIsUnique(Sort(a), Sort(b), host);
  }

  /** Two states with the same installed set and default map are written as the same bytes. */
  lemma BytesDependOnMeaning(a: Lists, b: Lists, host: string)
    requires ValidLists(a.installed, a.defaults) && ValidLists(b.installed, b.defaults)
    requires OneHost(a.installed, host) && OneHost(b.installed, host)
    requires DocOf(a.installed, a.defaults) == DocOf(b.installed, b.defaults)
    ensures Bytes(a.installed, a.defaults) == Bytes(b.installed, b.defaults)
  {
    hide Sort, ValidIdentity, DefaultMap, SortedFrom;
    SortedListsAreValid(a.installed, a.defaults, host);
    SortedListsAreValid(b.installed, b.defaults, host);
    DefaultMapMeaning(a.defaults);
    DefaultMapMeaning(b.defaults);
    var m := DefaultMap(a.defaults);
    assert m == DefaultMap(b.defaults);
    forall id ensures id in a.installed <==> id in b.installed {
      assert id in Members(a.installed) <==> id in Members(b.installed);
    }
    forall id ensures id in a.defaults <==> id in b.defaults {
      assert id in a.defaults ==> m[ScopeOf(id)] == id;
      assert id in b.defaults ==> m[ScopeOf(id)] == id;
    }
    SameMembersSameSort(a.installed, b.installed, host);
    SameMembersSameSort(a.defaults, b.defaults, host);
  }

  /** And different meanings are written differently, so the bytes identify the state. */
  lemma BytesIdentifyMeaning(a: Lists, b: Lists, host: string)
    requires ValidLists(a.installed, a.defaults) && ValidLists(b.installed, b.defaults)
    requires OneHost(a.installed, host) && OneHost(b.installed, host)
    requires |Bytes(a.installed, a.defaults)| <= MAX_STATE_FILE_BYTES
    requires Bytes(a.installed, a.defaults) == Bytes(b.installed, b.defaults)
    ensures DocOf(a.installed, a.defaults) == DocOf(b.installed, b.defaults)
  {
    hide Bytes, ValidLists, ValidIdentity, Load, DocOf, Sort;
    RoundTrip(a.installed, a.defaults, host);
    RoundTrip(b.installed, b.defaults, host);
  }

  // ---- The measured size ----

  /** Bytes of the records of one kind, line feeds included, summed in array order. */
  function RecordBytes(isDefault: bool, ids: seq<Identity>): nat {
    if ids == [] then 0 else RecordBytes(isDefault, ids[..|ids| - 1]) + |Record(isDefault, ids[|ids| - 1])| + 1
  }

  lemma {:induction false} RecordBytesFront(isDefault: bool, ids: seq<Identity>)
    requires ids != []
    ensures RecordBytes(isDefault, ids) == |Record(isDefault, ids[0])| + 1 + RecordBytes(isDefault, ids[1..])
    decreases |ids|
  {
    hide Record;
    var n := |ids| - 1;
    if n > 0 {
      RecordBytesFront(isDefault, ids[..n]);
      assert ids[..n][1..] == ids[1..][..n - 1];
    }
  }

  lemma {:induction false} FlattenLength(isDefault: bool, ids: seq<Identity>)
    ensures |Flatten(RecordLines(isDefault, ids))| == RecordBytes(isDefault, ids)
    decreases |ids|
  {
    hide Record;
    if ids != [] {
      FlattenLength(isDefault, ids[1..]);
      RecordBytesFront(isDefault, ids);
      assert RecordLines(isDefault, ids)[1..] == RecordLines(isDefault, ids[1..]);
    }
  }

  lemma {:induction false} InsertKeepsBytes(isDefault: bool, id: Identity, ids: seq<Identity>)
    requires ValidIdentity(id) && forall i :: 0 <= i < |ids| ==> ValidIdentity(ids[i])
    ensures RecordBytes(isDefault, Insert(id, ids)) == |Record(isDefault, id)| + 1 + RecordBytes(isDefault, ids)
    decreases |ids|
  {
    hide Record, RecordBytes, ValidIdentity, IdCmp;
    var r := Insert(id, ids);
    if ids == [] {
      RecordBytesFront(isDefault, [id]);
      assert [id][1..] == ids;
    } else if IdCmp(id, ids[0]) <= 0 {
      RecordBytesFront(isDefault, r);
      assert r[1..] == ids;
    } else {
      InsertKeepsBytes(isDefault, id, ids[1..]);
      RecordBytesFront(isDefault, ids);
      RecordBytesFront(isDefault, r);
      assert r[1..] == Insert(id, ids[1..]);
    }
  }

  lemma {:induction false} SortKeepsBytes(isDefault: bool, ids: seq<Identity>)
    requires forall i :: 0 <= i < |ids| ==> ValidIdentity(ids[i])
    ensures RecordBytes(isDefault, Sort(ids)) == RecordBytes(isDefault, ids)
    decreases |ids|
  {
    hide Record, ValidIdentity, Insert;
    if ids != [] {
      var n := |ids| - 1;
      SortKeepsBytes(isDefault, ids[..n]);
      InsertKeepsBytes(isDefault, ids[n], Sort(ids[..n]));
    }
  }

  /** The size summed over the unsorted arrays is the size of the bytes written. */
  lemma MeasuredSize(installed: seq<Identity>, defaults: seq<Identity>)
    requires ValidLists(installed, defaults)
    ensures |Bytes(installed, defaults)|
         == |HEADER| + 1 + RecordBytes(false, installed) + RecordBytes(true, defaults)
  {
    hide Sort, Record, RecordBytes, ValidIdentity, RecordLines;
    var sorted, sortedDefaults := Sort(installed), Sort(defaults);
    var records := RecordLines(false, sorted) + RecordLines(true, sortedDefaults);
    FlattenCons(HEADER, records);
    FlattenAppend(RecordLines(false, sorted), RecordLines(true, sortedDefaults));
    FlattenLength(false, sorted);
    FlattenLength(true, sortedDefaults);
    SortKeepsBytes(false, installed);
    SortKeepsBytes(true, defaults);
  }

  // ---- The operations ----

  /** `state_measure_persistent`: one pass over both arrays that stops before the total overruns. */
  method MeasurePersistent(state: CupState) returns (err: CupError, size: nat)
    ensures !state.Valid() ==> err == InconsistentState
    ensures state.Valid() ==>
              var total := |Bytes(state.installed, state.defaults)|;
              if total <= MAX_STATE_FILE_BYTES then err == Ok && size == total else err == StateFull
  {
    hide ValidLists, Record, Bytes, RecordBytes, SizeUpTo;
    err := state.Validate();
    if err != Ok {
      return err, 0;
    }
    MeasuredSize(state.installed, state.defaults);
    SizeEnds(state.installed, state.defaults);
    var count := |state.installed|;
    var total := |HEADER| + 1;
    for i := 0 to count + |state.defaults|
      invariant total == SizeUpTo(state.installed, state.defaults, i) <= MAX_STATE_FILE_BYTES
    {
      var isDefault := i >= count;
      var id := if isDefault then state.defaults[i - count] else state.installed[i];
      SizeStep(state.installed, state.defaults, i);
      var written := |Record(isDefault, id)| + 1;
      if total > MAX_STATE_FILE_BYTES - written {
        return StateFull, 0;
      }
      total := total + written;
    }
    return Ok, total;
  }

  /** The size after the first `i` records, installed ones first. */
  function SizeUpTo(installed: seq<Identity>, defaults: seq<Identity>, i: nat): nat
    requires i <= |installed| + |defaults|
  {
    |HEADER| + 1 + (if i <= |installed| then RecordBytes(false, installed[..i])
                    else RecordBytes(false, installed) + RecordBytes(true, defaults[..i - |installed|]))
  }

  lemma SizeEnds(installed: seq<Identity>, defaults: seq<Identity>)
    ensures SizeUpTo(installed, defaults, 0) == |HEADER| + 1
    ensures SizeUpTo(installed, defaults, |installed| + |defaults|)
         == |HEADER| + 1 + RecordBytes(false, installed) + RecordBytes(true, defaults)
  {
    hide Record;
    assert installed[..|installed|] == installed && defaults[..|defaults|] == defaults;
  }

  lemma SizeStep(installed: seq<Identity>, defaults: seq<Identity>, i: nat)
    requires i < |installed| + |defaults|
    ensures var isDefault := i >= |installed|;
            SizeUpTo(installed, defaults, i + 1) == SizeUpTo(installed, defaults, i)
              + |Record(isDefault, if isDefault then defaults[i - |installed|] else installed[i])| + 1
    ensures SizeUpTo(installed, defaults, i + 1) <= SizeUpTo(installed, defaults, |installed| + |defaults|)
  {
    hide Record, RecordBytes;
    SizeEnds(installed, defaults);
    if i < |installed| {
      NextRecord(false, installed, i);
    } else {
      NextRecord(true, defaults, i - |installed|);
      assert installed[..|installed|] == installed && defaults[..0] == [];
      NoRecords(true);
    }
  }

  lemma NoRecords(isDefault: bool)
    ensures RecordBytes(isDefault, []) == 0
  {}

  lemma NextRecord(isDefault: bool, ids: seq<Identity>, i: nat)
    requires i < |ids|
    ensures RecordBytes(isDefault, ids[..i + 1]) == RecordBytes(isDefault, ids[..i]) + |Record(isDefault, ids[i])| + 1
    ensures RecordBytes(isDefault, ids[..i + 1]) <= RecordBytes(isDefault, ids)
  {
    hide Record;
    assert ids[..i + 1][..i] == ids[..i];
    PrefixBytes(isDefault, ids, i + 1);
  }

  lemma {:induction false} PrefixBytes(isDefault: bool, ids: seq<Identity>, n: nat)
    requires n <= |ids|
    ensures RecordBytes(isDefault, ids[..n]) <= RecordBytes(isDefault, ids)
    decreases |ids| - n
  {
    hide Record;
    if n < |ids| {
      assert ids[..n + 1][..n] == ids[..n];
      PrefixBytes(isDefault, ids, n + 1);
    } else {
      assert ids[..n] == ids;
    }
  }

  /** `write_state_file` over the sorted pointers. */
  method WriteStateFile(installed: seq<Identity>, defaults: seq<Identity>) returns (text: string)
    ensures text == Flatten([HEADER] + (RecordLines(false, installed) + RecordLines(true, defaults)))
  {
    hide Record;
    text := HEADER + "\n";
    FlattenCons(HEADER, []);
    assert [HEADER] + [] == [HEADER];
    for i := 0 to |installed|
      invariant text == Flatten([HEADER] + RecordLines(false, installed[..i]))
    {
      AppendRecord([HEADER], false, installed, i);
      text := text + (Record(false, installed[i]) + "\n");
    }
    assert installed[..|installed|] == installed;
    ghost var before := [HEADER] + RecordLines(false, installed);
    assert before + RecordLines(true, defaults[..0]) == before;
    for i := 0 to |defaults|
      invariant text == Flatten(before + RecordLines(true, defaults[..i]))
    {
      AppendRecord(before, true, defaults, i);
      text := text + (Record(true, defaults[i]) + "\n");
    }
    assert defaults[..|defaults|] == defaults;
    assert before + RecordLines(true, defaults)
             == [HEADER] + (RecordLines(false, installed) + RecordLines(true, defaults));
  }

  lemma AppendRecord(before: seq<string>, isDefault: bool, ids: seq<Identity>, i: nat)
    requires i < |ids|
    ensures Flatten(before + RecordLines(isDefault, ids[..i + 1]))
         == Flatten(before + RecordLines(isDefault, ids[..i])) + (Record(isDefault, ids[i]) + "\n")
  {
    hide Record, Flatten;
    var line := Record(isDefault, ids[i]);
    assert before + RecordLines(isDefault, ids[..i + 1]) == (before + RecordLines(isDefault, ids[..i])) + [line];
    FlattenAppend(before + RecordLines(isDefault, ids[..i]), [line]);
    FlattenCons(line, []);
    assert [line] + [] == [line];
    assert Flatten([]) == "" by {
      FlattenIsDocument([]);
    }
  }

  /** `state_save` up to publication: what it hands to the file system loads back as the state. */
  method SerializeForSave(state: CupState, host: string) returns (err: CupError, text: string)
    ensures err == if !state.Valid() then InconsistentState
                   else if |Bytes(state.installed, state.defaults)| > MAX_STATE_FILE_BYTES then StateFull
                   else if !OneHost(state.installed, host) then InconsistentState else Ok
    ensures err == Ok ==>
              && text == Bytes(state.installed, state.defaults) && |text| <= MAX_STATE_FILE_BYTES
              && Load(text, host).Loaded?
              && DocOf(Load(text, host).lists.installed, Load(text, host).lists.defaults) == state.Contents()
  {
    hide ValidIdentity, Bytes, Load, Sort, DefaultMap, IdCmp;
    var size: nat;
    err, size := MeasurePersistent(state);
    if err != Ok {
      return err, "";
    }
    var foreign := CountForeignHosts(state, host);
    if foreign > 0 {
      return InconsistentState, "";
    }
    text := WriteStateFile(Sort(state.installed), Sort(state.defaults));
    BytesAre(state.installed, state.defaults);
    RoundTrip(state.installed, state.defaults, host);
    return Ok, text;
  }

  lemma BytesAre(installed: seq<Identity>, defaults: seq<Identity>)
    requires ValidLists(installed, defaults)
    ensures Bytes(installed, defaults)
         == Flatten([HEADER] + (RecordLines(false, Sort(installed)) + RecordLines(true, Sort(defaults))))
  {}

  /** `state_count_foreign_hosts`: records of either array filed under another host. */
  method CountForeignHosts(state: CupState, host: string) returns (count: nat)
    requires state.Valid()
    ensures count == 0 <==> OneHost(state.installed, host)
  {
    hide ValidIdentity, DefaultMap;
    count := 0;
    for i := 0 to |state.installed|
      invariant count == 0 <==> forall k :: 0 <= k < i ==> state.installed[k].host == host
    {
      if state.installed[i].host != host {
        count := count + 1;
      }
    }
    for i := 0 to |state.defaults|
      invariant count == 0 ==> OneHost(state.installed, host)
      invariant OneHost(state.installed, host) ==> count == 0
    {
      if state.defaults[i].host != host {
        assert state.defaults[i] in state.installed;
        count := count + 1;
      }
    }
  }

  /** `parse_state_line`: one record added to the candidate, or the whole load refused. */
  method ParseStateLine(l: Lists, line: string, host: string) returns (r: Option<Lists>)
    ensures r == match ParseRecord(line, host) case None => None case Some(e) => AddEntry(l, e)
  {
    hide ParseRecord;
    var parsed := ParseRecord(line, host);
    if parsed.None? {
      return None;
    }
    var e := parsed.value;
    var list := if e.isDefault then l.defaults else l.installed;
    for i := 0 to |list|
      invariant forall k :: 0 <= k < i ==> if e.isDefault then ScopeOf(list[k]) != ScopeOf(e.id) else list[k] != e.id
    {
      if e.isDefault && ScopeOf(list[i]) == ScopeOf(e.id) {
        assert ScopeTaken(l.defaults, ScopeOf(e.id));
        return None;
      }
      if !e.isDefault && list[i] == e.id {
        return None;
      }
    }
    if e.isDefault {
      assert !ScopeTaken(l.defaults, ScopeOf(e.id));
      if |l.defaults| >= MAX_STATE_DEFAULTS {
        return None;
      }
      return Some(l.(defaults := l.defaults + [e.id]));
    }
    return Some(l.(installed := l.installed + [e.id]));
  }

  /** `load_state_path` on a present file: the whole document is accepted or none of it. */
  method LoadStatePath(data: string, host: string) returns (r: Loaded)
    ensures r == Load(data, host)
  {
    hide ParseRecord, AddEntry, ValidLists, NextLine, IsDocument, LinesFrom;
    if |data| > MAX_STATE_FILE_BYTES {
      return Refused(StateFull);
    }
    if !IsDocument(data) {
      return Refused(StateLoad);
    }
    var reader := new DocumentReader(data);
    var err, hasLine, line := reader.ReadLine(MAX_STATE_LINE_LEN);
    if err != Ok || !hasLine || line != HEADER {
      return Refused(StateLoad);
    }
    var candidate := Lists([], []);
    ghost var all := LoadLines(reader.Rest(), host, candidate);
    while true
      invariant reader.Valid() && LoadLines(reader.Rest(), host, candidate) == all
      decreases |reader.Rest()|
    {
      err, hasLine, line := reader.ReadLine(MAX_STATE_LINE_LEN);
      if err != Ok {
        return Refused(StateLoad);
      }
      if !hasLine {
        break;
      }
      var next := ParseStateLine(candidate, line, host);
      if next.None? {
        return Refused(StateLoad);
      }
      candidate := next.value;
    }
    if !ValidLists(candidate.installed, candidate.defaults) {
      return Refused(StateLoad);
    }
    return Loaded(candidate);
  }

  // ---- The size of a meaning ----

  /** Bytes of the records of a set, line feeds included. */
  ghost function SetBytes(isDefault: bool, ids: set<Identity>): nat {
    if ids == {} then 0
    else
      var id :| id in ids;
      |Record(isDefault, id)| + 1 + SetBytes(isDefault, ids - {id})
  }

  /** The size of the file that says `d`. */
  ghost function DocBytes(d: Doc): nat {
    |HEADER| + 1 + SetBytes(false, d.installed) + SetBytes(true, d.defaults.Values)
  }

  /** What a save accepts: a valid state of this host whose file fits. */
  ghost predicate Storable(d: Doc, host: string) {
    && WellFormed(d) && (forall id :: id in d.installed ==> id.host == host)
    && DocBytes(d) <= MAX_STATE_FILE_BYTES
  }

  lemma {:induction false} SetBytesRemove(isDefault: bool, ids: set<Identity>, id: Identity)
    requires id in ids
    ensures SetBytes(isDefault, ids) == |Record(isDefault, id)| + 1 + SetBytes(isDefault, ids - {id})
    decreases |ids|
  {
    hide Record;
    var x :| x in ids && SetBytes(isDefault, ids) == |Record(isDefault, x)| + 1 + SetBytes(isDefault, ids - {x});
    if x != id {
      SetBytesRemove(isDefault, ids - {x}, id);
      SetBytesRemove(isDefault, ids - {id}, x);
      assert ids - {x} - {id} == ids - {id} - {x};
    }
  }

  lemma {:induction false} SetBytesMonotone(isDefault: bool, a: set<Identity>, b: set<Identity>)
    requires a <= b
    ensures SetBytes(isDefault, a) <= SetBytes(isDefault, b)
    decreases |a|
  {
    hide Record;
    if a != {} {
      var id :| id in a;
      SetBytesRemove(isDefault, a, id);
      SetBytesRemove(isDefault, b, id);
      SetBytesMonotone(isDefault, a - {id}, b - {id});
    }
  }

  lemma {:induction false} ListBytes(isDefault: bool, ids: seq<Identity>)
    requires Distinct(ids)
    ensures RecordBytes(isDefault, ids) == SetBytes(isDefault, Members(ids))
    decreases |ids|
  {
    hide Record, SetBytes;
    if ids == [] {
      NoBytes(isDefault);
      assert Members(ids) == {};
    } else {
      MembersFront(ids);
      hide Distinct, Members;
      var n := |ids| - 1;
      ListBytes(isDefault, ids[..n]);
      SetBytesRemove(isDefault, Members(ids), ids[n]);
    }
  }

  lemma NoBytes(isDefault: bool)
    ensures SetBytes(isDefault, {}) == 0
  {}

  lemma MembersFront(ids: seq<Identity>)
    requires Distinct(ids) && ids != []
    ensures var n := |ids| - 1;
            Distinct(ids[..n]) && ids[n] in Members(ids) && Members(ids) - {ids[n]} == Members(ids[..n])
  {}

  lemma DefaultValues(defaults: seq<Identity>)
    requires DistinctScopes(defaults)
    ensures DefaultMap(defaults).Values == Members(defaults) && Distinct(defaults)
  {
    hide DefaultMap;
    DefaultMapMeaning(defaults);
    var m := DefaultMap(defaults);
    forall id ensures id in m.Values <==> id in defaults {
      if id in m.Values {
        var s :| s in m && m[s] == id;
      }
    }
  }

  /** A save accepts arrays exactly when their meaning is storable. */
  lemma StorableIff(installed: seq<Identity>, defaults: seq<Identity>, host: string)
    requires ValidLists(installed, defaults)
    ensures |Bytes(installed, defaults)| == DocBytes(DocOf(installed, defaults))
    ensures Storable(DocOf(installed, defaults), host) <==>
              |Bytes(installed, defaults)| <= MAX_STATE_FILE_BYTES && OneHost(installed, host)
  {
    hide Bytes, RecordBytes, SetBytes, DefaultMap, ValidIdentity;
    ValidListsAreWellFormed(installed, defaults);
    MeasuredSize(installed, defaults);
    DefaultValues(defaults);
    ListBytes(false, installed);
    ListBytes(true, defaults);
    assert forall i :: 0 <= i < |installed| ==> installed[i] in Members(installed);
  }

  /** Dropping records and defaults keeps a state storable. */
  lemma StorableShrinks(d: Doc, smaller: Doc, host: string)
    requires Storable(d, host) && WellFormed(smaller)
    requires smaller.installed <= d.installed && smaller.defaults.Values <= d.defaults.Values
    ensures Storable(smaller, host)
  {
    SetBytesMonotone(false, smaller.installed, d.installed);
    SetBytesMonotone(true, smaller.defaults.Values, d.defaults.Values);
  }

  method MeasureRecords(isDefault: bool, ids: set<Identity>) returns (size: nat)
    ensures size == SetBytes(isDefault, ids)
  {
    hide Record;
    size := 0;
    var rest := ids;
    while rest != {}
      invariant rest <= ids && size + SetBytes(isDefault, rest) == SetBytes(isDefault, ids)
      decreases rest
    {
      var id: Identity :| id in rest;
      SetBytesRemove(isDefault, rest, id);
      size := size + |Record(isDefault, id)| + 1;
      rest := rest - {id};
    }
  }

  /** The refusals of `state_save`, in its order: invalid, too large, of another host. */
  method CheckStorable(d: Doc, host: string) returns (err: CupError)
    ensures err == if !WellFormed(d) then InconsistentState
                   else if DocBytes(d) > MAX_STATE_FILE_BYTES then StateFull
                   else if !Storable(d, host) then InconsistentState else Ok
  {
    hide Record, ValidIdentity;
    if !WellFormed(d) {
      return InconsistentState;
    }
    var installedBytes := MeasureRecords(false, d.installed);
    var defaultBytes := MeasureRecords(true, d.defaults.Values);
    if |HEADER| + 1 + installedBytes + defaultBytes > MAX_STATE_FILE_BYTES {
      return StateFull;
    }
    return if forall id :: id in d.installed ==> id.host == host then Ok else InconsistentState;
  }
}
