/** state.txt: the strict text form of a state, its sorted writer and its all-or-nothing loader. */
module StateDocument {
  import opened Text
  import opened Domain
  import opened States
  import opened Documents
  import Versions

  const MAX_STATE_FILE_BYTES := 4 * 1024 * 1024
  const MAX_STATE_LINE_LEN := 256
  const MAX_SELECTOR_LEN := 64
  const MAX_PLATFORM_LEN := 64
  const HEADER := "format=2"

  // ---- The order of records ----

  /** `compare_identity_pointers`: component, target, tool, then version. */
  function IdCmp(a: Identity, b: Identity): int
    requires ValidIdentity(a) && ValidIdentity(b)
  {
    var component, target, tool := StrCmp(a.component, b.component), StrCmp(a.target, b.target), StrCmp(a.tool, b.tool);
    if component != 0 then component
    else if target != 0 then target
    else if tool != 0 then tool
    else Versions.Cmp(a.version, b.version)
  }

  /** The first field that differs decides, the component first, then target, tool and version. */
  lemma IdCmpByField(a: Identity, b: Identity)
    requires ValidIdentity(a) && ValidIdentity(b)
    ensures IdCmp(a, b) < 0 <==>
              if a.component != b.component then TextBefore(a.component, b.component)
              else if a.target != b.target then TextBefore(a.target, b.target)
              else if a.tool != b.tool then TextBefore(a.tool, b.tool)
              else Versions.IsOlder(a.version, b.version)
  {
    hide StrCmp, TextBefore, Versions.Cmp, Versions.Older, Versions.KeyOf;
    StrIsBefore(a.component, b.component);
    StrIsBefore(a.target, b.target);
    StrIsBefore(a.tool, b.tool);
    Versions.CmpIsAge(a.version, b.version);
  }

  /** On one host the order is total and separates all identities. */
  lemma IdCmpIsOrder(a: Identity, b: Identity, c: Identity)
    requires ValidIdentity(a) && ValidIdentity(b) && ValidIdentity(c) && a.host == b.host == c.host
    ensures IdCmp(a, b) == 0 <==> a == b
    ensures IdCmp(b, a) == -IdCmp(a, b)
    ensures IdCmp(a, b) <= 0 && IdCmp(b, c) <= 0 ==> IdCmp(a, c) <= 0
    ensures IdCmp(a, b) < 0 && IdCmp(b, c) < 0 ==> IdCmp(a, c) < 0
  {
    hide StrCmp, Versions.Cmp, ValidIdentity;
    ValidVersions(a);
    ValidVersions(b);
    ValidVersions(c);
    StrOrder(a.component, b.component, c.component);
    StrOrder(a.target, b.target, c.target);
    StrOrder(a.tool, b.tool, c.tool);
    VersionFields(a.version, b.version, c.version);
  }

  lemma ValidVersions(a: Identity)
    requires ValidIdentity(a)
    ensures Versions.IsVersion(a.version)
  {}

  lemma VersionFields(a: string, b: string, c: string)
    requires Versions.IsVersion(a) && Versions.IsVersion(b) && Versions.IsVersion(c)
    ensures Versions.Cmp(a, b) == 0 <==> a == b
    ensures Versions.Cmp(b, a) == -Versions.Cmp(a, b)
    ensures Versions.Cmp(a, b) <= 0 && Versions.Cmp(b, c) <= 0 ==> Versions.Cmp(a, c) <= 0
    ensures Versions.Cmp(a, b) < 0 && Versions.Cmp(b, c) < 0 ==> Versions.Cmp(a, c) < 0
  {
    Versions.CmpZero(a, b);
    Versions.CmpSwap(a, b);
    if Versions.Cmp(a, b) <= 0 && Versions.Cmp(b, c) <= 0 {
      Versions.CmpTransitive(a, b, c);
    }
  }

  /** Valid identities of one host. */
  predicate OneHost(ids: seq<Identity>, host: string) {
    forall i :: 0 <= i < |ids| ==> ValidIdentity(ids[i]) && ids[i].host == host
  }

  predicate Ascending(ids: seq<Identity>, host: string)
    requires OneHost(ids, host)
  {
    forall i, j :: 0 <= i < j < |ids| ==> IdCmp(ids[i], ids[j]) <= 0
  }

  /** A sorted list of distinct identities with given members. */
  ghost predicate SortedFrom(source: seq<Identity>, sorted: seq<Identity>, host: string) {
    && OneHost(sorted, host) && Ascending(sorted, host) && Distinct(sorted)
    && |sorted| == |source| && forall id :: id in sorted <==> id in source
  }

  function Insert(id: Identity, ids: seq<Identity>): (r: seq<Identity>)
    requires ValidIdentity(id) && forall i :: 0 <= i < |ids| ==> ValidIdentity(ids[i])
    ensures forall i :: 0 <= i < |r| ==> ValidIdentity(r[i])
  {
    hide IdCmp, ValidIdentity;
    if ids == [] then [id]
    else if IdCmp(id, ids[0]) <= 0 then [id] + ids
    else [ids[0]] + Insert(id, ids[1..])
  }

  lemma {:induction false} InsertSorts(id: Identity, ids: seq<Identity>, host: string)
    requires ValidIdentity(id) && id.host == host && id !in ids
    requires OneHost(ids, host) && Ascending(ids, host) && Distinct(ids)
    ensures SortedFrom(ids + [id], Insert(id, ids), host)
    decreases |ids|
  {
    hide IdCmp, ValidIdentity;
    var r := Insert(id, ids);
    if ids == [] {
    } else if IdCmp(id, ids[0]) <= 0 {
      forall j | 0 <= j < |ids| ensures IdCmp(id, ids[j]) <= 0 {
        IdCmpIsOrder(id, ids[0], ids[j]);
      }
    } else {
      var tail := ids[1..];
      assert ids == [ids[0]] + tail;
      InsertSorts(id, tail, host);
      var rest := Insert(id, tail);
      assert forall x :: x in rest <==> x in tail || x == id;
      IdCmpIsOrder(id, ids[0], id);
      PrependSorted(ids[0], rest, host);
    }
  }

  lemma PrependSorted(first: Identity, rest: seq<Identity>, host: string)
    requires ValidIdentity(first) && first.host == host
    requires OneHost(rest, host) && Ascending(rest, host) && Distinct(rest)
    requires first !in rest && forall id :: id in rest ==> ValidIdentity(id) && IdCmp(first, id) <= 0
    ensures OneHost([first] + rest, host) && Ascending([first] + rest, host) && Distinct([first] + rest)
  {
    hide IdCmp, ValidIdentity;
    assert forall j :: 0 <= j < |rest| ==> rest[j] in rest;
  }

  /** What `qsort` makes of the pointers. */
  function Sort(ids: seq<Identity>): (r: seq<Identity>)
    requires forall i :: 0 <= i < |ids| ==> ValidIdentity(ids[i])
    ensures forall i :: 0 <= i < |r| ==> ValidIdentity(r[i])
  {
    if ids == [] then [] else Insert(ids[|ids| - 1], Sort(ids[..|ids| - 1]))
  }

  lemma {:induction false} SortSorts(ids: seq<Identity>, host: string)
    requires OneHost(ids, host) && Distinct(ids)
    ensures SortedFrom(ids, Sort(ids), host)
    decreases |ids|
  {
    hide IdCmp, ValidIdentity, Insert;
    if ids != [] {
      var n := |ids| - 1;
      assert ids == ids[..n] + [ids[n]];
      SortSorts(ids[..n], host);
      InsertSorts(ids[n], Sort(ids[..n]), host);
    }
  }

  lemma TailMembers(a: seq<Identity>)
    requires Distinct(a) && a != []
    ensures Distinct(a[1..]) && forall id :: id in a[1..] <==> id in a && id != a[0]
  {
    assert a == [a[0]] + a[1..];
    assert forall j :: 0 <= j < |a[1..]| ==> a[1..][j] == a[j + 1];
  }

  lemma FirstIsSame(a: seq<Identity>, b: seq<Identity>, host: string)
    requires OneHost(a, host) && OneHost(b, host) && Ascending(a, host) && Ascending(b, host)
    requires a != [] && b != [] && a[0] in b && b[0] in a
    ensures a[0] == b[0]
  {
    hide IdCmp, ValidIdentity;
    var i :| 0 <= i < |b| && b[i] == a[0];
    var j :| 0 <= j < |a| && a[j] == b[0];
    IdCmpIsOrder(a[0], b[0], a[0]);
  }

  /** Sorted lists with the same members are the same list: any correct sort gives this one. */
  lemma {:induction false} SortedIsUnique(a: seq<Identity>, b: seq<Identity>, host: string)
    requires OneHost(a, host) && OneHost(b, host) && Ascending(a, host) && Ascending(b, host)
    requires Distinct(a) && Distinct(b) && |a| == |b| && forall id :: id in a <==> id in b
    ensures a == b
    decreases |a|
  {
    hide IdCmp, ValidIdentity;
    if a != [] {
      assert a[0] in b;
      assert b[0] in a;
      FirstIsSame(a, b, host);
      TailMembers(a);
      TailMembers(b);
      SortedIsUnique(a[1..], b[1..], host);
      assert a == [a[0]] + a[1..] && b == [b[0]] + b[1..];
    }
  }

  // ---- Records ----

  /** Lower-case letters, digits and hyphens: what registered names are made of. */
  predicate Word(s: string) {
    0 < |s| < 16 && forall i :: 0 <= i < |s| ==> 'a' <= s[i] <= 'z' || '0' <= s[i] <= '9' || s[i] == '-'
  }

  predicate VersionChars(s: string) {
    && 0 < |s| < Versions.MAX_IDENTIFIER_LEN
    && forall i :: 0 <= i < |s| ==> '-' <= s[i] <= '.' || '0' <= s[i] <= '9' || 'e' <= s[i] <= 'v'
  }

  lemma ComponentWords(s: string)
    requires s in COMPONENTS
    ensures Word(s)
  {
    hide Word;
    ShortWords();
    LongWords();
  }

  lemma LongWords()
    ensures Word("language-server") && Word("package-manager")
  {}

  lemma ShortWords()
    ensures Word("compiler") && Word("debugger") && Word("linker") && Word("formatter") && Word("linter")
              && Word("analyzer")
  {}

  lemma PlatformWords(s: string)
    requires s in PLATFORMS
    ensures Word(s)
  {
    assert Word("linux-x64") && Word("linux-arm64") && Word("windows-x64") && Word("macos-x64") && Word("macos-arm64");
  }

  lemma ToolWords(i: nat)
    requires i < |TOOLS|
    ensures Word(TOOLS[i].1)
  {
    if i < 6 {
      assert Word("gcc") && Word("clang") && Word("gdb") && Word("lldb") && Word("lld") && Word("ld");
    } else {
      assert Word("clang-format") && Word("clang-tidy") && Word("clangd") && Word("valgrind") && Word("coffee");
    }
  }

  lemma {:induction false} DottedChars(s: string, lo: nat, hi: nat)
    requires Versions.Range(s, lo, hi) && Versions.NumericDotted(s, lo, hi)
    ensures forall i :: lo <= i < hi ==> s[i] == '.' || '0' <= s[i] <= '9'
    decreases hi - lo
  {
    var n := Versions.SegmentEnd(s, lo, hi);
    if n < hi {
      DottedChars(s, n + 1, hi);
    }
  }

  lemma VersionIsPlain(s: string)
    requires Versions.IsVersion(s)
    ensures VersionChars(s)
  {
    var m := Versions.MarkerFrom(s, 0);
    DottedChars(s, 0, m);
  }

  /** The fields of a valid identity contain no separator of the format. */
  lemma IdentityIsPlain(id: Identity)
    requires ValidIdentity(id)
    ensures Word(id.component) && Word(id.target) && Word(id.tool) && VersionChars(id.version)
  {
    ComponentWords(id.component);
    PlatformWords(id.target);
    var i :| 0 <= i < |TOOLS| && TOOLS[i] == (id.component, id.tool);
    ToolWords(i);
    VersionIsPlain(id.version);
  }

  function KindName(isDefault: bool): string {
    if isDefault then "default" else "installed"
  }

  function ScopeText(id: Identity): string {
    id.component + ("." + id.target)
  }

  function KeyText(isDefault: bool, id: Identity): string {
    KindName(isDefault) + ("." + ScopeText(id))
  }

  function SelectorText(id: Identity): string {
    id.tool + ("@" + id.version)
  }

  /** `write_state_record`, without the line feed. */
  function Record(isDefault: bool, id: Identity): string {
    KeyText(isDefault, id) + ("=" + SelectorText(id))
  }

  datatype Entry = Entry(isDefault: bool, id: Identity)

  /** Exactly two nonempty trimmed fields around one separator, within their buffers. */
  function SplitPair(s: string, sep: char, firstSize: nat, secondSize: nat): Option<(string, string)> {
    var n := IndexOf(s, sep);
    if n == |s| || IndexFrom(s, sep, n + 1) < |s| then None
    else
      var a, b := Trim(s[..n]), Trim(s[n + 1..]);
      if a == "" || b == "" || |a| >= firstSize || |b| >= secondSize then None else Some((a, b))
  }

  /** `package_selector_parse_parts`: one at sign, strictly inside. */
  function SplitSelector(s: string): Option<(string, string)> {
    var n := IndexOf(s, '@');
    if s == "" || |s| >= MAX_SELECTOR_LEN || n == 0 || n + 1 >= |s| || IndexFrom(s, '@', n + 1) < |s| then None
    else if n >= Versions.MAX_IDENTIFIER_LEN || |s| - n - 1 >= Versions.MAX_IDENTIFIER_LEN then None
    else Some((s[..n], s[n + 1..]))
  }

  /** `parse_state_line` up to the identity it names. */
  function ParseRecord(line: string, host: string): Option<Entry> {
    match ParseField(line, MAX_STATE_LINE_LEN, MAX_SELECTOR_LEN)
    case None => None
    case Some(Field(key, value)) =>
      var isDefault := "default." <= key;
      if !isDefault && !("installed." <= key) then None
      else
        match SplitPair(key[if isDefault then 8 else 10..], '.', Versions.MAX_IDENTIFIER_LEN, MAX_PLATFORM_LEN)
        case None => None
        case Some((component, target)) =>
          match SplitSelector(value)
          case None => None
          case Some((tool, version)) =>
            var id := Identity(component, tool, host, target, version);
            if ValidIdentity(id) then Some(Entry(isDefault, id)) else None
  }

  lemma WordHasNoBlank(s: string)
    requires Word(s) || VersionChars(s)
    ensures forall i :: 0 <= i < |s| ==> !Blank(s[i]) && s[i] != '=' && s[i] != '@' && Printable(s[i])
  {}

  lemma PairOfWritten(a: string, b: string)
    requires Word(a) && Word(b)
    ensures SplitPair(a + ("." + b), '.', Versions.MAX_IDENTIFIER_LEN, MAX_PLATFORM_LEN) == Some((a, b))
  {
    var s := a + ("." + b);
    assert forall k :: 0 <= k < |a| ==> s[k] == a[k];
    IndexOfUnique(s, '.', |a|);
    assert s[..|a|] == a && s[|a| + 1..] == b;
    assert forall k :: |a| + 1 <= k < |s| ==> s[k] == b[k - |a| - 1];
    TrimNothing(a);
    TrimNothing(b);
  }

  lemma SelectorOfWritten(a: string, b: string)
    requires Word(a) && VersionChars(b)
    ensures SplitSelector(a + ("@" + b)) == Some((a, b))
  {
    var s := a + ("@" + b);
    assert forall k :: 0 <= k < |a| ==> s[k] == a[k];
    IndexOfUnique(s, '@', |a|);
    assert s[..|a|] == a && s[|a| + 1..] == b;
    assert forall k :: |a| + 1 <= k < |s| ==> s[k] == b[k - |a| - 1];
  }

  lemma KeyChars(isDefault: bool, id: Identity)
    requires Word(id.component) && Word(id.target)
    ensures var k := KeyText(isDefault, id);
            && 0 < |k| < 48 && (forall i :: 0 <= i < |k| ==> k[i] != '=' && !Blank(k[i]) && Printable(k[i]))
            && (if isDefault then "default." <= k && k[8..] == ScopeText(id)
                else "installed." <= k && !("default." <= k) && k[10..] == ScopeText(id))
  {
    var scope, k := ScopeText(id), KeyText(isDefault, id);
    WordHasNoBlank(id.component);
    WordHasNoBlank(id.target);
    assert forall i :: 0 <= i < |scope| ==>
      scope[i] == if i < |id.component| then id.component[i]
                  else if i == |id.component| then '.' else id.target[i - |id.component| - 1];
    var prefix := KindName(isDefault) + ".";
    assert k == prefix + scope;
    assert k[..|prefix|] == prefix && k[|prefix|..] == scope;
    assert k[0] == prefix[0];
  }

  lemma SelectorChars(id: Identity)
    requires Word(id.tool) && VersionChars(id.version)
    ensures var s := SelectorText(id);
            0 < |s| < MAX_SELECTOR_LEN && (forall i :: 0 <= i < |s| ==> !Blank(s[i]) && Printable(s[i]))
  {
    WordHasNoBlank(id.tool);
    WordHasNoBlank(id.version);
  }

  /** A line whose two halves split as written parses as the identity they name. */
  lemma ParseOfParts(isDefault: bool, id: Identity, line: string, key: string, value: string)
    requires ValidIdentity(id)
    requires ParseField(line, MAX_STATE_LINE_LEN, MAX_SELECTOR_LEN) == Some(Field(key, value))
    requires if isDefault then "default." <= key && key[8..] == ScopeText(id)
             else "installed." <= key && !("default." <= key) && key[10..] == ScopeText(id)
    requires SplitPair(ScopeText(id), '.', Versions.MAX_IDENTIFIER_LEN, MAX_PLATFORM_LEN)
               == Some((id.component, id.target))
    requires SplitSelector(value) == Some((id.tool, id.version))
    ensures ParseRecord(line, id.host) == Some(Entry(isDefault, id))
  {
    hide ValidIdentity, ParseField, SplitPair, SplitSelector, ScopeText;
  }

  /** What a line made of plain halves looks like. */
  lemma LineOfParts(key: string, value: string)
    requires 0 < |key| < 48 && (forall i :: 0 <= i < |key| ==> !Blank(key[i]) && Printable(key[i])) && key[0] != '#'
    requires 0 < |value| < MAX_SELECTOR_LEN
    requires forall i :: 0 <= i < |value| ==> !Blank(value[i]) && Printable(value[i])
    ensures var line := key + ("=" + value);
            && IsLine(line) && 0 < |line| < 128 && Trim(line) == line && line[0] != '#' && |line| == |key| + 1 + |value|
  {
    hide Trim;
    var line := key + ("=" + value);
    assert forall i :: 0 <= i < |line| ==>
      line[i] == if i < |key| then key[i] else if i == |key| then '=' else value[i - |key| - 1];
    TrimNothing(line);
  }

  /** A record line is printable, bounded, no comment, and reads back as its identity. */
  lemma RecordRoundTrip(isDefault: bool, id: Identity)
    requires ValidIdentity(id)
    ensures ParseRecord(Record(isDefault, id), id.host) == Some(Entry(isDefault, id))
    ensures var line := Record(isDefault, id);
            && IsLine(line) && 0 < |line| < 128 && Trim(line) == line && line[0] != '#'
  {
    IdentityIsPlain(id);
    hide ValidIdentity, Word, VersionChars, ParseField, ParseRecord, SplitPair, SplitSelector, Trim, KeyText, ScopeText;
    hide SelectorText, IsLine;
    var key, value := KeyText(isDefault, id), SelectorText(id);
    KeyChars(isDefault, id);
    SelectorChars(id);
    PartsOfWritten(id);
    FieldOfWritten(key, value, MAX_STATE_LINE_LEN, MAX_SELECTOR_LEN);
    assert key[0] != '#';
    LineOfParts(key, value);
    ParseOfParts(isDefault, id, Record(isDefault, id), key, value);
  }

  lemma PartsOfWritten(id: Identity)
    requires Word(id.component) && Word(id.target) && Word(id.tool) && VersionChars(id.version)
    ensures SplitPair(ScopeText(id), '.', Versions.MAX_IDENTIFIER_LEN, MAX_PLATFORM_LEN)
              == Some((id.component, id.target))
    ensures SplitSelector(SelectorText(id)) == Some((id.tool, id.version))
  {
    hide Word, VersionChars, SplitPair, SplitSelector;
    PairOfWritten(id.component, id.target);
    SelectorOfWritten(id.tool, id.version);
  }
}
