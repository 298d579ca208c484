/** transaction.txt for a package operation: seven ordered fields, written once and read strictly. */
module JournalDocument {
  import opened Text
  import opened Domain
  import opened Documents
  import opened Paths
  import opened Disks
  import StateDocument
  import Versions

  const MAX_RUNTIME_JOURNAL_BYTES := 8192
  const MAX_METADATA_LINE_LEN := 512
  const MAX_METADATA_VALUE_LEN := 384
  const MAX_JOURNAL_KEY_LEN := 64

  const KEYS: seq<string> :=
    ["format", "operation", "component", "tool", "target_platform", "package_version", "temporary_name"]

  datatype Transaction = Transaction(operation: Operation, package: Identity, temporaryName: string)

  function OperationName(operation: Operation): string {
    if operation == Install then "install" else "remove"
  }

  /** `layout_build_staging_prefix`. */
  function StagingPrefix(operation: Operation, id: Identity): string {
    OperationName(operation) + ("-" + (id.component + ("-" + (id.tool + ("-" + (id.target + ("-" + id.version)))))))
  }

  /** `transaction_temporary_name_is_valid`: the private name repeats the operation and the identity. */
  predicate TemporaryNameIsValid(t: Transaction) {
    var prefix, name := StagingPrefix(t.operation, t.package), t.temporaryName;
    && SafeSegment(name) && |name| < MAX_METADATA_VALUE_LEN
    && SafeSegment(t.package.component) && SafeSegment(t.package.tool)
    && SafeSegment(t.package.target) && SafeSegment(t.package.version)
    && |prefix| < MAX_PATH_LEN
    && |prefix| + 1 < |name| && name[..|prefix|] == prefix && name[|prefix|] == '-'
  }

  /** What begin accepts. */
  predicate ValidTransaction(t: Transaction) {
    ValidIdentity(t.package) && TemporaryNameIsValid(t)
  }

  // ---- Writing ----

  function Values(t: Transaction): (r: seq<string>)
    ensures |r| == |KEYS|
  {
    ["2", OperationName(t.operation), t.package.component, t.package.tool, t.package.target, t.package.version,
        t.temporaryName]
  }

  function FieldLine(k: nat, value: string): string
    requires k < |KEYS|
  {
    KEYS[k] + ("=" + value)
  }

  function LinesOf(t: Transaction): (r: seq<string>)
    ensures |r| == |KEYS| && forall k :: 0 <= k < |KEYS| ==> r[k] == FieldLine(k, Values(t)[k])
  {
    seq(|KEYS|, k requires 0 <= k < |KEYS| => FieldLine(k, Values(t)[k]))
  }

  /** `write_package_journal`. */
  function Render(t: Transaction): string {
    Flatten(LinesOf(t))
  }

  // ---- Reading ----

  function ValueSize(k: nat): nat
    requires k < |KEYS|
  {
    if k == 4 then StateDocument.MAX_PLATFORM_LEN else if k == 6 then MAX_PATH_LEN else Versions.MAX_IDENTIFIER_LEN
  }

  /** `set_package_transaction_field`: what may be stored under the k-th key. */
  predicate Accepts(k: nat, value: string)
    requires k < |KEYS|
  {
    if k == 0 then value == "2"
    else if k == 1 then value == "install" || value == "remove"
    else |value| < ValueSize(k)
  }

  /** What one raw line leaves under the key of its position: the old text if the line has no content. */
  function ReadValue(line: string, k: nat, was: string): Option<string>
    requires k < |KEYS|
  {
    if |line| >= MAX_METADATA_LINE_LEN then None
    else if !HasContent(line) then Some(was)
    else
      match ParseField(Trim(line), MAX_JOURNAL_KEY_LEN, MAX_PATH_LEN)
      case None => None
      case Some(Field(key, value)) => if key == KEYS[k] && Accepts(k, value) then Some(value) else None
  }

  /** The text each key ends up with, reading from raw line `k`. A line without content is skipped but
      still counts as a line, so the key at its position is never set. */
  function ReadFrom(lines: seq<string>, k: nat, c: seq<string>): (r: Option<seq<string>>)
    requires |c| == |KEYS|
    ensures r.Some? ==> |r.value| == |KEYS| == |lines|
    decreases |lines| - k
  {
    if k >= |KEYS| || k >= |lines| then (if |lines| == |KEYS| then Some(c) else None)
    else
      match ReadValue(lines[k], k, c[k])
      case None => None
      case Some(value) => ReadFrom(lines, k + 1, c[k := value])
  }

  const NO_VALUES: seq<string> := ["", "", "", "", "", "", ""]

  predicate HasSpace(data: string) {
    exists i :: 0 <= i < |data| && data[i] == ' '
  }

  /** The checks after the last field. */
  function Finish(c: seq<string>, host: string): Option<Transaction>
    requires |c| == |KEYS|
  {
    if c[1] != "install" && c[1] != "remove" then None
    else
      var t := Transaction(if c[1] == "install" then Install else Remove, Identity(c[2], c[3], host, c[4], c[5]), c[6]);
      if ValidTransaction(t) then Some(t) else None
  }

  function Load(data: string, host: string): Option<Transaction> {
    if |data| > MAX_RUNTIME_JOURNAL_BYTES || HasSpace(data) || !IsDocument(data) then None
    else
      match ReadFrom(LinesFrom(data, 0), 0, NO_VALUES)
      case None => None
      case Some(c) => Finish(c, host)
  }

  // ---- What one line must be ----

  predicate Plain(s: string) {
    forall i :: 0 <= i < |s| ==> Printable(s[i]) && s[i] != ' '
  }

  lemma PlainIsTrimmed(s: string)
    requires Plain(s)
    ensures Trim(s) == s && (HasContent(s) <==> s != "" && s[0] != '#')
  {
    hide Trim;
    TrimNothing(s);
  }

  /** On a line without blanks, parsing as a field undoes writing it. */
  lemma FieldOfPlain(line: string, keySize: nat, valueSize: nat)
    requires Plain(line)
    ensures match ParseField(line, keySize, valueSize)
            case None => true
            case Some(f) => line == f.key + ("=" + f.value) && f.key != "" && f.value != ""
  {
    var n := IndexOf(line, '=');
    if n < |line| {
      PlainIsTrimmed(line[..n]);
      PlainIsTrimmed(line[n + 1..]);
      hide Trim, IndexOf;
      assert line == line[..n] + ("=" + line[n + 1..]);
    }
  }

  /** One raw line: skipped and the value stays, or the field of its position and the value is new. */
  predicate LineGives(line: string, k: nat, was: string, value: string)
    requires k < |KEYS|
  {
    && |line| < MAX_METADATA_LINE_LEN
    && if line == "" || line[0] == '#' then value == was
       else line == FieldLine(k, value) && value != "" && |value| < MAX_PATH_LEN && Accepts(k, value)
  }

  lemma KeysArePlain(k: nat)
    requires k < |KEYS|
    ensures 0 < |KEYS[k]| < MAX_JOURNAL_KEY_LEN && KEYS[k][0] != '#'
    ensures Plain(KEYS[k]) && forall i :: 0 <= i < |KEYS[k]| ==> KEYS[k][i] != '='
  {}

  lemma ReadValueMeaning(line: string, k: nat, was: string)
    requires k < |KEYS| && Plain(line)
    ensures match ReadValue(line, k, was)
            case None => forall v :: !LineGives(line, k, was, v)
            case Some(value) => LineGives(line, k, was, value) && forall v :: LineGives(line, k, was, v) ==> v == value
  {
    hide Trim, ParseField, Accepts;
    PlainIsTrimmed(line);
    if line != "" && line[0] != '#' {
      FieldOfPlain(line, MAX_JOURNAL_KEY_LEN, MAX_PATH_LEN);
      forall v | LineGives(line, k, was, v)
        ensures ParseField(line, MAX_JOURNAL_KEY_LEN, MAX_PATH_LEN) == Some(Field(KEYS[k], v))
      {
        PlainParts(k, v, line);
        KeysArePlain(k);
        FieldOfWritten(KEYS[k], v, MAX_JOURNAL_KEY_LEN, MAX_PATH_LEN);
      }
    }
  }

  lemma PlainParts(k: nat, v: string, line: string)
    requires k < |KEYS| && line == FieldLine(k, v)
    ensures Plain(line) ==> Plain(v)
    ensures Plain(v) ==> Plain(line) && line != "" && line[0] != '#'
    ensures |line| == |KEYS[k]| + 1 + |v|
  {
    KeysArePlain(k);
    var key := KEYS[k];
    assert forall i :: 0 <= i < |v| ==> v[i] == line[|key| + 1 + i];
    assert forall i :: 0 <= i < |line| ==>
             line[i] == if i < |key| then key[i] else if i == |key| then '=' else v[i - |key| - 1];
  }

  /** Reading succeeds with `after` exactly when there are seven lines and each gives its value. */
  lemma {:induction false} ReadMeaning(lines: seq<string>, k: nat, c: seq<string>, after: seq<string>)
    requires |c| == |KEYS| == |after| && k <= |KEYS| && forall i :: 0 <= i < |lines| ==> Plain(lines[i])
    ensures ReadFrom(lines, k, c) == Some(after) <==>
              && |lines| == |KEYS| && (forall j :: 0 <= j < k ==> after[j] == c[j])
              && forall j :: k <= j < |KEYS| ==> LineGives(lines[j], j, c[j], after[j])
    decreases |KEYS| - k
  {
    hide LineGives, ReadValue;
    if k < |KEYS| && k < |lines| {
      ReadValueMeaning(lines[k], k, c[k]);
      var value := ReadValue(lines[k], k, c[k]);
      if value.Some? {
        var next := c[k := value.value];
        ReadMeaning(lines, k + 1, next, after);
        assert next[k] == value.value && forall j :: 0 <= j < |KEYS| && j != k ==> next[j] == c[j];
      }
    } else if k == |KEYS| && forall j :: 0 <= j < k ==> after[j] == c[j] {
      assert after == c;
    }
  }

  // ---- Exactly which documents load ----

  lemma {:induction false} LinesArePlain(data: string, from: nat)
    requires from <= |data| && (from < |data| ==> data[|data| - 1] == '\n') && !HasSpace(data)
    requires forall i :: 0 <= i < |data| ==> Printable(data[i]) || data[i] == '\n'
    ensures forall i :: 0 <= i < |LinesFrom(data, from)| ==> Plain(LinesFrom(data, from)[i])
    decreases |data| - from
  {
    hide Printable;
    if from < |data| {
      var n := IndexFrom(data, '\n', from);
      FirstLine(data, from);
      LinesArePlain(data, n + 1);
      forall i | from <= i < n ensures data[i] != ' ' {
      }
    }
  }

  lemma {:induction false} FlattenHasNoSpace(lines: seq<string>)
    requires forall i :: 0 <= i < |lines| ==> Plain(lines[i])
    ensures !HasSpace(Flatten(lines))
    decreases |lines|
  {
    if lines != [] {
      FlattenHasNoSpace(lines[1..]);
      var rest := Flatten(lines[1..]);
      var data := Flatten(lines);
      assert data == lines[0] + ("\n" + rest);
      forall i | 0 <= i < |data| ensures data[i] != ' ' {
        if i > |lines[0]| {
          assert data[i] == rest[i - |lines[0]| - 1];
        }
      }
    }
  }

  lemma {:induction false} FlattenSize(lines: seq<string>, limit: nat)
    requires forall i :: 0 <= i < |lines| ==> |lines[i]| < limit
    ensures |Flatten(lines)| <= |lines| * limit
    decreases |lines|
  {
    if lines != [] {
      FlattenSize(lines[1..], limit);
      assert |lines| * limit == (|lines| - 1) * limit + limit;
    }
  }

  /** The fields of a valid transaction survive writing and reading one by one. */
  lemma ValuesFit(t: Transaction, k: nat)
    requires ValidTransaction(t) && k < |KEYS|
    ensures var v := Values(t)[k];
            && v != "" && |v| < MAX_METADATA_VALUE_LEN && Plain(v) && Accepts(k, v)
            && LineGives(FieldLine(k, v), k, "", v) && Plain(FieldLine(k, v))
  {
    hide ValidIdentity, StagingPrefix, StateDocument.Word, StateDocument.VersionChars, FieldLine;
    var v := Values(t)[k];
    StateDocument.IdentityIsPlain(t.package);
    PlainFields(t, k);
    PlainParts(k, v, FieldLine(k, v));
    KeysArePlain(k);
  }

  lemma PlainFields(t: Transaction, k: nat)
    requires SafeSegment(t.temporaryName) && |t.temporaryName| < MAX_METADATA_VALUE_LEN
    requires StateDocument.Word(t.package.component) && StateDocument.Word(t.package.tool)
    requires StateDocument.Word(t.package.target) && StateDocument.VersionChars(t.package.version)
    requires k < |KEYS|
    ensures var v := Values(t)[k]; v != "" && |v| < MAX_METADATA_VALUE_LEN && Plain(v) && Accepts(k, v)
  {}

  /** What the first line may be: the format line, or any line the reader skips. */
  predicate FirstLineMayBe(line: string) {
    Plain(line) && |line| < MAX_METADATA_LINE_LEN && (line == FieldLine(0, "2") || line == "" || line[0] == '#')
  }

  function LinesWith(first: string, t: Transaction): (r: seq<string>)
    ensures |r| == |KEYS| && r[0] == first && forall k :: 0 < k < |KEYS| ==> r[k] == FieldLine(k, Values(t)[k])
  {
    [first] + LinesOf(t)[1..]
  }

  function Document(first: string, t: Transaction): string {
    Flatten(LinesWith(first, t))
  }

  lemma LoadedLines(lines: seq<string>, host: string, c: seq<string>, t: Transaction)
    requires (forall i :: 0 <= i < |lines| ==> Plain(lines[i])) && |c| == |KEYS| == |lines|
    requires (forall k :: 0 <= k < |KEYS| ==> LineGives(lines[k], k, "", c[k])) && Finish(c, host) == Some(t)
    ensures t.package.host == host && ValidTransaction(t)
    ensures FirstLineMayBe(lines[0]) && lines == LinesWith(lines[0], t)
  {
    hide ValidIdentity, StagingPrefix, FieldLine, Values, Plain;
    FinishedValues(c, host, t);
    forall k | 0 < k < |KEYS| ensures lines[k] == FieldLine(k, Values(t)[k]) {
      ValuesFit(t, k);
      assert LineGives(lines[k], k, "", c[k]);
    }
    assert LineGives(lines[0], 0, "", c[0]);
  }

  lemma FinishedValues(c: seq<string>, host: string, t: Transaction)
    requires |c| == |KEYS| && Finish(c, host) == Some(t)
    ensures t.package.host == host && ValidTransaction(t)
    ensures forall k :: 0 < k < |KEYS| ==> Values(t)[k] == c[k]
  {
    hide ValidTransaction;
  }

  lemma FinishOfValues(c: seq<string>, t: Transaction)
    requires |c| == |KEYS| && ValidTransaction(t) && forall k :: 0 < k < |KEYS| ==> Values(t)[k] == c[k]
    ensures Finish(c, t.package.host) == Some(t)
  {
    hide ValidTransaction;
    var v := Values(t);
    assert v[1] == c[1] && v[2] == c[2] && v[3] == c[3] && v[4] == c[4] && v[5] == c[5] && v[6] == c[6];
  }

  /** A document of the right shape loads, whatever skipped line stands first. */
  lemma DocumentLoads(first: string, t: Transaction)
    requires FirstLineMayBe(first) && ValidTransaction(t)
    ensures Load(Document(first, t), t.package.host) == Some(t)
  {
    hide ValidTransaction, Values, FieldLine, LineGives, Plain, Flatten, LinesFrom, IsDocument, ReadFrom, LinesWith,
         Finish;
    var lines, data := LinesWith(first, t), Document(first, t);
    var c := [if first == FieldLine(0, "2") then "2" else ""] + Values(t)[1..];
    forall k | 0 <= k < |KEYS| ensures Plain(lines[k]) && IsLine(lines[k]) && LineGives(lines[k], k, "", c[k])
      ensures |lines[k]| < MAX_METADATA_LINE_LEN
    {
      if k == 0 {
        FirstLineGives(first, c[0]);
      } else {
        ValuesFit(t, k);
      }
      LineFacts(lines[k], k, c[k]);
    }
    FlattenIsDocument(lines);
    FlattenHasNoSpace(lines);
    FlattenSize(lines, MAX_METADATA_LINE_LEN);
    assert data[0..] == data;
    LinesOfFlatten(data, 0, lines);
    forall j | 0 <= j < |KEYS| ensures NO_VALUES[j] == "" {
    }
    ReadMeaning(lines, 0, NO_VALUES, c);
    FinishOfValues(c, t);
  }

  lemma FirstLineGives(first: string, value: string)
    requires FirstLineMayBe(first) && value == if first == FieldLine(0, "2") then "2" else ""
    ensures Plain(first) && LineGives(first, 0, "", value)
  {}

  lemma LineFacts(line: string, k: nat, value: string)
    requires k < |KEYS| && Plain(line) && LineGives(line, k, "", value)
    ensures IsLine(line) && |line| < MAX_METADATA_LINE_LEN
  {}

  /** The loader accepts exactly the seven written lines, where the format line alone may have been
      replaced by a line without content. */
  lemma LoadIff(data: string, host: string, t: Transaction)
    ensures Load(data, host) == Some(t) <==>
              && t.package.host == host && ValidTransaction(t)
              && exists first :: FirstLineMayBe(first) && data == Document(first, t)
  {
    hide ValidTransaction, FirstLineMayBe, Values, FieldLine, LineGives, Plain, Flatten, LinesFrom, ReadFrom,
         LinesWith, Finish;
    if Load(data, host) == Some(t) {
      var lines := LinesFrom(data, 0);
      LinesArePlain(data, 0);
      var c := ReadFrom(lines, 0, NO_VALUES).value;
      forall j | 0 <= j < |KEYS| ensures NO_VALUES[j] == "" {
      }
      ReadMeaning(lines, 0, NO_VALUES, c);
      LoadedLines(lines, host, c, t);
      FlattenOfLines(data, 0);
      assert data[0..] == data;
      assert data == Document(lines[0], t);
    }
    if t.package.host == host && ValidTransaction(t) {
      forall first | FirstLineMayBe(first) ensures Load(Document(first, t), host) == Some(t) {
        DocumentLoads(first, t);
      }
    }
  }

  // ---- Classification ----

  datatype JournalKind = PackageJournal | GenerationJournal | UninstallJournal

  function KindOf(value: string): Option<JournalKind> {
    if value == "install" || value == "remove" then Some(PackageJournal)
    else if value == "cup-generation" then Some(GenerationJournal)
    else if value == "uninstall" then Some(UninstallJournal)
    else None
  }

  datatype Detection = Failed | Seen(kind: Option<JournalKind>)

  /** `detect_journal_field` over the lines from `k`: the keys are in no order here. */
  function DetectFrom(lines: seq<string>, k: nat, seen: Option<JournalKind>): Detection
    decreases |lines| - k
  {
    if k >= |lines| then Seen(seen)
    else if |lines[k]| >= MAX_METADATA_LINE_LEN then Failed
    else if !HasContent(lines[k]) then DetectFrom(lines, k + 1, seen)
    else
      match ParseField(Trim(lines[k]), MAX_JOURNAL_KEY_LEN, MAX_PATH_LEN)
      case None => Failed
      case Some(Field(key, value)) =>
        if key != "operation" then DetectFrom(lines, k + 1, seen)
        else if seen.Some? || KindOf(value).None? then Failed
        else DetectFrom(lines, k + 1, KindOf(value))
  }

  function Detect(data: string): Option<JournalKind> {
    if |data| > MAX_RUNTIME_JOURNAL_BYTES || HasSpace(data) || !IsDocument(data) then None
    else
      match DetectFrom(LinesFrom(data, 0), 0, None)
      case Failed => None
      case Seen(kind) => kind
  }

  /** A field line under any key but `operation` does not change what was seen. */
  lemma DetectStep(lines: seq<string>, k: nat, seen: Option<JournalKind>, value: string)
    requires k < |lines| && k < |KEYS| && Plain(lines[k]) && LineGives(lines[k], k, "", value)
    ensures value == "" || k != 1 ==> DetectFrom(lines, k, seen) == DetectFrom(lines, k + 1, seen)
    ensures value != "" && k == 1 && seen.None? && KindOf(value).Some? ==>
              DetectFrom(lines, k, seen) == DetectFrom(lines, k + 1, KindOf(value))
  {
    hide Trim, ParseField, KindOf, Accepts, Plain;
    PlainIsTrimmed(lines[k]);
    if value != "" {
      PlainParts(k, value, lines[k]);
      KeysArePlain(k);
      PlainHasNoBlank(value);
      PlainHasNoBlank(KEYS[k]);
      FieldOfWritten(KEYS[k], value, MAX_JOURNAL_KEY_LEN, MAX_PATH_LEN);
      assert k != 1 ==> KEYS[k] != "operation";
    }
  }

  lemma PlainHasNoBlank(s: string)
    requires Plain(s)
    ensures forall i :: 0 <= i < |s| ==> !Blank(s[i])
  {}

  lemma {:induction false} DetectRest(lines: seq<string>, k: nat, seen: Option<JournalKind>, c: seq<string>)
    requires |lines| == |KEYS| == |c| && 2 <= k <= |KEYS|
    requires forall j :: 0 <= j < |KEYS| ==> Plain(lines[j]) && LineGives(lines[j], j, "", c[j])
    ensures DetectFrom(lines, k, seen) == Seen(seen)
    decreases |KEYS| - k
  {
    if k < |KEYS| {
      hide DetectFrom, Plain, LineGives;
      DetectStep(lines, k, seen, c[k]);
      DetectRest(lines, k + 1, seen, c);
    }
  }

  /** Whatever loads as a package transaction is classified as a package journal. */
  lemma LoadedIsPackageJournal(data: string, host: string)
    requires Load(data, host).Some?
    ensures Detect(data) == Some(PackageJournal)
  {
    hide LineGives, Plain, LinesFrom, ReadFrom, DetectFrom, IsDocument, Finish;
    PrintableDocument(data);
    var lines := LinesFrom(data, 0);
    LinesArePlain(data, 0);
    var c := ReadFrom(lines, 0, NO_VALUES).value;
    FinishedOperation(c, host);
    DetectLoaded(lines, c);
  }

  lemma FinishedOperation(c: seq<string>, host: string)
    requires |c| == |KEYS| && Finish(c, host).Some?
    ensures c[1] != "" && KindOf(c[1]) == Some(PackageJournal)
  {
    hide ValidTransaction;
  }

  lemma DetectLoaded(lines: seq<string>, c: seq<string>)
    requires ReadFrom(lines, 0, NO_VALUES) == Some(c) && forall i :: 0 <= i < |lines| ==> Plain(lines[i])
    requires c[1] != "" && KindOf(c[1]) == Some(PackageJournal)
    ensures DetectFrom(lines, 0, None) == Seen(Some(PackageJournal))
  {
    hide LineGives, Plain, ReadFrom, DetectFrom, KindOf;
    forall j | 0 <= j < |KEYS| ensures NO_VALUES[j] == "" {
    }
    ReadMeaning(lines, 0, NO_VALUES, c);
    DetectStep(lines, 0, None, c[0]);
    DetectStep(lines, 1, None, c[1]);
    DetectRest(lines, 2, Some(PackageJournal), c);
  }

  lemma PrintableDocument(data: string)
    requires IsDocument(data)
    ensures |data| > 0 && data[|data| - 1] == '\n'
    ensures forall i :: 0 <= i < |data| ==> Printable(data[i]) || data[i] == '\n'
  {}

  /** The value under the operation key decides the kind of a journal. */
  lemma OperationDecides(value: string)
    requires value != "" && |value| < 100 && Plain(value)
    ensures Detect("operation=" + value + "\n") == if value == "install" || value == "remove" then Some(PackageJournal)
                                                  else if value == "cup-generation" then Some(GenerationJournal)
                                                  else if value == "uninstall" then Some(UninstallJournal) else None
  {
    hide Plain, LinesFrom, IsDocument, HasSpace, DetectFrom, Flatten, Trim, ParseField;
    var line := FieldLine(1, value);
    var data := "operation=" + value + "\n";
    PlainParts(1, value, line);
    assert KEYS[1] == "operation" && line == "operation" + ("=" + value);
    assert data == line + "\n";
    OneLine(line);
    PlainIsTrimmed(line);
    KeysArePlain(1);
    PlainHasNoBlank(value);
    PlainHasNoBlank(KEYS[1]);
    FieldOfWritten(KEYS[1], value, MAX_JOURNAL_KEY_LEN, MAX_PATH_LEN);
    DetectOne(line, value);
  }

  lemma DetectOne(line: string, value: string)
    requires |line| < MAX_METADATA_LINE_LEN && HasContent(line) && Trim(line) == line
    requires ParseField(line, MAX_JOURNAL_KEY_LEN, MAX_PATH_LEN) == Some(Field("operation", value))
    ensures DetectFrom([line], 0, None) == if KindOf(value).None? then Failed else Seen(KindOf(value))
  {
    hide Trim, ParseField, KindOf;
  }

  lemma OneLine(line: string)
    requires Plain(line)
    ensures IsDocument(line + "\n") && LinesFrom(line + "\n", 0) == [line] && !HasSpace(line + "\n")
  {
    hide LinesFrom;
    var data := line + "\n";
    assert Flatten([line]) == data by {
      FlattenCons(line, []);
      assert [line] + [] == [line];
    }
    assert data[0..] == data;
    LinesOfFlatten(data, 0, [line]);
    FlattenIsDocument([line]);
    forall i | 0 <= i < |data| ensures data[i] != ' ' {
      if i < |line| {
        assert data[i] == line[i];
      }
    }
  }

  /** What begin writes loads back as what was begun, and is classified as a package journal. */
  lemma RoundTrip(t: Transaction)
    requires ValidTransaction(t)
    ensures Load(Render(t), t.package.host) == Some(t)
    ensures Detect(Render(t)) == Some(PackageJournal)
  {
    hide ValidTransaction, Load, Detect, Flatten;
    var first := FieldLine(0, "2");
    FormatLine();
    assert LinesOf(t) == LinesWith(first, t);
    DocumentLoads(first, t);
    LoadedIsPackageJournal(Render(t), t.package.host);
  }

  lemma FormatLine()
    ensures FirstLineMayBe(FieldLine(0, "2"))
  {
    KeysArePlain(0);
    PlainParts(0, "2", FieldLine(0, "2"));
  }

  /** The format line is not in fact required: a comment in its place is skipped, and no value of the
      format key is ever checked. */
  lemma FormatLineMayBeAComment(t: Transaction)
    requires ValidTransaction(t)
    ensures Load(Document("#", t), t.package.host) == Some(t) && Document("#", t) != Render(t)
  {
    hide ValidTransaction, Load, Values, FieldLine, Flatten;
    DocumentLoads("#", t);
    FormatLineText(t);
    FlattenStarts(LinesWith("#", t));
    FlattenStarts(LinesOf(t));
  }

  lemma FormatLineText(t: Transaction)
    ensures LinesOf(t)[0] != "" && LinesOf(t)[0][0] == 'f'
  {
    assert LinesOf(t)[0] == FieldLine(0, Values(t)[0]);
    assert KEYS[0] == "format";
  }

  lemma FlattenStarts(lines: seq<string>)
    requires lines != [] && lines[0] != ""
    ensures Flatten(lines) != "" && Flatten(lines)[0] == lines[0][0]
  {
    assert lines == [lines[0]] + lines[1..];
    FlattenCons(lines[0], lines[1..]);
  }

  /** The lines that begin writes, spelled out. */
  lemma RenderSays(t: Transaction)
    ensures Render(t) == Flatten(["format=2", "operation=" + (if t.operation == Install then "install" else "remove"),
                                  "component=" + t.package.component, "tool=" + t.package.tool,
                                  "target_platform=" + t.package.target, "package_version=" + t.package.version,
                                  "temporary_name=" + t.temporaryName])
  {
    hide Flatten;
    var lines := ["format=2", "operation=" + (if t.operation == Install then "install" else "remove"),
                  "component=" + t.package.component, "tool=" + t.package.tool,
                  "target_platform=" + t.package.target, "package_version=" + t.package.version,
                  "temporary_name=" + t.temporaryName];
    forall k | 0 <= k < |KEYS| ensures LinesOf(t)[k] == lines[k] {
      LineSays(k, Values(t)[k]);
    }
    assert LinesOf(t) == lines;
  }

  lemma LineSays(k: nat, value: string)
    requires k < |KEYS|
    ensures k == 0 && value == "2" ==> FieldLine(k, value) == "format=2"
    ensures k == 1 ==> FieldLine(k, value) == "operation=" + value
    ensures k == 2 ==> FieldLine(k, value) == "component=" + value
    ensures k == 3 ==> FieldLine(k, value) == "tool=" + value
    ensures k == 4 ==> FieldLine(k, value) == "target_platform=" + value
    ensures k == 5 ==> FieldLine(k, value) == "package_version=" + value
    ensures k == 6 ==> FieldLine(k, value) == "temporary_name=" + value
  {
    var key := KEYS[k];
    assert key + ("=" + value) == (key + "=") + value;
  }

  /** A valid temporary name is one path segment that says the operation and the package, and more. */
  lemma TemporaryNameSays(t: Transaction) returns (rest: string)
    requires TemporaryNameIsValid(t)
    ensures SafeSegment(t.temporaryName) && rest != ""
    ensures t.temporaryName
         == (if t.operation == Install then "install-" else "remove-") + t.package.component + "-" + t.package.tool
            + "-" + t.package.target + "-" + t.package.version + "-" + rest
  {
    hide SafeSegment;
    var prefix, name := StagingPrefix(t.operation, t.package), t.temporaryName;
    rest := name[|prefix| + 1..];
    var start := if t.operation == Install then "install-" else "remove-";
    var id := t.package;
    assert prefix == start + id.component + "-" + id.tool + "-" + id.target + "-" + id.version;
    assert name == prefix + "-" + rest;
  }

  // ---- The names that staging generates ----

  lemma ReservedHeads(s: string)
    requires s in RESERVED_NAMES
    ensures if |s| == 3 then s[0] == 'c' || s[0] == 'p' || s[0] == 'a' || s[0] == 'n'
            else |s| == 4 && ((s[0] == 'c' && s[1] == 'o') || (s[0] == 'l' && s[1] == 'p'))
  {}

  /** A segment whose folded head begins no platform alias. */
  lemma SafeByHead(s: string)
    requires 0 < |s| < MAX_PATH_SEGMENT_LEN && (forall i :: 0 <= i < |s| ==> SegmentChar(s[i]))
    requires s[0] == 'i' || s[0] == 'r' || '0' <= s[0] <= '9'
    requires s[|s| - 1] != '.'
    ensures SafeSegment(s)
  {
    var head := Lower(s[..IndexOf(s, '.')]);
    assert IndexOf(s, '.') > 0;
    assert head[0] == s[0];
    if head in RESERVED_NAMES {
      ReservedHeads(head);
    }
  }

  lemma SafeByWord(s: string)
    requires StateDocument.Word(s) && s !in RESERVED_NAMES
    ensures SafeSegment(s)
  {
    assert IndexOf(s, '.') == |s| && s[..|s|] == s;
    assert Lower(s) == s;
  }

  lemma ComponentIsNoAlias(s: string)
    requires s in COMPONENTS || s in PLATFORMS
    ensures s !in RESERVED_NAMES
  {
    assert |s| > 4;
    if s in RESERVED_NAMES {
      ReservedHeads(s);
    }
  }

  lemma ToolIsNoAlias(i: nat)
    requires i < |TOOLS|
    ensures TOOLS[i].1 !in RESERVED_NAMES
  {
    var s := TOOLS[i].1;
    assert |s| > 4 || s == "gcc" || s == "gdb" || s == "lldb" || s == "lld" || s == "ld";
    if s in RESERVED_NAMES {
      ReservedHeads(s);
    }
  }

  lemma VersionIsSafe(s: string)
    requires Versions.IsVersion(s)
    ensures SafeSegment(s)
  {
    StateDocument.VersionIsPlain(s);
    VersionEnds(s);
    SafeByHead(s);
  }

  /** A version starts and ends with a digit. */
  lemma VersionEnds(s: string)
    requires Versions.IsVersion(s)
    ensures s != "" && '0' <= s[0] <= '9' && s[|s| - 1] != '.'
  {
    var m := Versions.MarkerFrom(s, 0);
    DottedEnds(s, 0, m);
  }

  lemma {:induction false} DottedEnds(s: string, lo: nat, hi: nat)
    requires Versions.Range(s, lo, hi) && Versions.NumericDotted(s, lo, hi)
    ensures lo < hi && '0' <= s[lo] <= '9' && '0' <= s[hi - 1] <= '9'
    decreases hi - lo
  {
    var n := Versions.SegmentEnd(s, lo, hi);
    if n < hi {
      DottedEnds(s, n + 1, hi);
    }
  }

  /** Every field of a valid identity is a safe segment, so a staging prefix can always be built. */
  lemma IdentityIsSafe(id: Identity)
    requires ValidIdentity(id)
    ensures SafeSegment(id.component) && SafeSegment(id.tool) && SafeSegment(id.target) && SafeSegment(id.version)
  {
    hide SafeSegment, Versions.IsVersion, StateDocument.Word, StateDocument.VersionChars;
    StateDocument.IdentityIsPlain(id);
    ComponentIsNoAlias(id.component);
    ComponentIsNoAlias(id.target);
    var i :| 0 <= i < |TOOLS| && TOOLS[i] == (id.component, id.tool);
    ToolIsNoAlias(i);
    SafeByWord(id.component);
    SafeByWord(id.tool);
    SafeByWord(id.target);
    VersionIsSafe(id.version);
  }

  /** A generated suffix: short enough and made of segment characters. */
  predicate SafeSuffix(s: string) {
    0 < |s| < 64 && s[|s| - 1] != '.' && forall i :: 0 <= i < |s| ==> SegmentChar(s[i])
  }

  /** Every name that staging generates for a valid identity is accepted by begin and by the loader. */
  lemma GeneratedNameIsValid(operation: Operation, id: Identity, suffix: string)
    requires ValidIdentity(id) && SafeSuffix(suffix)
    ensures ValidTransaction(Transaction(operation, id, StagingPrefix(operation, id) + ("-" + suffix)))
  {
    hide SafeSegment, Versions.IsVersion, StateDocument.Word, StateDocument.VersionChars, StagingPrefix;
    var prefix := StagingPrefix(operation, id);
    var name := prefix + ("-" + suffix);
    IdentityIsSafe(id);
    StateDocument.IdentityIsPlain(id);
    PrefixIsPlain(operation, id);
    assert name[..|prefix|] == prefix && name[|prefix|] == '-';
    assert forall i :: |prefix| < i < |name| ==> name[i] == suffix[i - |prefix| - 1];
    SafeByHead(name);
  }

  lemma PrefixIsPlain(operation: Operation, id: Identity)
    requires StateDocument.Word(id.component) && StateDocument.Word(id.tool)
    requires StateDocument.Word(id.target) && StateDocument.VersionChars(id.version)
    ensures var p := StagingPrefix(operation, id);
            0 < |p| < 128 && (p[0] == 'i' || p[0] == 'r') && forall i :: 0 <= i < |p| ==> SegmentChar(p[i])
  {
    var name := OperationName(operation);
    assert forall i :: 0 <= i < |name| ==> SegmentChar(name[i]);
    PlainJoin(id.target, id.version);
    PlainJoin(id.tool, id.target + ("-" + id.version));
    PlainJoin(id.component, id.tool + ("-" + (id.target + ("-" + id.version))));
    PlainJoin(name, id.component + ("-" + (id.tool + ("-" + (id.target + ("-" + id.version))))));
  }

  lemma PlainJoin(a: string, b: string)
    requires (forall i :: 0 <= i < |a| ==> SegmentChar(a[i])) && forall i :: 0 <= i < |b| ==> SegmentChar(b[i])
    ensures forall i :: 0 <= i < |a + ("-" + b)| ==> SegmentChar((a + ("-" + b))[i])
    ensures a != "" ==> (a + ("-" + b))[0] == a[0]
  {}

  /** A concrete journal outside the documented format: its first line is a comment. */
  lemma CommentedJournalLoads()
    ensures var t := Transaction(Install,
              Identity("linker", "ld", "linux-x64", "linux-x64", "1"), "install-linker-ld-linux-x64-1-a");
            ValidTransaction(t) && Load(Document("#", t), "linux-x64") == Some(t) && Document("#", t) != Render(t)
  {
    var id := Identity("linker", "ld", "linux-x64", "linux-x64", "1");
    OneIsVersion();
    assert ValidIdentity(id) by {
      assert COMPONENTS[2] == "linker" && PLATFORMS[0] == "linux-x64" && TOOLS[5] == ("linker", "ld");
    }
    hide ValidIdentity, Load, Render, Document, TemporaryNameIsValid, StagingPrefix;
    GeneratedNameIsValid(Install, id, "a");
    LinkerName(id);
    FormatLineMayBeAComment(Transaction(Install, id, "install-linker-ld-linux-x64-1-a"));
  }

  lemma OneIsVersion()
    ensures Versions.IsVersion("1")
  {
    assert Versions.MarkerFrom("1", 0) == 1;
    assert Versions.NumericDotted("1", 0, 1);
  }

  lemma LinkerName(id: Identity)
    requires id == Identity("linker", "ld", "linux-x64", "linux-x64", "1")
    ensures StagingPrefix(Install, id) + ("-" + "a") == "install-linker-ld-linux-x64-1-a"
  {}

  // ---- The operations ----

  /** What one call of the line reader contributes. */
  lemma {:induction false} ReadSkips(lines: seq<string>, k: nat, c: seq<string>)
    requires |c| == |KEYS| && k <= |lines|
    ensures match NextLine(lines[k..], MAX_METADATA_LINE_LEN)
            case End => ReadFrom(lines, k, c) == if |lines| == |KEYS| then Some(c) else None
            case TooLong => ReadFrom(lines, k, c) == None
            case Line(text, rest) =>
              var m := |lines| - |rest| - 1;
              var f := ParseField(text, MAX_JOURNAL_KEY_LEN, MAX_PATH_LEN);
              ReadFrom(lines, k, c)
                == if m >= |KEYS| || f.None? || f.value.key != KEYS[m] || !Accepts(m, f.value.value) then None
                   else ReadFrom(lines, m + 1, c[m := f.value.value])
    decreases |lines| - k
  {
    hide HasContent, Trim, ParseField, Accepts, ReadValue, ReadFrom, NextLine;
    ReadOne(lines, k, c);
    if k < |lines| && |lines[k]| < MAX_METADATA_LINE_LEN && !HasContent(lines[k]) {
      ReadSkips(lines, k + 1, c);
    }
  }

  /** The first step of both readers at line `k`. */
  lemma ReadOne(lines: seq<string>, k: nat, c: seq<string>)
    requires |c| == |KEYS| && k <= |lines|
    ensures k == |lines| ==>
              && NextLine(lines[k..], MAX_METADATA_LINE_LEN) == End
              && ReadFrom(lines, k, c) == if |lines| == |KEYS| then Some(c) else None
    ensures k < |lines| && |lines[k]| >= MAX_METADATA_LINE_LEN ==>
              NextLine(lines[k..], MAX_METADATA_LINE_LEN) == TooLong && ReadFrom(lines, k, c) == None
    ensures k < |lines| && |lines[k]| < MAX_METADATA_LINE_LEN && !HasContent(lines[k]) ==>
              && NextLine(lines[k..], MAX_METADATA_LINE_LEN) == NextLine(lines[k + 1..], MAX_METADATA_LINE_LEN)
              && ReadFrom(lines, k, c) == ReadFrom(lines, k + 1, c)
    ensures k < |lines| && |lines[k]| < MAX_METADATA_LINE_LEN && HasContent(lines[k]) ==>
              && NextLine(lines[k..], MAX_METADATA_LINE_LEN) == Line(Trim(lines[k]), lines[k + 1..])
              && var f := ParseField(Trim(lines[k]), MAX_JOURNAL_KEY_LEN, MAX_PATH_LEN);
                 ReadFrom(lines, k, c)
                   == if k >= |KEYS| || f.None? || f.value.key != KEYS[k] || !Accepts(k, f.value.value) then None
                      else ReadFrom(lines, k + 1, c[k := f.value.value])
  {
    hide HasContent, Trim, ParseField, Accepts;
    if k < |lines| {
      assert lines[k..][0] == lines[k] && lines[k..][1..] == lines[k + 1..];
      if k < |KEYS| {
        assert c[k := c[k]] == c;
      }
    }
  }

  /** `package_transaction_load` on a present journal. */
  method LoadTransaction(data: string, host: string) returns (r: Option<Transaction>)
    ensures r == Load(data, host)
  {
    hide LinesFrom, IsDocument, ReadFrom, Finish, ParseField, Accepts, NextLine;
    if |data| > MAX_RUNTIME_JOURNAL_BYTES {
      return None;
    }
    for i := 0 to |data|
      invariant forall k :: 0 <= k < i ==> data[k] != ' '
    {
      if data[i] == ' ' {
        assert HasSpace(data);
        return None;
      }
    }
    if !IsDocument(data) {
      return None;
    }
    var reader := new DocumentReader(data);
    var candidate := NO_VALUES;
    ghost var lines := reader.Rest();
    while true
      invariant reader.Valid() && |candidate| == |KEYS|
      invariant reader.lineNumber <= |lines| && reader.Rest() == lines[reader.lineNumber..]
      invariant ReadFrom(lines, reader.lineNumber, candidate) == ReadFrom(lines, 0, NO_VALUES)
      decreases |reader.Rest()|
    {
      ReadSkips(lines, reader.lineNumber, candidate);
      var err, hasLine, line := reader.ReadLine(MAX_METADATA_LINE_LEN);
      if err != Ok {
        return None;
      }
      if !hasLine {
        break;
      }
      var field := ParseField(line, MAX_JOURNAL_KEY_LEN, MAX_PATH_LEN);
      var index := reader.lineNumber - 1;
      if field.None? || index >= |KEYS| || field.value.key != KEYS[index] || !Accepts(index, field.value.value) {
        return None;
      }
      candidate := candidate[index := field.value.value];
    }
    if reader.lineNumber != |KEYS| {
      return None;
    }
    return Finish(candidate, host);
  }

  /** `package_transaction_begin` up to publication. A journal is written only for a private path of
      the staging directory whose name matches the operation and the identity, and what is written
      loads back as that operation, identity and name. */
  method Begin(operation: Operation, package: Identity, stagingDir: string, temporaryPath: string)
    returns (err: CupError, t: Transaction, text: string)
    ensures err == InvalidInput <==>
              temporaryPath == "" || !ValidIdentity(package) || !SafeSegment(LastSegment(temporaryPath))
    ensures err == Ok <==>
              exists name :: temporaryPath == stagingDir + ("/" + name) && |temporaryPath| < MAX_PATH_LEN
                && ValidTransaction(Transaction(operation, package, name))
    ensures err == Ok ==>
              && t.operation == operation && t.package == package
              && temporaryPath == stagingDir + ("/" + t.temporaryName)
              && Load(text, package.host) == Some(t) && Detect(text) == Some(PackageJournal)
    ensures err in {Ok, InvalidInput, TransactionError}
  {
    hide ValidIdentity, SafeSegment, Load, Detect, LastIndexOf, StagingPrefix, Render;
    var name := LastSegment(temporaryPath);
    t, text := Transaction(operation, package, name), "";
    forall n | temporaryPath == stagingDir + ("/" + n) && SafeSegment(n) ensures n == name {
      NoSlash(n);
      LastOfJoined(stagingDir, n);
    }
    if temporaryPath == "" || !ValidIdentity(package) || !SafeSegment(name) {
      return InvalidInput, t, text;
    }
    if !TemporaryNameIsValid(t) {
      return TransactionError, t, text;
    }
    var expected := stagingDir + ("/" + name);
    if |expected| >= MAX_PATH_LEN || temporaryPath != expected {
      return TransactionError, t, text;
    }
    text := Render(t);
    RoundTrip(t);
    return Ok, t, text;
  }

  lemma NoSlash(name: string)
    requires SafeSegment(name)
    ensures forall i :: 0 <= i < |name| ==> name[i] != '/'
  {}
}
