/** What a state file that loads must say: up to blanks and skipped lines, just the text of the records. */
module StateReadings {
  import opened Text
  import opened Domain
  import opened States
  import opened Documents
  import opened StateDocument
  import opened StateFiles
  import Versions

  /** A text without its blanks. */
  function Squeeze(s: string): string {
    if s == "" then "" else (if Blank(s[0]) then "" else [s[0]]) + Squeeze(s[1..])
  }

  lemma {:induction false} SqueezeAppend(a: string, b: string)
    ensures Squeeze(a + b) == Squeeze(a) + Squeeze(b)
    decreases |a|
  {
    if a == "" {
      assert a + b == b;
    } else {
      var first, rest := if Blank(a[0]) then "" else [a[0]], a[1..];
      SqueezeAppend(rest, b);
      assert (a + b)[1..] == rest + b && (a + b)[0] == a[0];
      assert Squeeze(a) == first + Squeeze(rest) && Squeeze(a + b) == first + Squeeze(rest + b);
    }
  }

  lemma {:induction false} SqueezeNothing(s: string)
    requires forall i :: 0 <= i < |s| ==> !Blank(s[i])
    ensures Squeeze(s) == s
  {
    if s != "" {
      SqueezeNothing(s[1..]);
    }
  }

  lemma {:induction false} SqueezeStart(s: string)
    ensures Squeeze(TrimStart(s)) == Squeeze(s)
  {
    if s != "" && Blank(s[0]) {
      SqueezeStart(s[1..]);
    }
  }

  lemma {:induction false} SqueezeEnd(s: string)
    ensures Squeeze(TrimEnd(s)) == Squeeze(s)
    decreases |s|
  {
    if s != "" && Blank(s[|s| - 1]) {
      var front, last := s[..|s| - 1], s[|s| - 1..];
      SqueezeEnd(front);
      assert s == front + last && last == [s[|s| - 1]] && last[1..] == "";
      SqueezeAppend(front, last);
    }
  }

  lemma SqueezeTrim(s: string)
    ensures Squeeze(Trim(s)) == Squeeze(s)
  {
    SqueezeStart(s);
    SqueezeEnd(TrimStart(s));
  }

  /** Two texts around a separator. */
  lemma SqueezeSplit(s: string, n: nat)
    requires n < |s| && !Blank(s[n])
    ensures Squeeze(s) == Squeeze(s[..n]) + ([s[n]] + Squeeze(s[n + 1..]))
  {
    var rest := s[n..];
    assert s == s[..n] + rest && rest[1..] == s[n + 1..];
    SqueezeAppend(s[..n], rest);
  }

  lemma PlainWords(id: Identity)
    requires ValidIdentity(id)
    ensures Squeeze(id.component) == id.component && Squeeze(id.target) == id.target
    ensures Squeeze(id.tool) == id.tool && Squeeze(id.version) == id.version
  {
    hide Word, VersionChars, ValidIdentity, Blank, Printable, Squeeze;
    IdentityIsPlain(id);
    WordHasNoBlank(id.component);
    WordHasNoBlank(id.target);
    WordHasNoBlank(id.tool);
    WordHasNoBlank(id.version);
    SqueezeNothing(id.component);
    SqueezeNothing(id.target);
    SqueezeNothing(id.tool);
    SqueezeNothing(id.version);
  }

  lemma PairIsWritten(s: string, a: string, b: string, firstSize: nat, secondSize: nat)
    requires SplitPair(s, '.', firstSize, secondSize) == Some((a, b))
    ensures Squeeze(s) == Squeeze(a) + ("." + Squeeze(b))
  {
    hide Trim, Squeeze;
    var n := IndexOf(s, '.');
    SqueezeSplit(s, n);
    SqueezeTrim(s[..n]);
    SqueezeTrim(s[n + 1..]);
  }

  lemma SelectorIsWritten(s: string, a: string, b: string)
    requires SplitSelector(s) == Some((a, b))
    ensures Squeeze(s) == Squeeze(a) + ("@" + Squeeze(b))
  {
    hide Squeeze;
    SqueezeSplit(s, IndexOf(s, '@'));
  }

  lemma FieldIsWritten(line: string, keySize: nat, valueSize: nat, f: Field)
    requires ParseField(line, keySize, valueSize) == Some(f)
    ensures Squeeze(line) == Squeeze(f.key) + ("=" + Squeeze(f.value))
  {
    hide Trim, Squeeze;
    var n := IndexOf(line, '=');
    SqueezeSplit(line, n);
    SqueezeTrim(line[..n]);
    SqueezeTrim(line[n + 1..]);
  }

  lemma KindIsWritten(key: string, isDefault: bool)
    requires if isDefault then "default." <= key else "installed." <= key
    ensures Squeeze(key) == KindName(isDefault) + ("." + Squeeze(key[if isDefault then 8 else 10..]))
  {
    hide Squeeze;
    if isDefault {
      var prefix := "default.";
      PrefixIsWritten(7, key, prefix[..7]);
      assert key[..7] == prefix[..7] == "default" && key[7] == prefix[7];
    } else {
      var prefix := "installed.";
      PrefixIsWritten(9, key, prefix[..9]);
      assert key[..9] == prefix[..9] == "installed" && key[9] == prefix[9];
    }
  }

  lemma PrefixIsWritten(n: nat, key: string, kind: string)
    requires forall i :: 0 <= i < |kind| ==> !Blank(kind[i])
    ensures n < |key| && key[n] == '.' && key[..n] == kind ==> Squeeze(key) == kind + ("." + Squeeze(key[n + 1..]))
  {
    hide Squeeze;
    SqueezeNothing(kind);
    if n < |key| && key[n] == '.' {
      SqueezeSplit(key, n);
    }
  }

  /** A line is read as a record only if it is the text of that record, up to blanks. */
  lemma ParsedIsRecord(line: string, host: string, e: Entry)
    requires ParseRecord(line, host) == Some(e)
    ensures ValidIdentity(e.id) && e.id.host == host && Squeeze(line) == Record(e.isDefault, e.id)
  {
    hide Squeeze, ValidIdentity, ParseField, SplitPair, SplitSelector, KindName;
    var f := ParseField(line, MAX_STATE_LINE_LEN, MAX_SELECTOR_LEN).value;
    FieldIsWritten(line, MAX_STATE_LINE_LEN, MAX_SELECTOR_LEN, f);
    KindIsWritten(f.key, e.isDefault);
    PairIsWritten(f.key[if e.isDefault then 8 else 10..], e.id.component, e.id.target,
                  Versions.MAX_IDENTIFIER_LEN, MAX_PLATFORM_LEN);
    SelectorIsWritten(f.value, e.id.tool, e.id.version);
    PlainWords(e.id);
    var scope, selector := ScopeText(e.id), SelectorText(e.id);
    assert Squeeze(f.key) == KindName(e.isDefault) + ("." + scope) && Squeeze(f.value) == selector;
  }

  /** The text of a record, spelled out. */
  lemma RecordSays(isDefault: bool, id: Identity)
    ensures Record(isDefault, id)
         == (if isDefault then "default." else "installed.")
            + id.component + "." + id.target + "=" + id.tool + "@" + id.version
  {
    var dotted := if isDefault then "default." else "installed.";
    assert KindName(isDefault) + "." == dotted;
    hide KindName;
    JoinedFlat(KindName(isDefault), id.component, id.target, id.tool, id.version);
  }

  lemma JoinedFlat(kind: string, a: string, b: string, c: string, d: string)
    ensures kind + ("." + (a + ("." + b))) + ("=" + (c + ("@" + d)))
         == (kind + ".") + a + "." + b + "=" + c + "@" + d
  {}

  // ---- The whole file ----

  /** What the lines with content say. */
  function Texts(lines: seq<string>): seq<string> {
    if lines == [] then []
    else (if HasContent(lines[0]) then [Squeeze(lines[0])] else []) + Texts(lines[1..])
  }

  function RecordsOf(es: seq<Entry>): (r: seq<string>)
    ensures |r| == |es| && forall i :: 0 <= i < |r| ==> r[i] == Record(es[i].isDefault, es[i].id)
  {
    seq(|es|, i requires 0 <= i < |es| => Record(es[i].isDefault, es[i].id))
  }

  /** The identities of one kind of record, in order. */
  function Kind(es: seq<Entry>, isDefault: bool): seq<Identity> {
    if es == [] then []
    else (if es[0].isDefault == isDefault then [es[0].id] else []) + Kind(es[1..], isDefault)
  }

  lemma {:induction false} NextLineReads(lines: seq<string>, size: nat)
    ensures match NextLine(lines, size)
            case End => Texts(lines) == []
            case TooLong => true
            case Line(text, rest) => Texts(lines) == [Squeeze(text)] + Texts(rest)
    decreases |lines|
  {
    hide Trim, Squeeze;
    if lines != [] && |lines[0]| < size {
      if HasContent(lines[0]) {
        SqueezeTrim(lines[0]);
      } else {
        NextLineReads(lines[1..], size);
      }
    }
  }

  /** The lines after the format line are records, and the lists are theirs. */
  lemma {:induction false} LinesRead(lines: seq<string>, host: string, l: Lists) returns (es: seq<Entry>)
    requires LoadLines(lines, host, l).Some?
    ensures Texts(lines) == RecordsOf(es)
    ensures LoadLines(lines, host, l).value
         == Lists(l.installed + Kind(es, false), l.defaults + Kind(es, true))
    decreases |lines|
  {
    hide ParseRecord, Record, Squeeze, Texts, ScopeTaken;
    NextLineReads(lines, MAX_STATE_LINE_LEN);
    match NextLine(lines, MAX_STATE_LINE_LEN) {
      case End =>
        es := [];
        assert l.installed + [] == l.installed && l.defaults + [] == l.defaults;
      case Line(text, rest) =>
        var e := ParseRecord(text, host).value;
        ParsedIsRecord(text, host, e);
        var next := AddEntry(l, e).value;
        var tail := LinesRead(rest, host, next);
        es := [e] + tail;
        KindFirst(e, tail);
        assert RecordsOf(es) == [Record(e.isDefault, e.id)] + RecordsOf(tail);
        Added(l, e, tail);
    }
  }

  lemma KindFirst(e: Entry, rest: seq<Entry>)
    ensures forall kind :: Kind([e] + rest, kind) == (if e.isDefault == kind then [e.id] else []) + Kind(rest, kind)
  {
    assert ([e] + rest)[1..] == rest;
  }

  lemma Added(l: Lists, e: Entry, tail: seq<Entry>)
    requires AddEntry(l, e).Some?
    ensures var next := AddEntry(l, e).value;
            Lists(next.installed + Kind(tail, false), next.defaults + Kind(tail, true))
            == Lists(l.installed + Kind([e] + tail, false), l.defaults + Kind([e] + tail, true))
  {
    hide ScopeTaken, Kind;
    KindFirst(e, tail);
    var next := AddEntry(l, e).value;
    if e.isDefault {
      assert [] + Kind(tail, false) == Kind(tail, false);
      assert next.defaults + Kind(tail, true) == l.defaults + ([e.id] + Kind(tail, true));
    } else {
      assert [] + Kind(tail, true) == Kind(tail, true);
      assert next.installed + Kind(tail, false) == l.installed + ([e.id] + Kind(tail, false));
    }
  }

  /** A state file that loads is a document that says its format and then, up to blanks and lines without
      content, just the records of the loaded lists, each list in order; and these lists are valid. */
  lemma LoadedIsWritten(data: string, host: string, l: Lists) returns (es: seq<Entry>)
    requires Load(data, host) == Loaded(l)
    ensures |data| <= MAX_STATE_FILE_BYTES && IsDocument(data)
    ensures Texts(LinesFrom(data, 0)) == ["format=2"] + RecordsOf(es)
    ensures l.installed == Kind(es, false) && l.defaults == Kind(es, true)
    ensures ValidLists(l.installed, l.defaults) && forall i :: 0 <= i < |l.installed| ==> l.installed[i].host == host
  {
    hide Texts, ParseRecord, Record, LinesFrom, ValidLists, LoadLines;
    var lines := LinesFrom(data, 0);
    NextLineReads(lines, MAX_STATE_LINE_LEN);
    var rest := NextLine(lines, MAX_STATE_LINE_LEN).rest;
    es := LinesRead(rest, host, Lists([], []));
    SqueezeNothing(HEADER);
    assert [] + Kind(es, false) == Kind(es, false) && [] + Kind(es, true) == Kind(es, true);
    OfOneHost(rest, host, Lists([], []));
  }

  lemma {:induction false} OfOneHost(lines: seq<string>, host: string, l: Lists)
    requires LoadLines(lines, host, l).Some? && forall i :: 0 <= i < |l.installed| ==> l.installed[i].host == host
    ensures forall i :: 0 <= i < |LoadLines(lines, host, l).value.installed| ==>
              LoadLines(lines, host, l).value.installed[i].host == host
    decreases |lines|
  {
    hide ParseRecord, Record, ScopeTaken;
    match NextLine(lines, MAX_STATE_LINE_LEN) {
      case End =>
      case Line(text, rest) =>
        var e := ParseRecord(text, host).value;
        ParsedIsRecord(text, host, e);
        OfOneHost(rest, host, AddEntry(l, e).value);
    }
  }
}
