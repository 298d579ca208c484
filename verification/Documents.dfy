/** Line-oriented persistent text: printable lines, each ended by a line feed. */
module Documents {
  import opened Text
  import opened Domain

  predicate Printable(c: char) { ' ' <= c <= '~' }

  /** What the document reader accepts as text at all. */
  predicate IsDocument(data: string) {
    && |data| > 0 && data[|data| - 1] == '\n'
    && forall i :: 0 <= i < |data| ==> Printable(data[i]) || data[i] == '\n'
  }

  /** A line as a writer produces it. */
  predicate IsLine(line: string) {
    forall i :: 0 <= i < |line| ==> Printable(line[i])
  }

  function LinesFrom(data: string, from: nat): (lines: seq<string>)
    requires from <= |data| && (from < |data| ==> data[|data| - 1] == '\n')
    decreases |data| - from
  {
    if from == |data| then []
    else
      var n := IndexFrom(data, '\n', from);
      [data[from..n]] + LinesFrom(data, n + 1)
  }

  function Flatten(lines: seq<string>): string {
    if lines == [] then "" else lines[0] + ("\n" + Flatten(lines[1..]))
  }

  lemma FirstLine(data: string, from: nat)
    requires from < |data| && data[|data| - 1] == '\n'
    ensures var n := IndexFrom(data, '\n', from);
            n < |data| && LinesFrom(data, from) == [data[from..n]] + LinesFrom(data, n + 1)
            && data[from..] == data[from..n] + ("\n" + data[n + 1..])
  {
    LinesStep(data, from);
    hide IndexFrom, LinesFrom;
    SliceParts(data, from, IndexFrom(data, '\n', from));
  }

  lemma LinesStep(data: string, from: nat)
    requires from < |data| && data[|data| - 1] == '\n'
    ensures var n := IndexFrom(data, '\n', from);
            n < |data| && data[n] == '\n' && LinesFrom(data, from) == [data[from..n]] + LinesFrom(data, n + 1)
  {
    hide IndexFrom;
  }

  lemma SliceParts(data: string, from: nat, n: nat)
    requires from <= n < |data| && data[n] == '\n'
    ensures data[from..] == data[from..n] + ("\n" + data[n + 1..])
  {}

  /** The parts of a tail that is one line, a line feed and the rest. */
  lemma LineParts(data: string, from: nat, line: string, rest: string)
    requires from <= |data| && data[from..] == line + ("\n" + rest) && IsLine(line)
    ensures var n := from + |line|;
            n < |data| && data[n] == '\n' && data[from..n] == line && data[n + 1..] == rest
            && IndexFrom(data, '\n', from) == n
  {
    var n, tail := from + |line|, data[from..];
    assert data[n] == tail[|line|] == '\n';
    assert forall k :: from <= k < n ==> data[k] == tail[k - from] == line[k - from];
    IndexFromIs(data, from, n);
  }

  lemma {:induction false} IndexFromIs(data: string, from: nat, n: nat)
    requires from <= n < |data| && data[n] == '\n' && forall k :: from <= k < n ==> data[k] != '\n'
    ensures IndexFrom(data, '\n', from) == n
  {}

  /** Reading what was written gives the lines back. */
  lemma {:induction false} LinesOfFlatten(data: string, from: nat, lines: seq<string>)
    requires from <= |data| && data[from..] == Flatten(lines)
    requires forall i :: 0 <= i < |lines| ==> IsLine(lines[i])
    ensures (from < |data| ==> data[|data| - 1] == '\n') && LinesFrom(data, from) == lines
    decreases |lines|
  {
    if lines == [] {
      assert |data[from..]| == 0;
    } else {
      var head, rest := lines[0], lines[1..];
      hide Flatten, LinesFrom, IndexFrom, IsLine;
      assert lines == [head] + rest;
      FlattenCons(head, rest);
      LineParts(data, from, head, Flatten(rest));
      LinesOfFlatten(data, from + |head| + 1, rest);
      FirstLine(data, from);
    }
  }

  lemma FlattenCons(head: string, rest: seq<string>)
    ensures Flatten([head] + rest) == head + ("\n" + Flatten(rest))
  {
    assert ([head] + rest)[1..] == rest;
  }

  /** Writing the lines that were read gives the document back. */
  lemma {:induction false} FlattenOfLines(data: string, from: nat)
    requires from <= |data| && (from < |data| ==> data[|data| - 1] == '\n')
    ensures Flatten(LinesFrom(data, from)) == data[from..]
    decreases |data| - from
  {
    if from < |data| {
      FirstLine(data, from);
      hide LinesFrom, IndexFrom, Flatten;
      var n := IndexFrom(data, '\n', from);
      var head, rest := data[from..n], LinesFrom(data, n + 1);
      FlattenOfLines(data, n + 1);
      FlattenCons(head, rest);
    }
  }

  lemma {:induction false} FlattenIsDocument(lines: seq<string>)
    requires forall i :: 0 <= i < |lines| ==> IsLine(lines[i])
    ensures lines != [] ==> IsDocument(Flatten(lines))
    ensures lines == [] ==> Flatten(lines) == ""
    decreases |lines|
  {
    if lines != [] {
      FlattenIsDocument(lines[1..]);
      var a, b := lines[0], "\n" + Flatten(lines[1..]);
      assert Flatten(lines) == a + b;
    }
  }

  lemma {:induction false} FlattenAppend(a: seq<string>, b: seq<string>)
    ensures Flatten(a + b) == Flatten(a) + Flatten(b)
    decreases |a|
  {
    if a == [] {
      assert a + b == b;
    } else {
      FlattenAppend(a[1..], b);
      assert (a + b)[1..] == a[1..] + b;
    }
  }

  predicate Blank(c: char) { c == ' ' || c == '\t' }

  /** `text_trim`: blanks and tabs at both ends. */
  function Trim(s: string): string {
    TrimEnd(TrimStart(s))
  }

  function TrimStart(s: string): string {
    if s != "" && Blank(s[0]) then TrimStart(s[1..]) else s
  }

  function TrimEnd(s: string): string {
    if s != "" && Blank(s[|s| - 1]) then TrimEnd(s[..|s| - 1]) else s
  }

  lemma TrimNothing(s: string)
    requires s != "" ==> !Blank(s[0]) && !Blank(s[|s| - 1])
    ensures Trim(s) == s
  {}

  /** Trimming takes blanks away at both ends, and all there are. */
  lemma TrimIs(s: string) returns (i: nat, j: nat)
    ensures i <= j <= |s| && Trim(s) == s[i..j]
    ensures (forall k :: 0 <= k < i || j <= k < |s| ==> s[k] == ' ' || s[k] == '\t')
    ensures i < j ==> s[i] != ' ' && s[i] != '\t' && s[j - 1] != ' ' && s[j - 1] != '\t'
  {
    i := StartIs(s);
    var n := EndIs(s[i..]);
    j := i + n;
    assert s[i..][..n] == s[i..j];
    forall k | j <= k < |s| ensures s[k] == ' ' || s[k] == '\t' {
      assert s[i..][k - i] == s[k];
    }
  }

  lemma {:induction false} StartIs(s: string) returns (i: nat)
    ensures i <= |s| && TrimStart(s) == s[i..] && forall k :: 0 <= k < i ==> Blank(s[k])
    ensures i < |s| ==> !Blank(s[i])
  {
    i := 0;
    if s != "" && Blank(s[0]) {
      var n := StartIs(s[1..]);
      i := n + 1;
      assert s[1..][n..] == s[i..];
      forall k | 0 <= k < i ensures Blank(s[k]) {
        assert k > 0 ==> s[1..][k - 1] == s[k];
      }
    }
  }

  lemma {:induction false} EndIs(s: string) returns (j: nat)
    ensures j <= |s| && TrimEnd(s) == s[..j] && forall k :: j <= k < |s| ==> Blank(s[k])
    ensures 0 < j ==> !Blank(s[j - 1])
    decreases |s|
  {
    j := |s|;
    if s != "" && Blank(s[|s| - 1]) {
      j := EndIs(s[..|s| - 1]);
      assert s[..|s| - 1][..j] == s[..j];
      forall k | j <= k < |s| ensures Blank(s[k]) {
        assert k < |s| - 1 ==> s[..|s| - 1][k] == s[k];
      }
    }
  }

  datatype Field = Field(key: string, value: string)

  /** `text_parse_key_value`: split at the first equals sign; both sides nonempty after trimming and
      within their buffers. */
  function ParseField(line: string, keySize: nat, valueSize: nat): Option<Field> {
    var n := IndexOf(line, '=');
    if n == |line| then None
    else
      var key, value := Trim(line[..n]), Trim(line[n + 1..]);
      if key == "" || value == "" || |key| >= keySize || |value| >= valueSize then None
      else Some(Field(key, value))
  }

  /** A line written as key, equals sign and value is read as that key and value. */
  lemma FieldOfWritten(key: string, value: string, keySize: nat, valueSize: nat)
    requires 0 < |key| < keySize && 0 < |value| < valueSize
    requires forall i :: 0 <= i < |key| ==> key[i] != '=' && !Blank(key[i])
    requires forall i :: 0 <= i < |value| ==> !Blank(value[i])
    ensures ParseField(key + ("=" + value), keySize, valueSize) == Some(Field(key, value))
  {
    var line := key + ("=" + value);
    assert forall k :: 0 <= k < |key| ==> line[k] == key[k];
    IndexOfUnique(line, '=', |key|);
    assert line[..|key|] == key && line[|key| + 1..] == value;
    TrimNothing(key);
    TrimNothing(value);
  }

  // ---- The reader ----

  /** Lines that are blank or start with a number sign after trimming are skipped. */
  predicate HasContent(line: string) {
    Trim(line) != "" && Trim(line)[0] != '#'
  }

  datatype Next = End | TooLong | Line(text: string, rest: seq<string>)

  /** The next line with content, trimmed, unless a line before it overruns the buffer. */
  function NextLine(lines: seq<string>, size: nat): (r: Next)
    ensures r.Line? ==>
              |r.rest| < |lines| && r.rest == lines[|lines| - |r.rest|..] && HasContent(r.text) && |r.text| < size
  {
    hide Trim;
    if lines == [] then End
    else if |lines[0]| >= size then TooLong
    else if HasContent(lines[0]) then
      TrimOfTrim(lines[0]);
      Line(Trim(lines[0]), lines[1..])
    else NextLine(lines[1..], size)
  }

  lemma {:induction false} TrimStartStarts(s: string)
    ensures |TrimStart(s)| <= |s| && (TrimStart(s) != "" ==> !Blank(TrimStart(s)[0]))
  {
    if s != "" {
      TrimStartStarts(s[1..]);
    }
  }

  lemma {:induction false} TrimEndEnds(s: string)
    ensures |TrimEnd(s)| <= |s| && TrimEnd(s) == s[..|TrimEnd(s)|]
    ensures TrimEnd(s) != "" ==> !Blank(TrimEnd(s)[|TrimEnd(s)| - 1])
  {
    if s != "" {
      TrimEndEnds(s[..|s| - 1]);
    }
  }

  /** Trimming twice is trimming once, and never lengthens. */
  lemma TrimOfTrim(s: string)
    ensures Trim(Trim(s)) == Trim(s) && |Trim(s)| <= |s|
  {
    TrimStartStarts(s);
    TrimEndEnds(TrimStart(s));
    TrimNothing(Trim(s));
  }

  class DocumentReader {
    const data: string
    var offset: nat
    var lineNumber: nat

    ghost predicate Valid()
      reads this
    {
      IsDocument(data) && offset <= |data|
    }

    /** The lines not yet read. */
    ghost function Rest(): seq<string>
      requires Valid()
      reads this
    {
      LinesFrom(data, offset)
    }

    constructor (data: string)
      requires IsDocument(data)
      ensures Valid() && this.data == data && Rest() == LinesFrom(data, 0) && lineNumber == 0
    {
      this.data, offset, lineNumber := data, 0, 0;
    }

    method ReadRawLine(size: nat) returns (err: CupError, hasLine: bool, line: string)
      requires Valid() && size >= 2
      modifies this
      ensures Valid()
      ensures old(Rest()) == [] ==> err == Ok && !hasLine && Rest() == [] && lineNumber == old(lineNumber)
      ensures old(Rest()) != [] ==> Rest() == old(Rest())[1..] && lineNumber == old(lineNumber) + 1
      ensures old(Rest()) != [] ==>
                if |old(Rest())[0]| >= size then err == BufferTooSmall && !hasLine
                else err == Ok && hasLine && line == old(Rest())[0]
    {
      if offset >= |data| {
        return Ok, false, "";
      }
      var start := offset;
      FirstLine(data, start);
      hide LinesFrom, IsDocument, IndexFrom;
      ScanToLineFeed();
      var length := offset - start;
      offset := offset + 1;
      lineNumber := lineNumber + 1;
      if length >= size {
        return BufferTooSmall, false, "";
      }
      return Ok, true, data[start..start + length];
    }

    /** Advances to the end of the current line. */
    method ScanToLineFeed()
      requires offset <= |data|
      modifies this`offset
      ensures offset == IndexFrom(data, '\n', old(offset))
    {
      ghost var start := offset;
      while offset < |data| && data[offset] != '\n'
        invariant start <= offset <= |data|
        invariant IndexFrom(data, '\n', offset) == IndexFrom(data, '\n', start)
      {
        offset := offset + 1;
      }
    }

    method ReadLine(size: nat) returns (err: CupError, hasLine: bool, line: string)
      requires Valid() && size >= 2
      modifies this
      ensures Valid() && |Rest()| <= |old(Rest())| && lineNumber + |Rest()| == old(lineNumber + |Rest()|)
      ensures match NextLine(old(Rest()), size)
              case End => err == Ok && !hasLine && Rest() == []
              case TooLong => err == BufferTooSmall
              case Line(text, rest) => err == Ok && hasLine && line == text && Rest() == rest
    {
      hide LinesFrom, Trim, IsDocument;
      while true
        invariant Valid() && NextLine(Rest(), size) == NextLine(old(Rest()), size)
        invariant |Rest()| <= |old(Rest())| && lineNumber + |Rest()| == old(lineNumber + |Rest()|)
        decreases |Rest()|
      {
        var err, hasLine, raw := ReadRawLine(size);
        if err != Ok || !hasLine {
          return err, false, "";
        }
        var trimmed := Trim(raw);
        if trimmed != "" && trimmed[0] != '#' {
          return Ok, true, trimmed;
        }
      }
    }
  }
}
