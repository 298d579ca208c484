/** The case-folded table of archive paths: which entry sequences an extraction accepts. */
module PathTables {
  import opened Text
  import opened Domain
  import opened Paths

  /** Bytes of a table record before its key, on a 64-bit host. */
  const RECORD_OVERHEAD: nat := 64

  datatype EntryType = DirectoryEntry | FileEntry | LinkEntry

  datatype Entry = Entry(path: string, kind: EntryType)

  datatype PathState = AncestorOnly | Explicit(kind: EntryType)

  function Key(e: Entry): string {
    Lower(e.path)
  }

  /** The proper ancestors of a key: what stands before each of its slashes. */
  function Prefixes(key: string): set<string> {
    set i | 0 <= i < |key| && key[i] == '/' :: key[..i]
  }

  // ---- What an accepted sequence is, whatever its order ----

  ghost function Closure(es: seq<Entry>): set<string> {
    (set e | e in es :: Key(e)) + (set e, p | e in es && p in Prefixes(Key(e)) :: p)
  }

  function RecordCost(key: string): nat {
    RECORD_OVERHEAD + |key| + 1
  }

  /** Bytes of a table with these keys. */
  ghost function Cost(keys: set<string>): nat {
    if keys == {} then 0
    else
      var k :| k in keys;
      RecordCost(k) + Cost(keys - {k})
  }

  predicate UsablePath(path: string) {
    path != "" && |path| < MAX_PATH_LEN
  }

  /** Case-folded explicit paths are distinct, no file or link is an ancestor of another path, and the
      table of all paths and ancestors fits its budget. */
  ghost predicate Legal(es: seq<Entry>) {
    && (forall e :: e in es ==> UsablePath(e.path))
    && (forall i, j :: 0 <= i < j < |es| ==> Key(es[i]) != Key(es[j]))
    && (forall e, f :: e in es && f in es && Key(e) in Prefixes(Key(f)) ==> e.kind == DirectoryEntry)
    && Cost(Closure(es)) <= MAX_PACKAGE_PATH_TABLE_BYTES
  }

  ghost function StateOf(es: seq<Entry>, key: string): PathState {
    if exists e :: e in es && Key(e) == key && e.kind == DirectoryEntry then Explicit(DirectoryEntry)
    else if exists e :: e in es && Key(e) == key && e.kind == FileEntry then Explicit(FileEntry)
    else if exists e :: e in es && Key(e) == key && e.kind == LinkEntry then Explicit(LinkEntry)
    else AncestorOnly
  }

  /** The table a legal sequence leaves. */
  ghost function TableOf(es: seq<Entry>): map<string, PathState> {
    map k | k in Closure(es) :: StateOf(es, k)
  }

  /** One path is a proper ancestor of another for the table exactly when it is one but for case. */
  lemma AncestorIff(e: Entry, f: Entry)
    ensures Key(e) in Prefixes(Key(f)) <==> AncestorButCase(e.path, f.path)
  {
    hide LowerChar, SameLetter;
    var a, b := e.path, f.path;
    forall i | 0 <= i < |b| ensures (Key(f)[i] == '/' <==> b[i] == '/') && Key(f)[..i] == Lower(b[..i]) {
      FoldsLetter(b[i], b[i]);
      assert forall k :: 0 <= k < i ==> Key(f)[..i][k] == Lower(b[..i])[k];
    }
    if |a| < |b| {
      FoldedEqualIff(a, b[..|a|]);
    }
  }

  /** What that is in terms of the paths themselves: no two differ in case alone, and what is an ancestor of
      another but for case is a directory. */
  lemma LegalIff(es: seq<Entry>)
    ensures Legal(es) <==>
              && (forall e :: e in es ==> e.path != "" && |e.path| < MAX_PATH_LEN)
              && (forall i, j :: 0 <= i < j < |es| ==> !SameButCase(es[i].path, es[j].path))
              && (forall e, f :: e in es && f in es && AncestorButCase(e.path, f.path) ==> e.kind == DirectoryEntry)
              && Cost(Closure(es)) <= MAX_PACKAGE_PATH_TABLE_BYTES
  {
    hide Prefixes, Closure, Cost, SameButCase, AncestorButCase, Lower;
    forall e, f ensures Key(e) in Prefixes(Key(f)) <==> AncestorButCase(e.path, f.path) {
      AncestorIff(e, f);
    }
    forall i, j | 0 <= i < j < |es| ensures Key(es[i]) == Key(es[j]) <==> SameButCase(es[i].path, es[j].path) {
      FoldedEqualIff(es[i].path, es[j].path);
    }
  }

  // ---- Costs ----

  lemma OneMoreTimes(n: nat, c: nat)
    ensures (n + 1) * c == n * c + c
  {}

  /** A record costs its overhead, its key and the terminator, so keys of bounded length have a bounded cost. */
  lemma {:induction false} CostBounds(keys: set<string>, longest: nat)
    requires forall k :: k in keys ==> |k| <= longest
    ensures |keys| * 65 <= Cost(keys) <= |keys| * (65 + longest)
    decreases |keys|
  {
    if keys != {} {
      var k :| k in keys && Cost(keys) == RecordCost(k) + Cost(keys - {k});
      var rest, n := keys - {k}, |keys|;
      CostBounds(rest, longest);
      assert |rest| == n - 1;
      assert RecordCost(k) == 65 + |k|;
      assert Cost(keys) == RecordCost(k) + Cost(rest);
      OneMoreTimes(n - 1, 65 + longest);
      assert n * (65 + longest) == (n - 1 + 1) * (65 + longest);
    }
  }

  lemma {:induction false} CostAdd(keys: set<string>, key: string)
    requires key !in keys
    ensures Cost(keys + {key}) == Cost(keys) + RecordCost(key)
    decreases |keys|
  {
    CostRemove(keys + {key}, key);
    assert keys + {key} - {key} == keys;
  }

  lemma {:induction false} CostRemove(keys: set<string>, key: string)
    requires key in keys
    ensures Cost(keys) == RecordCost(key) + Cost(keys - {key})
    decreases |keys|
  {
    var k :| k in keys && Cost(keys) == RecordCost(k) + Cost(keys - {k});
    if k != key {
      CostRemove(keys - {k}, key);
      CostRemove(keys - {key}, k);
      assert keys - {k} - {key} == keys - {key} - {k};
    }
  }

  lemma {:induction false} CostMonotone(a: set<string>, b: set<string>)
    requires a <= b
    ensures Cost(a) <= Cost(b)
    decreases |a|
  {
    if a != {} {
      var k :| k in a;
      CostRemove(a, k);
      CostRemove(b, k);
      CostMonotone(a - {k}, b - {k});
    }
  }

  // ---- Order does not matter ----

  lemma ClosureHas(es: seq<Entry>, k: string)
    ensures k in Closure(es) <==> exists e :: e in es && (Key(e) == k || k in Prefixes(Key(e)))
  {}

  lemma ClosureIgnoresOrder(a: seq<Entry>, b: seq<Entry>)
    requires forall e :: e in a <==> e in b
    ensures Closure(a) == Closure(b)
  {
    forall k ensures k in Closure(a) <==> k in Closure(b) {
      ClosureHas(a, k);
      ClosureHas(b, k);
    }
  }

  /** Keys of a reordering collide exactly when the keys of the original do. */
  lemma DistinctKeysIgnoreOrder(a: seq<Entry>, b: seq<Entry>)
    requires multiset(a) == multiset(b) && forall i, j :: 0 <= i < j < |a| ==> Key(a[i]) != Key(a[j])
    ensures forall i, j :: 0 <= i < j < |b| ==> Key(b[i]) != Key(b[j])
  {
    hide Key;
    forall i, j | 0 <= i < j < |a| ensures a[i] != a[j] {
      assert Key(a[i]) != Key(a[j]);
    }
    SameBag(a, b);
    forall i, j | 0 <= i < j < |b| ensures Key(b[i]) != Key(b[j]) {
      assert b[i] in b && b[j] in b;
      var m :| 0 <= m < |a| && a[m] == b[i];
      var n :| 0 <= n < |a| && a[n] == b[j];
      assert m < n || n < m;
    }
  }

  /** Any reordering of the entries gets the same verdict and leaves the same table. */
  lemma OrderDoesNotMatter(a: seq<Entry>, b: seq<Entry>)
    requires multiset(a) == multiset(b)
    ensures Legal(a) == Legal(b) && TableOf(a) == TableOf(b)
  {
    hide Key, Prefixes, Closure, Cost;
    SameBag(a, b);
    ClosureIgnoresOrder(a, b);
    if forall i, j :: 0 <= i < j < |a| ==> Key(a[i]) != Key(a[j]) {
      DistinctKeysIgnoreOrder(a, b);
    }
    if forall i, j :: 0 <= i < j < |b| ==> Key(b[i]) != Key(b[j]) {
      DistinctKeysIgnoreOrder(b, a);
    }
    forall k ensures StateOf(a, k) == StateOf(b, k) {
    }
  }

  // ---- One entry more ----

  lemma LegalPrefix(es: seq<Entry>, e: Entry)
    requires Legal(es + [e])
    ensures Legal(es)
  {
    hide Key, Prefixes, Cost;
    var longer := es + [e];
    forall i, j | 0 <= i < j < |es| ensures Key(es[i]) != Key(es[j]) {
      assert longer[i] == es[i] && longer[j] == es[j];
    }
    CostMonotone(Closure(es), Closure(longer));
  }

  lemma ClosureGrows(es: seq<Entry>, e: Entry)
    ensures Closure(es + [e]) == Closure(es) + {Key(e)} + Prefixes(Key(e))
  {
    forall k ensures k in Closure(es + [e]) <==> k in Closure(es) + {Key(e)} + Prefixes(Key(e)) {
      ClosureHas(es + [e], k);
      ClosureHas(es, k);
    }
  }

  /** The collisions a new entry may cause. */
  ghost predicate Collides(es: seq<Entry>, e: Entry) {
    || (exists f :: f in es && Key(f) == Key(e))
    || (exists f :: f in es && Key(e) in Prefixes(Key(f)) && e.kind != DirectoryEntry)
    || (exists f :: f in es && Key(f) in Prefixes(Key(e)) && f.kind != DirectoryEntry)
  }

  lemma NotOwnPrefix(key: string)
    ensures key !in Prefixes(key) && forall p :: p in Prefixes(key) ==> |p| < |key|
  {}

  /** A legal sequence stays legal exactly when the entry is usable, collides with nothing and fits. */
  lemma LegalStep(es: seq<Entry>, e: Entry)
    requires Legal(es)
    ensures Legal(es + [e]) <==>
              UsablePath(e.path) && !Collides(es, e) && Cost(Closure(es + [e])) <= MAX_PACKAGE_PATH_TABLE_BYTES
  {
    hide Key, Prefixes, Cost, Closure, UsablePath;
    var longer := es + [e];
    NotOwnPrefix(Key(e));
    assert longer[|es|] == e;
    forall f ensures f in longer <==> f in es || f == e {
    }
    assert forall i :: 0 <= i < |es| ==> longer[i] == es[i];
  }

  lemma StateStep(es: seq<Entry>, e: Entry, k: string)
    requires !Collides(es, e)
    ensures StateOf(es + [e], k) == if k == Key(e) then Explicit(e.kind) else StateOf(es, k)
  {
    hide Key, Prefixes;
    assert forall f :: f in es + [e] <==> f in es || f == e;
  }

  lemma StateMeaning(es: seq<Entry>, k: string)
    requires Legal(es)
    ensures StateOf(es, k) == AncestorOnly <==> forall e :: e in es ==> Key(e) != k
    ensures forall e :: e in es && Key(e) == k ==> StateOf(es, k) == Explicit(e.kind)
    ensures StateOf(es, k) != AncestorOnly ==> k in Closure(es)
  {
    hide Key, Prefixes, Cost;
    forall e, f | e in es && f in es && Key(e) == Key(f) ensures e == f {
      var i :| 0 <= i < |es| && es[i] == e;
      var j :| 0 <= j < |es| && es[j] == f;
      assert i < j || j < i || i == j;
    }
  }

  // ---- The table ----

  class PathTable {
    var paths: map<string, PathState>
    var allocatedBytes: nat

    constructor ()
      ensures paths == TableOf([]) && allocatedBytes == Cost(paths.Keys)
    {
      paths, allocatedBytes := map[], 0;
    }

    /** `path_table_add`. */
    method Add(key: string, state: PathState) returns (err: CupError)
      requires key !in paths && allocatedBytes == Cost(paths.Keys)
      modifies this
      ensures allocatedBytes == Cost(paths.Keys)
      ensures err == if old(Cost(paths.Keys + {key})) <= MAX_PACKAGE_PATH_TABLE_BYTES then Ok else ArchiveUnsafe
      ensures paths == if err == Ok then old(paths)[key := state] else old(paths)
    {
      var size := RECORD_OVERHEAD + |key| + 1;
      CostAdd(paths.Keys, key);
      assert paths[key := state].Keys == paths.Keys + {key};
      if size > MAX_PACKAGE_PATH_TABLE_BYTES - allocatedBytes {
        return ArchiveUnsafe;
      }
      paths := paths[key := state];
      allocatedBytes := allocatedBytes + size;
      return Ok;
    }

    /** No ancestor of the key is a file or a link. */
    method CheckAncestors(key: string) returns (ok: bool)
      ensures ok <==> forall p :: p in Prefixes(key) && p in paths ==>
                                    paths[p] != Explicit(FileEntry) && paths[p] != Explicit(LinkEntry)
    {
      var slash := IndexFrom(key, '/', 0);
      while slash < |key|
        invariant 0 <= slash <= |key| && (slash < |key| ==> key[slash] == '/')
        invariant forall i :: 0 <= i < slash && key[i] == '/' && key[..i] in paths ==>
                                paths[key[..i]] != Explicit(FileEntry) && paths[key[..i]] != Explicit(LinkEntry)
      {
        var ancestor := key[..slash];
        if ancestor in paths && (paths[ancestor] == Explicit(FileEntry) || paths[ancestor] == Explicit(LinkEntry)) {
          assert ancestor in Prefixes(key);
          return false;
        }
        slash := IndexFrom(key, '/', slash + 1);
      }
      return true;
    }

    /** Ancestors not yet in the table are added, shortest first, until one does not fit. */
    method AddAncestors(key: string) returns (err: CupError)
      requires allocatedBytes == Cost(paths.Keys) <= MAX_PACKAGE_PATH_TABLE_BYTES
      modifies this
      ensures allocatedBytes == Cost(paths.Keys) && (err == Ok || err == ArchiveUnsafe)
      ensures err == Ok ==>
                && paths.Keys == old(paths.Keys) + Prefixes(key)
                && forall p :: p in paths ==> paths[p] == if p in old(paths) then old(paths)[p] else AncestorOnly
      ensures err == Ok ==> Cost(paths.Keys) <= MAX_PACKAGE_PATH_TABLE_BYTES
      ensures err != Ok ==> old(Cost(paths.Keys + Prefixes(key))) > MAX_PACKAGE_PATH_TABLE_BYTES
    {
      hide Cost, Prefixes, PrefixesBefore, IndexFrom;
      PrefixesAll(key);
      var slash := IndexFrom(key, '/', 0);
      while slash < |key|
        invariant 0 <= slash <= |key| && (slash < |key| ==> key[slash] == '/')
        invariant allocatedBytes == Cost(paths.Keys) <= MAX_PACKAGE_PATH_TABLE_BYTES
        invariant paths.Keys == old(paths.Keys) + PrefixesBefore(key, slash)
        invariant forall p :: p in paths ==> paths[p] == if p in old(paths) then old(paths)[p] else AncestorOnly
      {
        var ancestor := key[..slash];
        PrefixesStep(key, slash);
        if ancestor !in paths {
          ghost var keys := paths.Keys + {ancestor};
          CostMonotone(keys, old(paths.Keys) + Prefixes(key));
          var err := Add(ancestor, AncestorOnly);
          if err != Ok {
            return err;
          }
          assert paths.Keys == keys;
        }
        slash := IndexFrom(key, '/', slash + 1);
      }
      PrefixesAll(key);
      return Ok;
    }

    /** The table is what the entries registered so far leave. */
    ghost predicate Holds(es: seq<Entry>)
      reads this
    {
      Legal(es) && paths == TableOf(es) && allocatedBytes == Cost(paths.Keys)
    }

    /** `path_table_register`: accepted exactly when the sequence stays legal. */
    method Register(path: string, kind: EntryType, ghost es: seq<Entry>) returns (err: CupError)
      requires Holds(es)
      modifies this
      ensures err == Ok <==> Legal(es + [Entry(path, kind)])
      ensures err == Ok ==> Holds(es + [Entry(path, kind)])
      ensures err == Ok || err == ArchiveUnsafe || (err == InvalidInput && path == "")
    {
      hide Cost, Closure, Prefixes, StateOf, Collides, Legal;
      LegalStep(es, Entry(path, kind));
      err := Admit(path, kind, es);
      if err == Ok {
        err := Insert(path, kind, es);
      }
    }

    /** The checks before anything is added. */
    method Admit(path: string, kind: EntryType, ghost es: seq<Entry>) returns (err: CupError)
      requires Holds(es)
      ensures err == Ok <==> UsablePath(path) && !Collides(es, Entry(path, kind))
      ensures err == Ok || err == ArchiveUnsafe || (err == InvalidInput && path == "")
    {
      hide Cost, Closure, Prefixes, StateOf, Collides, Legal;
      if path == "" {
        return InvalidInput;
      }
      if |path| >= MAX_PATH_LEN {
        return ArchiveUnsafe;
      }
      var key := Lower(path);
      CollidesIff(es, Entry(path, kind), paths);
      if key in paths && !(paths[key] == AncestorOnly && kind == DirectoryEntry) {
        return ArchiveUnsafe;
      }
      var clear := CheckAncestors(key);
      return if clear then Ok else ArchiveUnsafe;
    }

    /** The additions, which fail only for want of space. */
    method Insert(path: string, kind: EntryType, ghost es: seq<Entry>) returns (err: CupError)
      requires Holds(es) && UsablePath(path) && !Collides(es, Entry(path, kind))
      modifies this
      ensures err == if Cost(Closure(es + [Entry(path, kind)])) <= MAX_PACKAGE_PATH_TABLE_BYTES then Ok
                     else ArchiveUnsafe
      ensures err == Ok ==> paths == TableOf(es + [Entry(path, kind)]) && allocatedBytes == Cost(paths.Keys)
    {
      hide Cost, Closure, Prefixes, StateOf, Collides, Legal, TableOf;
      ghost var e := Entry(path, kind);
      ghost var was := paths;
      ghost var all := Closure(es + [e]);
      var key := Lower(path);
      ClosureGrows(es, e);
      LegalFits(es);
      TableKeys(es);
      NotOwnPrefix(key);
      CollidesIff(es, e, paths);
      CostMonotone(was.Keys + Prefixes(key), all);
      err := AddAncestors(key);
      if err != Ok {
        return;
      }
      if key in paths {
        assert paths.Keys == all;
        paths := paths[key := Explicit(DirectoryEntry)];
      } else {
        assert paths.Keys + {key} == all;
        err := Add(key, Explicit(kind));
        if err != Ok {
          return;
        }
      }
      assert paths.Keys == all;
      TableGrows(es, e, was, paths);
    }
  }

  lemma TableKeys(es: seq<Entry>)
    ensures TableOf(es).Keys == Closure(es)
  {}

  lemma LegalFits(es: seq<Entry>)
    requires Legal(es)
    ensures Cost(TableOf(es).Keys) <= MAX_PACKAGE_PATH_TABLE_BYTES
  {
    assert TableOf(es).Keys == Closure(es);
  }

  /** A table finds exactly the collisions. */
  lemma CollidesIff(es: seq<Entry>, e: Entry, table: map<string, PathState>)
    requires Legal(es) && table == TableOf(es)
    ensures Collides(es, e) <==>
              || (Key(e) in table && !(table[Key(e)] == AncestorOnly && e.kind == DirectoryEntry))
              || exists p :: p in Prefixes(Key(e)) && p in table
                               && (table[p] == Explicit(FileEntry) || table[p] == Explicit(LinkEntry))
  {
    hide Prefixes, Cost, Closure, Key, StateOf, Legal;
    forall k ensures k in table <==> exists f :: f in es && (Key(f) == k || k in Prefixes(Key(f)))
      ensures k in table ==> (table[k] == AncestorOnly <==> forall f :: f in es ==> Key(f) != k)
      ensures forall f :: f in es && Key(f) == k ==> k in table && table[k] == Explicit(f.kind)
      ensures k in table && table[k] != AncestorOnly ==>
                exists f :: f in es && Key(f) == k && table[k] == Explicit(f.kind)
    {
      ClosureHas(es, k);
      StateMeaning(es, k);
    }
  }

  /** The updated table is the table of the longer sequence. */
  lemma TableGrows(es: seq<Entry>, e: Entry, was: map<string, PathState>, table: map<string, PathState>)
    requires Legal(es) && !Collides(es, e) && was == TableOf(es) && table.Keys == Closure(es + [e])
    requires Key(e) in table && table[Key(e)] == Explicit(e.kind)
    requires forall k :: k in table && k != Key(e) ==> table[k] == if k in was then was[k] else AncestorOnly
    ensures table == TableOf(es + [e])
  {
    hide Prefixes, Cost, Closure, Key, StateOf, Legal, Collides;
    forall k | k in table ensures table[k] == StateOf(es + [e], k) {
      StateStep(es, e, k);
      StateMeaning(es, k);
    }
  }

  /** Registering a whole archive: the verdict and the table depend on the entries alone. */
  method RegisterAll(entries: seq<Entry>) returns (err: CupError, table: PathTable)
    ensures err == Ok <==> Legal(entries)
    ensures err == Ok <==>
              && (forall e :: e in entries ==> e.path != "" && |e.path| < MAX_PATH_LEN)
              && (forall i, j :: 0 <= i < j < |entries| ==> !SameButCase(entries[i].path, entries[j].path))
              && (forall e, f :: e in entries && f in entries && AncestorButCase(e.path, f.path) ==>
                    e.kind == DirectoryEntry)
              && Cost(Closure(entries)) <= MAX_PACKAGE_PATH_TABLE_BYTES
    ensures err == Ok ==> table.Holds(entries)
  {
    hide Legal, Cost, Closure, SameButCase, AncestorButCase;
    LegalIff(entries);
    table := new PathTable();
    LegalEmpty();
    err := Ok;
    for i := 0 to |entries|
      invariant fresh(table) && err == Ok && table.Holds(entries[..i])
    {
      assert entries[..i + 1] == entries[..i] + [Entry(entries[i].path, entries[i].kind)];
      err := table.Register(entries[i].path, entries[i].kind, entries[..i]);
      if err != Ok {
        IllegalPrefix(entries, i + 1);
        return;
      }
    }
    assert entries[..|entries|] == entries;
  }

  lemma LegalEmpty()
    ensures Legal([])
  {}

  lemma {:induction false} IllegalPrefix(es: seq<Entry>, n: nat)
    requires n <= |es| && !Legal(es[..n])
    ensures !Legal(es)
    decreases |es| - n
  {
    hide Legal;
    if n < |es| {
      assert es[..n + 1] == es[..n] + [es[n]];
      if Legal(es[..n + 1]) {
        LegalPrefix(es[..n], es[n]);
      }
      IllegalPrefix(es, n + 1);
    } else {
      assert es[..n] == es;
    }
  }

  function PrefixesBefore(key: string, n: int): set<string> {
    set i | 0 <= i < |key| && i < n && key[i] == '/' :: key[..i]
  }

  lemma PrefixesStep(key: string, slash: nat)
    requires slash < |key| && key[slash] == '/'
    ensures key[..slash] in Prefixes(key) && PrefixesBefore(key, slash) <= Prefixes(key)
    ensures PrefixesBefore(key, IndexFrom(key, '/', slash + 1)) == PrefixesBefore(key, slash) + {key[..slash]}
  {
    var next := IndexFrom(key, '/', slash + 1);
    assert forall i :: 0 <= i < next && key[i] == '/' ==> i <= slash;
  }

  lemma PrefixesAll(key: string)
    ensures PrefixesBefore(key, |key|) == Prefixes(key)
    ensures PrefixesBefore(key, IndexFrom(key, '/', 0)) == {}
  {}
}
