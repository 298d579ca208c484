/** Named filesystem objects with crash-prone durability. A rename or unlink is visible at once and
    durable only after its directory is synchronised; a power loss drops a suffix of the changes that
    are not yet durable. The log keeps every world that was ever visible. */
module Disks {
  import opened Text
  import opened Domain
  import opened States

  datatype Operation = Install | Remove

  /** transaction.txt: what is in flight, and the name of its private staging path. */
  datatype Journal = Journal(operation: Operation, package: Identity, temporary: nat)

  datatype Tree = Directory(entries: set<string>) | RegularFile | OtherObject

  datatype Body = PackageBody(tree: Tree) | StateBody(doc: Doc) | JournalBody(journal: Journal)

  datatype Object = Object(inode: nat, body: Body)

  datatype Name =
    | Package(id: Identity)
    | Staged(n: nat)
    | Preserved(n: nat)
    | StateFile
    | JournalFile
    | Temporary(n: nat)

  /** What every process sees; temporary files are private to their writer and kept apart. */
  type World = map<Name, Object>

  datatype CommitState = NotApplied | Applied | Durable

  predicate IsRegular(o: Object) { !o.body.PackageBody? || o.body.tree.RegularFile? }

  predicate IsDirectory(o: Object) { o.body.PackageBody? && o.body.tree.Directory? }

  predicate Matches(o: Object, expected: Option<nat>) {
    expected.Some? ==> o.inode == expected.value
  }

  function Look(w: World, n: Name): Option<Object> {
    if n in w then Some(w[n]) else None
  }

  function Renamed(w: World, source: Name, destination: Name, o: Object): World {
    (if source.Temporary? then w else w - {source})[destination := o]
  }

  /** What a rename needs: a movable source, and a destination that is absent or may be displaced. */
  predicate MayMove(o: Option<Object>, target: Option<Object>, replace: bool,
                    expectedSource: Option<nat>, expectedDestination: Option<nat>)
  {
    && o.Some? && (IsRegular(o.value) || IsDirectory(o.value)) && Matches(o.value, expectedSource)
    && (!replace ==> target.None?)
    && (replace ==> IsRegular(o.value) && (target.Some? ==> IsRegular(target.value)))
    && (replace && expectedDestination.Some? ==> target.Some? && Matches(target.value, expectedDestination))
  }

  /** `w` is `from` with the tree at `n` gone or with some of its entries gone. */
  predicate Shrunk(from: World, n: Name, w: World) {
    || w == from - {n}
    || (n in from && IsDirectory(from[n])
        && exists rest :: rest <= from[n].body.tree.entries
                          && w == from[n := Object(from[n].inode, PackageBody(Directory(rest)))])
  }

  lemma ShrunkToNothing(w: World, n: Name)
    ensures Shrunk(w, n, w - {n})
  {}

  lemma ShrunkToPart(w: World, n: Name, rest: set<string>)
    requires n in w && IsDirectory(w[n]) && rest <= w[n].body.tree.entries
    ensures Shrunk(w, n, w[n := Object(w[n].inode, PackageBody(Directory(rest)))])
  {}

  datatype PublicationMode = Create | Replace

  /** What a publication needs of the destination: nothing there, or a regular file, the observed one if
      it is bound to an identity. */
  predicate MayPublish(target: Option<Object>, mode: PublicationMode, expected: Option<nat>) {
    if mode == Create then target.None?
    else if expected.Some? then target.Some? && IsRegular(target.value) && Matches(target.value, expected)
    else target.Some? ==> IsRegular(target.value)
  }

  lemma RenamedTemporary(w: World, source: Name, destination: Name, o: Object)
    requires source.Temporary?
    ensures Renamed(w, source, destination, o) == w[destination := o]
  {}

  /** A new file may be moved where it may be published. */
  lemma NewFileMayMove(o: Object, target: Option<Object>, mode: PublicationMode, expected: Option<nat>)
    requires !o.body.PackageBody? && (mode == Create ==> expected.None?)
    ensures MayMove(Some(o), target, mode == Replace, None, expected) <==> MayPublish(target, mode, expected)
  {}

  class Disk {
    var now: World
    var temporaries: World
    var nextInode: nat
    const reliable: bool
    /** The platform this root belongs to. */
    const host: string
    var log: seq<World>
    var durable: nat

    constructor (world: World, host: string, reliable: bool)
      ensures Valid() && Settled() && now == world && log == [world]
      ensures this.host == host && this.reliable == reliable
    {
      now, temporaries, nextInode, log, durable := world, map[], 0, [world], 0;
      this.host, this.reliable := host, reliable;
    }

    ghost predicate Valid()
      reads this`now, this`log, this`durable
    {
      && |log| > 0 && log[|log| - 1] == now && durable < |log|
    }

    /** The log only grows, and what is durable stays durable. */
    twostate predicate Grew()
      reads this
    {
      && |old(log)| <= |log| && (forall k :: 0 <= k < |old(log)| ==> log[k] == old(log[k]))
      && old(durable) <= durable
    }

    /** Everything visible is durable. */
    ghost predicate Settled()
      reads this`log, this`durable
    {
      durable + 1 == |log|
    }

    /** A failure that has nothing to do with the contents of the disk. */
    method Fault() returns (failed: bool)
      ensures reliable ==> !failed
    {
      failed := *;
      if reliable {
        failed := false;
      }
    }

    /** One namespace change becomes visible. */
    method Show(w: World)
      requires Valid()
      modifies this`now, this`log
      ensures Valid() && now == w && log == old(log) + [w]
    {
      now := w;
      log := log + [w];
    }

    method Sync() returns (failed: bool)
      requires Valid()
      modifies this`durable
      ensures Valid() && old(durable) <= durable
      ensures !failed ==> Settled()
      ensures reliable ==> !failed
    {
      failed := Fault();
      if !failed {
        durable := |log| - 1;
      }
    }

    function Find(n: Name): Option<Object>
      reads this`now, this`temporaries
    {
      if n.Temporary? then Look(temporaries, n) else Look(now, n)
    }

    /** The shared rename: observe both ends, rename once, prove that the destination is the source
        object, then synchronise. A rename that cannot be proved is undone when nothing was replaced. */
    method MoveCommon(source: Name, destination: Name, replace: bool,
                      expectedSource: Option<nat>, expectedDestination: Option<nat>)
      returns (err: CupError, state: CommitState)
      requires Valid() && !destination.Temporary? && source != destination
      modifies this`now, this`temporaries, this`log, this`durable
      ensures err != NotInstalled
      ensures Valid() && Grew()
      ensures err == Ok <==> state == Durable
      ensures state == Durable ==> Settled()
      ensures state == NotApplied && |log| > |old(log)| ==> Settled()
      ensures state == NotApplied ==> err != Commit && now == old(now) && temporaries == old(temporaries)
      ensures |log| > |old(log)| ==>
                MayMove(old(Find(source)), Look(old(now), destination), replace, expectedSource, expectedDestination)
      ensures forall k :: |old(log)| <= k < |log| ==>
                log[k] == old(now) || log[k] == Renamed(old(now), source, destination, old(Find(source)).value)
      ensures || now == old(now)
              || (|log| > |old(log)| && now == Renamed(old(now), source, destination, old(Find(source)).value))
      ensures state == Durable || (replace && state == Applied) ==>
                |log| > |old(log)| && now == Renamed(old(now), source, destination, old(Find(source)).value)
      ensures reliable ==>
                (err == Ok <==> MayMove(old(Find(source)), Look(old(now), destination), replace,
                                        expectedSource, expectedDestination))
    {
      hide Renamed, MayMove;
      state := NotApplied;
      err := InspectMove(source, destination, replace, expectedSource, expectedDestination);
      if err == Ok {
        err, state := CommitRename(source, destination, replace, Find(source).value);
      }
    }

    /** Everything a rename checks before it is made. */
    method InspectMove(source: Name, destination: Name, replace: bool,
                       expectedSource: Option<nat>, expectedDestination: Option<nat>)
      returns (err: CupError)
      ensures err in {Ok, Filesystem, TransactionError}
      ensures err == Ok ==>
                && Find(source).Some?
                && MayMove(Find(source), Look(now, destination), replace, expectedSource, expectedDestination)
      ensures reliable ==>
                (err == Ok <==>
                   MayMove(Find(source), Look(now, destination), replace, expectedSource, expectedDestination))
    {
      var failed := Fault();
      if failed {
        return Filesystem;
      }
      var found := Find(source);
      if found.None? || !(IsRegular(found.value) || IsDirectory(found.value)) {
        return Filesystem;
      }
      if !Matches(found.value, expectedSource) {
        return TransactionError;
      }
      var target := Look(now, destination);
      if replace {
        if !IsRegular(found.value) || (target.Some? && !IsRegular(target.value)) {
          return Filesystem;
        }
        if expectedDestination.Some? && (target.None? || !Matches(target.value, expectedDestination)) {
          return TransactionError;
        }
      } else if target.Some? {
        return Filesystem;
      }
      failed := Fault();
      return if failed then Filesystem else Ok;
    }

    /** The rename itself, once everything about it has been checked. */
    method CommitRename(source: Name, destination: Name, replace: bool, o: Object)
      returns (err: CupError, state: CommitState)
      requires Valid() && !destination.Temporary? && source != destination && Find(source) == Some(o)
      modifies this`now, this`temporaries, this`log, this`durable
      ensures err != NotInstalled
      ensures Valid() && Grew()
      ensures err == Ok <==> state == Durable
      ensures state == Durable ==> Settled()
      ensures state == NotApplied && |log| > |old(log)| ==> Settled()
      ensures state == NotApplied ==> err != Commit && now == old(now) && temporaries == old(temporaries)
      ensures |log| > |old(log)|
      ensures forall k :: |old(log)| <= k < |log| ==>
                log[k] == old(now) || log[k] == Renamed(old(now), source, destination, o)
      ensures now == old(now) || now == Renamed(old(now), source, destination, o)
      ensures state == Durable || (replace && state == Applied) ==> now == Renamed(old(now), source, destination, o)
      ensures reliable ==> err == Ok
    {
      hide Renamed;
      var before, beforeTemporaries := now, temporaries;
      var after := Renamed(now, source, destination, o);
      Show(after);
      temporaries := temporaries - {source};
      var unproven := Fault();
      if !unproven {
        var failed := Sync();
        return if failed then Filesystem else Ok, if failed then Applied else Durable;
      }
      if replace {
        return Commit, Applied;
      }
      var failed := Fault();
      if failed {
        return Commit, Applied;
      }
      Show(before);
      temporaries := beforeTemporaries;
      failed := Sync();
      return if failed then Commit else InconsistentState, if failed then Applied else NotApplied;
    }

    method MovePath(source: Name, destination: Name) returns (err: CupError, state: CommitState)
      requires Valid() && !source.Temporary? && !destination.Temporary? && source != destination
      modifies this`now, this`temporaries, this`log, this`durable
      ensures err != NotInstalled
      ensures Valid() && Grew()
      ensures err == Ok <==> state == Durable
      ensures state == Durable ==> Settled()
      ensures state == NotApplied && |log| > |old(log)| ==> Settled()
      ensures state == NotApplied ==> err != Commit && now == old(now)
      ensures |log| > |old(log)| ==> source in old(now) && destination !in old(now)
      ensures forall k :: |old(log)| <= k < |log| ==>
                log[k] == old(now) || log[k] == Renamed(old(now), source, destination, old(now)[source])
      ensures now == old(now) || (|log| > |old(log)| && now == Renamed(old(now), source, destination, old(now)[source]))
      ensures state == Durable ==> |log| > |old(log)| && now == Renamed(old(now), source, destination, old(now)[source])
      ensures reliable ==>
                (err == Ok <==> MayMove(Look(old(now), source), Look(old(now), destination), false, None, None))
    {
      err, state := MoveCommon(source, destination, false, None, None);
    }

    method MovePathIfIdentity(source: Name, destination: Name, expected: nat)
      returns (err: CupError, state: CommitState)
      requires Valid() && !source.Temporary? && !destination.Temporary? && source != destination
      modifies this`now, this`temporaries, this`log, this`durable
      ensures Valid() && Grew()
      ensures err == Ok <==> state == Durable
      ensures state == Durable ==> Settled()
      ensures state == NotApplied && |log| > |old(log)| ==> Settled()
      ensures state == NotApplied ==> err != Commit && now == old(now)
      ensures |log| > |old(log)| ==>
                source in old(now) && destination !in old(now) && old(now)[source].inode == expected
      ensures forall k :: |old(log)| <= k < |log| ==>
                log[k] == old(now) || log[k] == Renamed(old(now), source, destination, old(now)[source])
      ensures now == old(now) || (|log| > |old(log)| && now == Renamed(old(now), source, destination, old(now)[source]))
      ensures state == Durable ==> |log| > |old(log)| && now == Renamed(old(now), source, destination, old(now)[source])
      ensures reliable ==>
                (err == Ok <==>
                   MayMove(Look(old(now), source), Look(old(now), destination), false, Some(expected), None))
    {
      err, state := MoveCommon(source, destination, false, Some(expected), None);
    }

    /** Entry by entry and without any synchronisation; an interrupt or a failure may stop it anywhere. */
    method RemoveTree(n: Name) returns (err: CupError)
      requires Valid() && !n.Temporary?
      modifies this`now, this`log
      ensures Valid() && Grew()
      ensures forall k :: |old(log)| <= k < |log| ==> Shrunk(old(now), n, log[k])
      ensures now == old(now) || Shrunk(old(now), n, now)
      ensures err == Ok ==> now == old(now) - {n}
      ensures err != Ok ==> n in now
      ensures n !in old(now) ==> log == old(log)
      ensures reliable ==> err == Ok
    {
      hide Shrunk;
      ShrunkToNothing(now, n);
      var failed := Fault();
      if n !in now {
        assert now == now - {n};
        return Ok;
      }
      if failed {
        return Interrupt;
      }
      ghost var start := now;
      if IsDirectory(now[n]) {
        var inode, rest := now[n].inode, now[n].body.tree.entries;
        while rest != {}
          invariant Valid() && Grew() && n in now && n in start && rest <= start[n].body.tree.entries
          invariant now == start || now == start[n := Object(inode, PackageBody(Directory(rest)))]
          invariant rest == now[n].body.tree.entries && IsDirectory(start[n]) && inode == start[n].inode
          invariant forall k :: |old(log)| <= k < |log| ==> Shrunk(start, n, log[k])
        {
          failed := Fault();
          if failed {
            return Interrupt;
          }
          var entry :| entry in rest;
          rest := rest - {entry};
          ShrunkToPart(start, n, rest);
          Show(now[n := Object(inode, PackageBody(Directory(rest)))]);
          assert now == start[n := Object(inode, PackageBody(Directory(rest)))];
        }
      }
      failed := Fault();
      if failed {
        return Filesystem;
      }
      Show(now - {n});
      assert now == start - {n};
      return Ok;
    }

    /** Removes the journal only while it is the file that was observed. */
    method ClearJournal(expected: nat) returns (err: CupError)
      requires Valid()
      modifies this`now, this`log, this`durable
      ensures Valid() && Grew()
      ensures now == old(now) || now == old(now) - {JournalFile}
      ensures forall k :: |old(log)| <= k < |log| ==> log[k] == old(now) - {JournalFile}
      ensures |log| > |old(log)| ==> JournalFile in old(now) && old(now)[JournalFile].inode == expected
      ensures err == Ok ==> Settled() && |log| > |old(log)| && JournalFile !in now
      ensures err == TransactionError ==> now == old(now) && log == old(log)
      ensures err == Ok || err == TransactionError || err == Commit
      ensures reliable && JournalFile in old(now) && old(now)[JournalFile].inode == expected ==> err == Ok
    {
      var failed := Fault();
      if failed || JournalFile !in now || now[JournalFile].inode != expected {
        return TransactionError;
      }
      Show(now - {JournalFile});
      failed := Sync();
      return if failed then Commit else Ok;
    }

    /** A fresh private file, written and flushed before anything can see it. */
    method WriteTemporary(body: Body) returns (err: CupError, name: Name)
      requires Valid()
      modifies this`temporaries, this`nextInode
      ensures err != NotInstalled
      ensures Valid() && name.Temporary?
      ensures err == Ok ==> name in temporaries && temporaries[name] == Object(old(nextInode), body)
      ensures nextInode >= old(nextInode)
      ensures reliable ==> err == Ok
    {
      name := Temporary(nextInode);
      var failed := Fault();
      if failed {
        return TemporaryError, name;
      }
      temporaries := temporaries[name := Object(nextInode, body)];
      nextInode := nextInode + 1;
      failed := Fault();
      if failed {
        temporaries := temporaries - {name};
        return Filesystem, name;
      }
      err := Ok;
    }

    /** `publish_file`: Ok means the new file is durable, Commit that it may be visible, and any other
        result that the destination is what it was. An identity-bound replacement displaces nothing but
        the observed file. */
    method PublishFile(destination: Name, body: Body, mode: PublicationMode, expected: Option<nat>)
      returns (err: CupError)
      requires Valid() && !destination.Temporary? && !body.PackageBody?
      requires mode == Create ==> expected.None?
      modifies this`now, this`temporaries, this`log, this`durable, this`nextInode
      ensures err != NotInstalled
      ensures Valid() && Grew()
      ensures err == Ok ==> Settled() && |log| > |old(log)|
                            && now == old(now)[destination := Object(old(nextInode), body)]
      ensures err == Commit ==> now == old(now) || now == old(now)[destination := Object(old(nextInode), body)]
      ensures err != Ok && err != Commit ==> now == old(now)
      ensures err != Ok && err != Commit && |log| > |old(log)| ==> Settled()
      ensures forall k :: |old(log)| <= k < |log| ==>
                log[k] == old(now) || log[k] == old(now)[destination := Object(old(nextInode), body)]
      ensures |log| > |old(log)| && mode == Create ==> destination !in old(now)
      ensures |log| > |old(log)| && expected.Some? ==>
                destination in old(now) && old(now)[destination].inode == expected.value
      ensures reliable ==> (err == Ok <==> MayPublish(Look(old(now), destination), mode, expected))
    {
      hide Renamed, MayMove, IsRegular;
      var name;
      err, name := WriteTemporary(body);
      if err != Ok {
        return;
      }
      var state;
      ghost var before, o := now, temporaries[name];
      RenamedTemporary(before, name, destination, o);
      NewFileMayMove(o, Look(before, destination), mode, expected);
      err, state := MoveCommon(name, destination, mode == Replace, None, expected);
      if err == Ok && state == Durable {
        return Ok;
      }
      if state == NotApplied {
        temporaries := temporaries - {name};
        return err;
      }
      return Commit;
    }

    /** `runtime_journal_publish`: creation only, with the identity of the proven new journal. */
    method PublishJournal(journal: Journal) returns (err: CupError, identity: Option<nat>)
      requires Valid()
      modifies this`now, this`temporaries, this`log, this`durable, this`nextInode
      ensures Valid() && Grew()
      ensures err == Ok || err == TransactionError || err == Commit
      ensures err == Ok ==> Settled() && now == old(now)[JournalFile := Object(old(nextInode), JournalBody(journal))]
                            && identity == Some(old(nextInode))
      ensures err == TransactionError ==> now == old(now)
      ensures err == TransactionError && |log| > |old(log)| ==> Settled()
      ensures now == old(now) || now == old(now)[JournalFile := Object(old(nextInode), JournalBody(journal))]
      ensures forall k :: |old(log)| <= k < |log| ==>
                log[k] == old(now) || log[k] == old(now)[JournalFile := Object(old(nextInode), JournalBody(journal))]
      ensures |log| > |old(log)| ==> JournalFile !in old(now)
      ensures reliable ==> (err == Ok <==> JournalFile !in old(now))
    {
      hide Renamed, MayMove, IsRegular;
      identity := None;
      var name, state;
      err, name := WriteTemporary(JournalBody(journal));
      if err != Ok {
        return TransactionError, None;
      }
      var source := temporaries[name].inode;
      RenamedTemporary(now, name, JournalFile, temporaries[name]);
      NewFileMayMove(temporaries[name], Look(now, JournalFile), Create, None);
      err, state := MoveCommon(name, JournalFile, false, None, None);
      if err == Ok {
        var failed := Fault();
        if failed || JournalFile !in now || now[JournalFile].inode != source {
          return Commit, None;
        }
        return Ok, Some(source);
      }
      if state == NotApplied {
        temporaries := temporaries - {name};
        return TransactionError, None;
      }
      var unread := Fault();
      if !unread && JournalFile in now && now[JournalFile].inode == source {
        identity := Some(source);
      }
      return Commit, identity;
    }

    /** Power loss: a suffix of the changes that were not yet durable at some earlier moment is
        dropped, and what survives is all there is. */
    method PowerLoss(survivor: nat)
      requires Valid() && survivor < |log|
      modifies this`now, this`log, this`durable
      ensures Valid() && now == old(log)[survivor] && log == [now] && durable == 0
    {
      now := log[survivor];
      log := [now];
      durable := 0;
    }
  }
}
