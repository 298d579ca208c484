/** Catalog refresh: snapshot under a shared lock, download without any lock, compare and swap under an
    exclusive lock, by any number of processes at once. A digest stands for the bytes it was taken of. */
module Refreshes {
  import opened Domain

  /** The bytes of a catalog, with the two fields a refresh reads. */
  datatype Content = Content(revision: nat, updateUrl: string, bytes: string)

  /** The installed file: its identity on disk may be reused by a later file. */
  datatype File = File(identity: nat, content: Content)

  /** One catalog that was ever installed: what it replaced, and where its bytes came from. */
  datatype Installation = Installation(file: File, replaced: File, fetchedFrom: string)

  const MAX_ATTEMPTS := 3

  /** How the replacement itself ends: as asked, failed before, or failed once visible. */
  datatype Fault = NoFault | FailsBefore | FailsAfter

  /** `same_snapshot`: revision, digest and identity. */
  predicate SameSnapshot(a: File, b: File) {
    a.content.revision == b.content.revision && a.content == b.content && a.identity == b.identity
  }

  /** Revisions only grow, and every catalog replaced exactly its predecessor with bytes fetched from
      the predecessor's own update URL. */
  ghost predicate Ordered(history: seq<Installation>) {
    && (forall i, j :: 0 <= i < j < |history| ==> history[i].file.content.revision < history[j].file.content.revision)
    && (forall i :: 0 < i < |history| ==>
          && history[i].replaced == history[i - 1].file
          && history[i].fetchedFrom == history[i - 1].file.content.updateUrl)
  }

  /** One revision never gets two contents, and no content is ever installed twice. */
  lemma RevisionIdentifiesContent(history: seq<Installation>, i: nat, j: nat)
    requires Ordered(history) && i < |history| && j < |history|
    requires history[i].file.content.revision == history[j].file.content.revision
    ensures i == j && history[i] == history[j]
  {
    forall a, b | 0 <= a < b < |history|
      ensures history[a].file.content.revision != history[b].file.content.revision
    {
    }
  }

  /** Reused identities cannot confuse two snapshots: a snapshot that matches the installed catalog was
      taken while that same catalog was installed. */
  lemma SnapshotIsCurrent(history: seq<Installation>, i: nat)
    requires Ordered(history) && i < |history| && SameSnapshot(history[i].file, history[|history| - 1].file)
    ensures i == |history| - 1
  {
    RevisionIdentifiesContent(history, i, |history| - 1);
  }

  lemma Extends(history: seq<Installation>, next: Installation)
    requires Ordered(history) && history != []
    requires next.replaced == history[|history| - 1].file
    requires next.fetchedFrom == history[|history| - 1].file.content.updateUrl
    requires next.file.content.revision > history[|history| - 1].file.content.revision
    ensures Ordered(history + [next])
  {
    var longer, n := history + [next], |history| - 1;
    forall i | 0 <= i < |history| ensures history[i].file.content.revision < next.file.content.revision {
      assert i < n ==> history[i].file.content.revision < history[n].file.content.revision;
    }
  }

  lemma Longer(a: seq<Installation>, b: seq<Installation>)
    requires a <= b && a != b
    ensures |a| < |b|
  {
    assert b[..|b|] == b;
  }

  lemma OrderedPrefix(history: seq<Installation>, n: nat)
    requires Ordered(history) && n <= |history|
    ensures Ordered(history[..n])
  {}

  /** What another process does with the shared catalog, or a power loss that all of them are lost to. */
  datatype Event = Snapshot(process: nat) | Swap(process: nat, remote: Content, fault: Fault) | PowerLoss(survivor: nat)

  predicate NoPowerLoss(events: seq<Event>) {
    forall i :: 0 <= i < |events| ==> !events[i].PowerLoss?
  }

  // ---- What each event does ----

  /** What is installed, how it came to be, and how far it is durable. */
  datatype Store = Store(history: seq<Installation>, durable: nat)
  {
    ghost predicate WellShaped() { history != [] && durable < |history| }

    function Current(): File
      requires history != []
    {
      history[|history| - 1].file
    }
  }

  /** A swap installs its content exactly over the snapshot it was fetched for and only with a greater
      revision; nothing else changes anything. */
  ghost predicate Swapped(s: Store, before: File, remote: Content, fault: Fault, t: Store)
    requires s.history != []
  {
    if Wins(s, before, remote, fault) then
      exists file :: IsInstalled(s, before, remote, fault, file, t)
    else t == s
  }

  predicate Wins(s: Store, before: File, remote: Content, fault: Fault)
    requires s.history != []
  {
    fault != FailsBefore && before == s.Current() && remote.revision > s.Current().content.revision
  }

  predicate IsInstalled(s: Store, before: File, remote: Content, fault: Fault, file: File, t: Store)
    requires s.history != []
  {
    && file.content == remote
    && t == Store(s.history + [Installation(file, s.Current(), before.content.updateUrl)],
                  if fault == NoFault then |s.history| else s.durable)
  }

  /** One event: the store and the snapshots before it and after it. */
  datatype Step = Step(event: Event, before: Store, held: map<nat, File>, after: Store, heldAfter: map<nat, File>)

  ghost predicate Lawful(s: Step) {
    && s.before.WellShaped() && s.after.WellShaped()
    && match s.event
       case Snapshot(process) => s.after == s.before && s.heldAfter == s.held[process := s.before.Current()]
       case Swap(process, remote, fault) =>
         if process in s.held then
           s.heldAfter == s.held - {process} && Swapped(s.before, s.held[process], remote, fault, s.after)
         else s.after == s.before && s.heldAfter == s.held
       case PowerLoss(survivor) =>
         if s.before.durable <= survivor < |s.before.history| then
           s.after == Store(s.before.history[..survivor + 1], survivor) && s.heldAfter == map[]
         else s.after == s.before && s.heldAfter == s.held
  }

  /** The steps are those of the events, each lawful and beginning where the one before it ended. */
  ghost predicate Trace(steps: seq<Step>, events: seq<Event>, start: Store, held: map<nat, File>,
                        end: Store, heldAtEnd: map<nat, File>)
  {
    && |steps| == |events|
    && (forall k :: 0 <= k < |steps| ==> Lawful(steps[k]) && steps[k].event == events[k])
    && (forall k :: 0 < k < |steps| ==>
          steps[k].before == steps[k - 1].after && steps[k].held == steps[k - 1].heldAfter)
    && (if steps == [] then end == start && heldAtEnd == held
        else && steps[0].before == start && steps[0].held == held
             && steps[|steps| - 1].after == end && steps[|steps| - 1].heldAfter == heldAtEnd)
  }

  lemma TraceGrows(steps: seq<Step>, events: seq<Event>, i: nat, start: Store, held: map<nat, File>, step: Step)
    requires i < |events| && Trace(steps, events[..i], start, held, step.before, step.held)
    requires Lawful(step) && step.event == events[i]
    ensures Trace(steps + [step], events[..i + 1], start, held, step.after, step.heldAfter)
  {
    hide Lawful;
    var longer := steps + [step];
    assert forall k :: 0 <= k < |steps| ==> longer[k] == steps[k];
    assert longer[|steps|] == step;
  }

  class CatalogStore {
    var current: File
    var history: seq<Installation>
    /** The last installation known to survive a power loss. */
    var durable: nat

    constructor (file: File)
      ensures Valid() && current == file && |history| == 1
    {
      current := file;
      history := [Installation(file, file, "")];
      durable := 0;
    }

    ghost predicate Valid()
      reads this
    {
      durable < |history| && history[|history| - 1].file == current && Ordered(history)
    }

    ghost function Contents(): Store
      reads this
    {
      Store(history, durable)
    }

    /** `commit_remote_catalog` under the exclusive lock. `remote` was fetched from the URL of `before`. */
    method CommitRemote(before: File, remote: Content, fault: Fault) returns (err: CupError, updated: bool, retry: bool)
      requires Valid()
      modifies this
      ensures Valid()
      ensures Swapped(old(Contents()), before, remote, fault, Contents())
      ensures history != old(history) <==> Wins(old(Contents()), before, remote, fault)
      ensures retry <==> remote != old(current).content && before != old(current)
      ensures err == Ok <==> remote == old(current).content || retry || updated
      ensures updated <==> fault == NoFault && Wins(old(Contents()), before, remote, fault)
      ensures updated ==> err == Ok && !retry && current.content == remote
      ensures old(durable) <= durable
      ensures err == CatalogError <==>
                before == old(current) && remote != before.content && remote.revision <= before.content.revision
      ensures err == Commit ==> current.content == remote
      ensures err == Filesystem ==> current == old(current)
      ensures err in {Ok, CatalogError, Filesystem, Commit} && old(history) <= history
    {
      if current.content.revision == remote.revision && current.content == remote {
        return Ok, false, false;
      }
      if !SameSnapshot(before, current) {
        return Ok, false, true;
      }
      if remote.revision < current.content.revision {
        return CatalogError, false, false;
      }
      if remote.revision == current.content.revision {
        return CatalogError, false, false;
      }
      if fault == FailsBefore {
        return Filesystem, false, false;
      }
      var identity: nat := *;
      if identity == current.identity {
        identity := identity + 1;
      }
      var file := File(identity, remote);
      var next := Installation(file, current, before.content.updateUrl);
      Extends(history, next);
      ghost var start := Contents();
      current := file;
      history := history + [next];
      if fault == FailsAfter {
        assert IsInstalled(start, before, remote, fault, file, Contents());
        return Commit, false, false;
      }
      durable := |history| - 1;
      assert IsInstalled(start, before, remote, fault, file, Contents());
      return Ok, true, false;
    }

    /** The last installations that were not confirmed may be lost, newest first. */
    method LosePower(survivor: nat)
      requires Valid() && durable <= survivor < |history|
      modifies this
      ensures Valid() && durable == survivor && history == old(history)[..survivor + 1]
    {
      OrderedPrefix(history, survivor + 1);
      history := history[..survivor + 1];
      current := history[survivor].file;
      durable := survivor;
    }

    /** One event of any process. */
    method RunEvent(event: Event, held: map<nat, File>) returns (heldAfter: map<nat, File>, ghost step: Step)
      requires Valid()
      modifies this
      ensures Valid() && Lawful(step)
      ensures step == Step(event, old(Contents()), held, Contents(), heldAfter)
      ensures old(durable) <= durable && old(history)[..old(durable) + 1] <= history
      ensures !event.PowerLoss? ==> old(history) <= history && (history == old(history) ==> current == old(current))
    {
      hide Ordered, Swapped;
      heldAfter := held;
      match event {
        case Snapshot(process) =>
          heldAfter := held[process := current];
        case Swap(process, remote, fault) =>
          if process in held {
            var err, updated, retry := CommitRemote(held[process], remote, fault);
            heldAfter := held - {process};
          }
        case PowerLoss(survivor) =>
          if durable <= survivor < |history| {
            LosePower(survivor);
            heldAfter := map[];
          }
      }
      step := Step(event, old(Contents()), held, Contents(), heldAfter);
    }

    /** Any interleaving of any processes, also through power losses: each holds the snapshot it last took,
        downloads for as long as it likes, and commits against it. The history is accounted for event by
        event; what is durable stays installed. */
    method RunRefreshers(events: seq<Event>, heldAtStart: map<nat, File>)
      returns (held: map<nat, File>, ghost steps: seq<Step>)
      requires Valid()
      modifies this
      ensures Valid() && old(history)[..old(durable) + 1] <= history
      ensures Trace(steps, events, old(Contents()), heldAtStart, Contents(), held)
      ensures NoPowerLoss(events) ==> old(history) <= history && (history == old(history) ==> current == old(current))
    {
      hide Ordered, Lawful, Trace, NoPowerLoss;
      held, steps := heldAtStart, [];
      ghost var start := Contents();
      NoSteps(events, start, held);
      for i := 0 to |events|
        invariant Valid() && old(durable) <= durable && old(history)[..old(durable) + 1] <= history
        invariant Trace(steps, events[..i], start, heldAtStart, Contents(), held)
        invariant NoPowerLoss(events) ==>
                    old(history) <= history && (history == old(history) ==> current == old(current))
      {
        NotLost(events, i);
        ghost var step;
        held, step := RunEvent(events[i], held);
        TraceGrows(steps, events, i, start, heldAtStart, step);
        steps := steps + [step];
      }
      assert events[..|events|] == events;
    }

    /** One attempt: a snapshot, a download during which others are at work, and the swap. */
    method Attempt(response: Content, fault: Fault, others: seq<Event>, heldAtStart: map<nat, File>)
      returns (err: CupError, updated: bool, retry: bool, held: map<nat, File>, ghost attempt: Try)
      requires Valid() && NoPowerLoss(others)
      modifies this
      ensures Valid() && old(history) <= history && err != TemporaryError
      ensures retry ==> err == Ok && !updated && |history| > |old(history)|
      ensures updated ==> err == Ok
      ensures err == Ok && !retry ==> current.content == response
      ensures attempt.start == old(Contents()) && attempt.held == heldAtStart
      ensures attempt.end == Contents() && attempt.heldAfter == held && attempt.retry == retry
      ensures attempt.WellMade(response, fault, others)
      ensures updated <==> fault == NoFault && Wins(attempt.met, attempt.start.Current(), response, fault)
      ensures response.revision > old(current).content.revision && attempt.met.history == old(history) ==>
                !retry && (fault == NoFault ==> updated)
    {
      hide Ordered, NoPowerLoss, Trace, Swapped;
      var before := current;
      ghost var start := Contents();
      ghost var steps;
      held, steps := RunRefreshers(others, heldAtStart);
      ghost var met := Contents();
      err, updated, retry := CommitRemote(before, response, fault);
      if retry {
        Longer(start.history, met.history);
      }
      attempt := Try(start, heldAtStart, steps, met, Contents(), held, retry);
    }

    /** `catalog_refresh_existing`: at most three attempts, each from a new snapshot, with any other
        refreshers at work during the download. Only an attempt whose catalog was replaced meanwhile is
        repeated; an update is the installation of the last attempt over its own snapshot. */
    method RefreshExisting(responses: seq<Content>, faults: seq<Fault>, others: seq<seq<Event>>)
      returns (err: CupError, updated: bool, ghost attempts: seq<Try>)
      requires Valid() && |responses| == |faults| == |others| == MAX_ATTEMPTS
      requires forall i :: 0 <= i < MAX_ATTEMPTS ==> NoPowerLoss(others[i])
      modifies this
      ensures Valid() && old(history) <= history
      ensures Attempted(attempts, responses, faults, others, old(Contents()), Contents())
      ensures err == TemporaryError <==> |attempts| == MAX_ATTEMPTS && attempts[MAX_ATTEMPTS - 1].retry
      ensures err == TemporaryError ==> |history| >= |old(history)| + MAX_ATTEMPTS
      ensures updated ==> err == Ok
      ensures var last := attempts[|attempts| - 1];
              updated <==> faults[|attempts| - 1] == NoFault
                           && Wins(last.met, last.start.Current(), responses[|attempts| - 1], NoFault)
      ensures err == Ok ==> current.content == responses[|attempts| - 1]
      ensures faults[0] == NoFault && responses[0].revision > old(current).content.revision ==>
                attempts[0].met.history == old(history) ==> updated && |attempts| == 1
    {
      hide Ordered, NoPowerLoss, Trace, Swapped;
      updated, attempts := false, [];
      var held: map<nat, File> := map[];
      for attempt := 0 to MAX_ATTEMPTS
        invariant Valid() && old(history) <= history && !updated
        invariant |history| >= |old(history)| + attempt && |attempts| == attempt
        invariant attempt == 0 ==> Contents() == old(Contents()) && held == map[]
        invariant attempt > 0 ==> Attempted(attempts, responses, faults, others, old(Contents()), Contents())
        invariant attempt > 0 ==> attempts[attempt - 1].retry && attempts[attempt - 1].heldAfter == held
        invariant attempt > 0 && faults[0] == NoFault && attempts[0].met.history == old(history) ==>
                    responses[0].revision <= old(current).content.revision
      {
        var retry;
        ghost var made;
        err, updated, retry, held, made := Attempt(responses[attempt], faults[attempt], others[attempt], held);
        OneMoreAttempt(attempts, responses, faults, others, old(Contents()), made);
        attempts := attempts + [made];
        if err != Ok || !retry {
          return;
        }
      }
      return TemporaryError, false, attempts;
    }
  }

  lemma NoSteps(events: seq<Event>, start: Store, held: map<nat, File>)
    ensures Trace([], events[..0], start, held, start, held)
  {}

  lemma NotLost(events: seq<Event>, i: nat)
    requires i < |events|
    ensures NoPowerLoss(events) ==> !events[i].PowerLoss?
  {}

  /** One attempt of a refresh: its snapshot, what others did during the download, what the swap met, and
      what it left. */
  datatype Try = Try(start: Store, held: map<nat, File>, steps: seq<Step>, met: Store, end: Store,
                     heldAfter: map<nat, File>, retry: bool)
  {
    ghost predicate WellMade(response: Content, fault: Fault, others: seq<Event>) {
      && start.WellShaped() && met.WellShaped() && end.WellShaped()
      && Trace(steps, others, start, held, met, heldAfter)
      && Swapped(met, start.Current(), response, fault, end)
      && (retry <==> response != met.Current().content && start.Current() != met.Current())
    }
  }

  /** The attempts follow one another, and all but the last were to be repeated. */
  ghost predicate Attempted(attempts: seq<Try>, responses: seq<Content>, faults: seq<Fault>, others: seq<seq<Event>>,
                            start: Store, end: Store)
    requires |responses| == |faults| == |others|
  {
    && 0 < |attempts| <= |responses|
    && attempts[0].start == start && attempts[0].held == map[] && attempts[|attempts| - 1].end == end
    && (forall k :: 0 <= k < |attempts| ==> attempts[k].WellMade(responses[k], faults[k], others[k]))
    && (forall k :: 0 <= k < |attempts| - 1 ==>
          && attempts[k].retry
          && attempts[k + 1].start == attempts[k].end && attempts[k + 1].held == attempts[k].heldAfter)
  }

  lemma OneMoreAttempt(attempts: seq<Try>, responses: seq<Content>, faults: seq<Fault>, others: seq<seq<Event>>,
                       start: Store, made: Try)
    requires |attempts| < |responses| == |faults| == |others|
    requires made.WellMade(responses[|attempts|], faults[|attempts|], others[|attempts|])
    requires attempts == [] ==> made.start == start && made.held == map[]
    requires attempts != [] ==>
               && Attempted(attempts, responses, faults, others, start, made.start)
               && attempts[|attempts| - 1].retry && attempts[|attempts| - 1].heldAfter == made.held
    ensures Attempted(attempts + [made], responses, faults, others, start, made.end)
  {
    hide Trace, Swapped;
    var longer := attempts + [made];
    assert forall k :: 0 <= k < |attempts| ==> longer[k] == attempts[k];
  }
}
