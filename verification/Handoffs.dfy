/** Advisory locks on open-file descriptions, and the handoff of exclusive authority from a parent to
    the helper it starts, as steps that may interleave in any order. */
module Handoffs {
  import opened Text

  // ---- The kernel's view of the lock file ----

  datatype Mode = SharedLock | ExclusiveLock

  datatype Fd = LockFd | AuthorityFd

  datatype Handle = Handle(process: nat, fd: Fd)

  /** Which description each descriptor refers to, and which lock each description holds. */
  datatype Kernel = Kernel(table: map<Handle, nat>, locks: map<nat, Mode>)

  predicate Referenced(table: map<Handle, nat>, description: nat) {
    exists h :: h in table && table[h] == description
  }

  /** Closing the last reference to a description gives up its lock. */
  function Close(k: Kernel, h: Handle): Kernel
    requires h in k.table
  {
    var rest := k.table - {h};
    Kernel(rest, if Referenced(rest, k.table[h]) then k.locks else k.locks - {k.table[h]})
  }

  /** `LOCK_UN`: the description loses its lock, whoever else refers to it. */
  function Unlock(k: Kernel, h: Handle): Kernel
    requires h in k.table
  {
    k.(locks := k.locks - {k.table[h]})
  }

  function Duplicate(k: Kernel, h: Handle, copy: Handle): Kernel
    requires h in k.table
  {
    k.(table := k.table[copy := k.table[h]])
  }

  /** Whether a nonblocking lock on a new description succeeds. */
  predicate Grants(k: Kernel, mode: Mode) {
    forall d :: d in k.locks ==> mode == SharedLock && k.locks[d] == SharedLock
  }

  function Acquire(k: Kernel, process: nat, description: nat, mode: Mode): Kernel {
    Kernel(k.table[Handle(process, LockFd) := description], k.locks[description := mode])
  }

  /** The end of a process closes all it has open. */
  function Exit(k: Kernel, process: nat): Kernel {
    var rest := map h | h in k.table && h.process != process :: k.table[h];
    Kernel(rest, map d | d in k.locks && Referenced(rest, d) :: k.locks[d])
  }

  // ---- Parent, helper and the others ----

  const PARENT: nat := 0
  const HELPER: nat := 1
  /** The description the parent locked, and the helper inherits. */
  const SHARED: nat := 0

  datatype ParentPhase = Holding | Prepared | Forking | Awaiting | Reaping | HandedOff | ParentReleased | ParentGone

  datatype HelperPhase = Absent | Forked | Ready | Dying | Running | Accepted | Locked | HelperReleased | HelperGone

  /** `lockActive` is the parent's own record that it holds the lock. The write ends of the two pipes are
      kept per process: an empty set is end of file for the reader. */
  datatype State = State(kernel: Kernel, parent: ParentPhase, helper: HelperPhase, lockActive: bool,
                         signalWriters: set<nat>, statusWriters: set<nat>, statusByte: bool)

  /** The parent has just acquired the lock and nobody else has the file open. */
  function Start(): State {
    State(Acquire(Kernel(map[], map[]), PARENT, SHARED, ExclusiveLock), Holding, Absent, true, {}, {}, false)
  }

  datatype Step =
    | ParentPrepares
    | ParentGivesUp
    | ParentForks
    | ParentClosesCopies
    | ParentReadsByte
    | ParentReadsEnd
    | ParentReadFails
    | ParentReaps
    | ParentReleases
    | ParentExits
    | ChildSetsUp
    | ChildReportsFailure
    | ChildExecs
    | HelperAccepts
    | HelperTakesLock
    | HelperReleases
    | HelperExits
    | OtherAcquires(process: nat, mode: Mode)
    | OtherReleases(process: nat)

  /** What one step does, or None where it cannot happen. */
  function Next(s: State, step: Step): Option<State> {
    match step
    case ParentPrepares =>
      if s.parent == Holding && Handle(PARENT, LockFd) in s.kernel.table then
        Some(s.(kernel := Duplicate(s.kernel, Handle(PARENT, LockFd), Handle(PARENT, AuthorityFd)), parent := Prepared,
                signalWriters := {PARENT}, statusWriters := {PARENT}))
      else None
    case ParentGivesUp =>
      if s.parent == Prepared && Handle(PARENT, AuthorityFd) in s.kernel.table then
        Some(s.(kernel := Close(s.kernel, Handle(PARENT, AuthorityFd)), parent := Holding,
                signalWriters := {}, statusWriters := {}))
      else None
    case ParentForks =>
      if && s.parent == Prepared
         && Handle(PARENT, LockFd) in s.kernel.table && Handle(PARENT, AuthorityFd) in s.kernel.table
      then
        Some(s.(kernel := Duplicate(Duplicate(s.kernel, Handle(PARENT, LockFd), Handle(HELPER, LockFd)),
                                    Handle(PARENT, AuthorityFd), Handle(HELPER, AuthorityFd)),
                parent := Forking, helper := Forked,
                signalWriters := s.signalWriters + {HELPER}, statusWriters := s.statusWriters + {HELPER}))
      else None
    case ParentClosesCopies =>
      if s.parent == Forking && Handle(PARENT, AuthorityFd) in s.kernel.table then
        Some(s.(kernel := Close(s.kernel, Handle(PARENT, AuthorityFd)), parent := Awaiting,
                statusWriters := s.statusWriters - {PARENT}))
      else None
    case ParentReadsByte =>
      if s.parent == Awaiting && s.statusByte then
        Some(s.(parent := Reaping, signalWriters := s.signalWriters - {PARENT}))
      else None
    case ParentReadsEnd =>
      if s.parent == Awaiting && !s.statusByte && s.statusWriters == {} then
        Some(s.(parent := HandedOff, lockActive := false))
      else None
    case ParentReadFails =>
      if s.parent == Awaiting then
        Some(s.(parent := Reaping, signalWriters := s.signalWriters - {PARENT}))
      else None
    case ParentReaps =>
      if s.parent == Reaping && s.helper == HelperGone then
        Some(s.(parent := Holding, helper := Absent, statusByte := false))
      else None
    case ParentReleases =>
      if !s.lockActive && s.parent != ParentGone then Some(s)
      else if s.parent == Holding && Handle(PARENT, LockFd) in s.kernel.table then
        Some(s.(kernel := Close(Unlock(s.kernel, Handle(PARENT, LockFd)), Handle(PARENT, LockFd)),
                parent := ParentReleased, lockActive := false))
      else None
    case ParentExits =>
      if s.parent == ParentGone then None
      else
        Some(s.(kernel := Exit(s.kernel, PARENT), parent := ParentGone, lockActive := false,
                signalWriters := s.signalWriters - {PARENT}, statusWriters := s.statusWriters - {PARENT}))
    case ChildSetsUp =>
      if s.helper == Forked && Handle(HELPER, LockFd) in s.kernel.table then
        Some(s.(kernel := Close(s.kernel, Handle(HELPER, LockFd)), helper := Ready,
                signalWriters := s.signalWriters - {HELPER}))
      else None
    case ChildReportsFailure =>
      if s.helper == Ready then Some(s.(helper := Dying, statusByte := true)) else None
    case ChildExecs =>
      if s.helper == Ready then Some(s.(helper := Running, statusWriters := s.statusWriters - {HELPER})) else None
    case HelperAccepts =>
      if s.helper == Running && s.signalWriters == {} then Some(s.(helper := Accepted)) else None
    case HelperTakesLock =>
      if s.helper == Accepted then Some(s.(helper := Locked)) else None
    case HelperReleases =>
      if (s.helper == Accepted || s.helper == Locked) && Handle(HELPER, AuthorityFd) in s.kernel.table then
        Some(s.(kernel := Close(Unlock(s.kernel, Handle(HELPER, AuthorityFd)), Handle(HELPER, AuthorityFd)),
                helper := HelperReleased))
      else None
    case HelperExits =>
      if s.helper == Absent || s.helper == HelperGone then None
      else
        Some(s.(kernel := Exit(s.kernel, HELPER), helper := HelperGone,
                signalWriters := s.signalWriters - {HELPER}, statusWriters := s.statusWriters - {HELPER}))
    case OtherAcquires(process, mode) =>
      if process > HELPER && Handle(process, LockFd) !in s.kernel.table && Grants(s.kernel, mode) then
        Some(s.(kernel := Acquire(s.kernel, process, process, mode)))
      else None
    case OtherReleases(process) =>
      if process > HELPER && Handle(process, LockFd) in s.kernel.table then
        Some(s.(kernel := Close(Unlock(s.kernel, Handle(process, LockFd)), Handle(process, LockFd))))
      else None
  }

  /** A run: every step of it happened. */
  function Run(s: State, steps: seq<Step>): Option<State>
    decreases |steps|
  {
    if steps == [] then Some(s)
    else
      match Next(s, steps[0])
      case None => None
      case Some(t) => Run(t, steps[1..])
  }

  // ---- What must hold ----

  /** The parent or the helper still has a reference it has not released. */
  predicate AuthorityHeld(s: State) {
    exists h :: h in s.kernel.table && h.process <= HELPER
  }

  predicate OthersExcluded(s: State) {
    forall h :: h in s.kernel.table ==> h.process <= HELPER
  }

  /** While authority is held, the shared description is locked exclusively, no other process has the
      lock, and none can get it. */
  predicate NoGap(s: State) {
    AuthorityHeld(s) ==> s.kernel.locks == map[SHARED := ExclusiveLock] && OthersExcluded(s)
  }

  lemma NobodyElseAcquires(s: State, process: nat, mode: Mode)
    requires NoGap(s) && AuthorityHeld(s)
    ensures Next(s, OtherAcquires(process, mode)) == None
  {
    assert s.kernel.locks[SHARED] == ExclusiveLock;
  }

  /** Which descriptors, pipe ends and claims go with each phase. */
  predicate ParentShape(s: State) {
    && (Handle(PARENT, LockFd) in s.kernel.table <==> s.parent != ParentReleased && s.parent != ParentGone)
    && (Handle(PARENT, AuthorityFd) in s.kernel.table <==> s.parent == Prepared || s.parent == Forking)
    && (s.lockActive <==> s.parent != HandedOff && s.parent != ParentReleased && s.parent != ParentGone)
    && (PARENT in s.signalWriters <==>
          s.parent == Prepared || s.parent == Forking || s.parent == Awaiting || s.parent == HandedOff)
    && (PARENT in s.statusWriters <==> s.parent == Prepared || s.parent == Forking)
  }

  predicate HelperShape(s: State) {
    && (Handle(HELPER, LockFd) in s.kernel.table <==> s.helper == Forked)
    && (Handle(HELPER, AuthorityFd) in s.kernel.table <==>
          s.helper != Absent && s.helper != HelperReleased && s.helper != HelperGone)
    && (HELPER in s.signalWriters <==> s.helper == Forked)
    && (HELPER in s.statusWriters <==> s.helper == Forked || s.helper == Ready || s.helper == Dying)
    && (forall p :: p in s.signalWriters ==> p <= HELPER) && (forall p :: p in s.statusWriters ==> p <= HELPER)
    && (s.helper == Dying ==> s.statusByte)
    && (s.statusByte ==> s.helper == Dying || s.helper == HelperGone)
  }

  /** How far one side can be, given the other. */
  predicate PhasesAgree(s: State) {
    && (s.helper == Absent ==> s.parent in {Holding, Prepared, ParentReleased, ParentGone})
    && (s.parent in {Holding, Prepared, ParentReleased} ==> s.helper == Absent)
    && (s.parent == Reaping ==> s.helper in {Dying, HelperGone})
    && (s.parent == HandedOff ==> s.helper in {Running, HelperGone})
    && (s.helper in {Accepted, Locked, HelperReleased} ==> s.parent == ParentGone)
  }

  predicate TableShape(k: Kernel) {
    && (forall h :: h in k.table ==> k.table[h] == if h.process <= HELPER then SHARED else h.process)
    && (forall h :: h in k.table && h.process > HELPER ==> h.fd == LockFd && h.process in k.locks)
    && (forall d :: d in k.locks ==> Referenced(k.table, d))
  }

  predicate Inv(s: State) {
    TableShape(s.kernel) && ParentShape(s) && HelperShape(s) && PhasesAgree(s) && NoGap(s)
  }

  /** A failed read of the status pipe is harmless only if the child never got to run the helper. */
  predicate Harmless(s: State, step: Step) {
    step == ParentReadFails ==> s.helper == Dying || s.helper == HelperGone
  }

  lemma StartInv()
    ensures Inv(Start()) && Start().parent == Holding
  {
    assert Start().kernel.table[Handle(PARENT, LockFd)] == SHARED;
  }

  // ---- Steps that change descriptors ----

  lemma CopyKeepsKernel(k: Kernel, h: Handle, copy: Handle)
    requires TableShape(k) && h in k.table && h.process <= HELPER && copy.process <= HELPER
    ensures TableShape(Duplicate(k, h, copy))
  {
    var t := Duplicate(k, h, copy);
    forall d | d in t.locks ensures Referenced(t.table, d) {
      var g :| g in k.table && k.table[g] == d;
      if g == copy {
        assert t.table[copy] == k.table[h] == SHARED;
      } else {
        assert t.table[g] == d;
      }
    }
  }

  lemma CloseKeepsKernel(k: Kernel, h: Handle)
    requires TableShape(k) && h in k.table && h.process <= HELPER
    ensures TableShape(Close(k, h))
    ensures (forall g :: g in Close(k, h).table <==> g in k.table && g != h)
    ensures (exists g :: g in k.table && g != h && g.process <= HELPER) ==> Close(k, h).locks == k.locks
  {
    var t := Close(k, h);
    if g :| g in k.table && g != h && g.process <= HELPER {
      assert t.table[g] == SHARED;
      assert Referenced(t.table, SHARED);
    }
    forall d | d in t.locks ensures Referenced(t.table, d) {
      var g :| g in k.table && k.table[g] == d;
      if g != h {
        assert t.table[g] == d;
      }
    }
  }

  /** Releasing a reference that is the last one of its description. */
  lemma ReleaseKeepsKernel(k: Kernel, h: Handle)
    requires TableShape(k) && h in k.table && forall g :: g in k.table && g != h ==> k.table[g] != k.table[h]
    ensures TableShape(Close(Unlock(k, h), h))
    ensures forall g :: g in Close(Unlock(k, h), h).table <==> g in k.table && g != h
  {
    var t := Close(Unlock(k, h), h);
    forall d | d in t.locks ensures Referenced(t.table, d) {
      var g :| g in k.table && k.table[g] == d;
      assert t.table[g] == d;
    }
  }

  lemma ExitKeepsKernel(k: Kernel, process: nat)
    requires TableShape(k) && process <= HELPER
    ensures TableShape(Exit(k, process))
    ensures forall g :: g in Exit(k, process).table <==> g in k.table && g.process != process
    ensures && k.locks == map[SHARED := ExclusiveLock]
            && (exists g :: g in k.table && g.process <= HELPER && g.process != process)
            ==> Exit(k, process).locks == map[SHARED := ExclusiveLock]
  {
    var t := Exit(k, process);
    forall h | h in t.table && h.process > HELPER ensures h.process in t.locks {
      assert t.table[h] == h.process;
    }
    if g :| g in k.table && g.process <= HELPER && g.process != process {
      assert t.table[g] == SHARED;
      assert Referenced(t.table, SHARED);
    }
  }

  lemma ParentPrepareStep(s: State)
    requires Inv(s) && Next(s, ParentPrepares).Some?
    ensures Inv(Next(s, ParentPrepares).value)
  {
    hide Duplicate, TableShape, Referenced;
    var lock, authority := Handle(PARENT, LockFd), Handle(PARENT, AuthorityFd);
    assert AuthorityHeld(s);
    CopyKeepsKernel(s.kernel, lock, authority);
    CopyAdds(s.kernel, lock, authority);
  }

  lemma ParentForkStep(s: State)
    requires Inv(s) && Next(s, ParentForks).Some?
    ensures Inv(Next(s, ParentForks).value)
  {
    hide Duplicate, TableShape, Referenced;
    var lock, authority := Handle(PARENT, LockFd), Handle(PARENT, AuthorityFd);
    assert AuthorityHeld(s);
    CopyKeepsKernel(s.kernel, lock, Handle(HELPER, LockFd));
    CopyAdds(s.kernel, lock, Handle(HELPER, LockFd));
    var k := Duplicate(s.kernel, lock, Handle(HELPER, LockFd));
    CopyKeepsKernel(k, authority, Handle(HELPER, AuthorityFd));
    CopyAdds(k, authority, Handle(HELPER, AuthorityFd));
  }

  lemma ParentCloseStep(s: State, step: Step)
    requires Inv(s) && Next(s, step).Some? && (step == ParentGivesUp || step == ParentClosesCopies)
    ensures Inv(Next(s, step).value)
  {
    hide Close, TableShape, Referenced;
    assert Handle(PARENT, LockFd) in s.kernel.table && AuthorityHeld(s);
    CloseKeepsKernel(s.kernel, Handle(PARENT, AuthorityFd));
  }

  lemma CopyAdds(k: Kernel, h: Handle, copy: Handle)
    requires h in k.table
    ensures forall g :: g in Duplicate(k, h, copy).table <==> g in k.table || g == copy
    ensures Duplicate(k, h, copy).locks == k.locks
  {}

  lemma ParentPhaseStep(s: State, step: Step)
    requires Inv(s) && Next(s, step).Some? && Harmless(s, step)
    requires step in {ParentReadsByte, ParentReadsEnd, ParentReadFails, ParentReaps}
    ensures Inv(Next(s, step).value)
  {
    hide TableShape;
    assert Handle(PARENT, LockFd) in s.kernel.table;
  }

  lemma ParentLeaves(s: State, step: Step)
    requires Inv(s) && Next(s, step).Some? && step in {ParentReleases, ParentExits}
    ensures Inv(Next(s, step).value)
  {
    hide Close, Unlock, Exit, TableShape, Referenced;
    var k, lock := s.kernel, Handle(PARENT, LockFd);
    var t := Next(s, step).value;
    if step == ParentExits {
      ExitKeepsKernel(k, PARENT);
      if AuthorityHeld(t) {
        var h :| h in t.kernel.table && h.process <= HELPER;
        assert h in k.table && h.process != PARENT;
      }
    } else if s.lockActive {
      forall g | g in k.table && g.process <= HELPER ensures g == lock {
        HandleCases(g);
      }
      OnlyReference(s, lock);
      ReleaseKeepsKernel(k, lock);
    }
  }

  lemma HandleCases(h: Handle)
    requires h.process <= HELPER
    ensures h in {Handle(PARENT, LockFd), Handle(PARENT, AuthorityFd),
                  Handle(HELPER, LockFd), Handle(HELPER, AuthorityFd)}
  {
    match h.fd
    case LockFd =>
    case AuthorityFd =>
  }

  lemma OnlyReference(s: State, h: Handle)
    requires TableShape(s.kernel) && h in s.kernel.table && h.process <= HELPER
    requires forall g :: g in s.kernel.table && g.process <= HELPER ==> g == h
    ensures forall g :: g in s.kernel.table && g != h ==> s.kernel.table[g] != s.kernel.table[h]
  {}

  lemma HelperPhaseStep(s: State, step: Step)
    requires Inv(s) && Next(s, step).Some?
    requires step in {ChildReportsFailure, ChildExecs, HelperAccepts, HelperTakesLock}
    ensures Inv(Next(s, step).value)
  {
    hide TableShape;
    assert Handle(HELPER, AuthorityFd) in s.kernel.table;
    if step == HelperAccepts {
      assert PARENT !in s.signalWriters;
    }
  }

  lemma ChildClosesStep(s: State)
    requires Inv(s) && Next(s, ChildSetsUp).Some?
    ensures Inv(Next(s, ChildSetsUp).value)
  {
    hide Close, TableShape, Referenced;
    assert Handle(HELPER, AuthorityFd) in s.kernel.table && AuthorityHeld(s);
    CloseKeepsKernel(s.kernel, Handle(HELPER, LockFd));
  }

  lemma HelperReleaseStep(s: State)
    requires Inv(s) && Next(s, HelperReleases).Some?
    ensures Inv(Next(s, HelperReleases).value)
  {
    hide Close, Unlock, TableShape, Referenced;
    var authority := Handle(HELPER, AuthorityFd);
    forall g | g in s.kernel.table && g.process <= HELPER ensures g == authority {
      HandleCases(g);
    }
    OnlyReference(s, authority);
    ReleaseKeepsKernel(s.kernel, authority);
  }

  lemma HelperExitStep(s: State)
    requires Inv(s) && Next(s, HelperExits).Some?
    ensures Inv(Next(s, HelperExits).value)
  {
    hide Exit, TableShape, Referenced;
    var t := Next(s, HelperExits).value;
    ExitKeepsKernel(s.kernel, HELPER);
    if h :| h in t.kernel.table && h.process <= HELPER {
      assert h in s.kernel.table && h.process != HELPER;
    }
  }

  lemma OtherStep(s: State, step: Step)
    requires Inv(s) && Next(s, step).Some? && (step.OtherAcquires? || step.OtherReleases?)
    ensures Inv(Next(s, step).value)
  {
    var k, h := s.kernel, Handle(step.process, LockFd);
    var t := Next(s, step).value;
    if step.OtherAcquires? {
      if AuthorityHeld(s) {
        NobodyElseAcquires(s, step.process, step.mode);
      }
      forall d | d in t.kernel.locks ensures Referenced(t.kernel.table, d) {
        if d == step.process {
          assert t.kernel.table[h] == d;
        } else {
          var g :| g in k.table && k.table[g] == d;
          assert t.kernel.table[g] == d;
        }
      }
    } else {
      ReleaseKeepsKernel(k, h);
    }
  }

  /** Every harmless step keeps the invariant. */
  lemma StepKeepsInv(s: State, step: Step)
    requires Inv(s) && Next(s, step).Some? && Harmless(s, step)
    ensures Inv(Next(s, step).value)
  {
    hide Inv, Next;
    match step
    case ParentPrepares => ParentPrepareStep(s);
    case ParentGivesUp => ParentCloseStep(s, step);
    case ParentForks => ParentForkStep(s);
    case ParentClosesCopies => ParentCloseStep(s, step);
    case ParentReadsByte => ParentPhaseStep(s, step);
    case ParentReadsEnd => ParentPhaseStep(s, step);
    case ParentReadFails => ParentPhaseStep(s, step);
    case ParentReaps => ParentPhaseStep(s, step);
    case ParentReleases => ParentLeaves(s, step);
    case ParentExits => ParentLeaves(s, step);
    case ChildSetsUp => ChildClosesStep(s);
    case ChildReportsFailure => HelperPhaseStep(s, step);
    case ChildExecs => HelperPhaseStep(s, step);
    case HelperAccepts => HelperPhaseStep(s, step);
    case HelperTakesLock => HelperPhaseStep(s, step);
    case HelperReleases => HelperReleaseStep(s);
    case HelperExits => HelperExitStep(s);
    case OtherAcquires(process, mode) => OtherStep(s, step);
    case OtherReleases(process) => OtherStep(s, step);
  }

  // ---- Whole runs ----

  /** No step of the run reads the status pipe in vain while the child may still run the helper. */
  predicate HarmlessRun(s: State, steps: seq<Step>)
    decreases |steps|
  {
    || steps == []
    || (Harmless(s, steps[0]) && (Next(s, steps[0]).Some? ==> HarmlessRun(Next(s, steps[0]).value, steps[1..])))
  }

  lemma {:induction false} RunKeepsInv(s: State, steps: seq<Step>)
    requires Inv(s) && HarmlessRun(s, steps) && Run(s, steps).Some?
    ensures Inv(Run(s, steps).value)
    decreases |steps|
  {
    hide Inv, Next, Harmless;
    if steps != [] {
      StepKeepsInv(s, steps[0]);
      RunKeepsInv(Next(s, steps[0]).value, steps[1..]);
    }
  }

  /** The handoff has no gap: in every order of fork, failure, exit and helper steps, as long as the
      parent or the helper has an unreleased reference nobody else has the lock or can get it. */
  lemma HandoffHasNoGap(steps: seq<Step>, s: State, process: nat, mode: Mode)
    requires HarmlessRun(Start(), steps) && Run(Start(), steps) == Some(s)
    ensures NoGap(s)
    ensures AuthorityHeld(s) ==> Next(s, OtherAcquires(process, mode)) == None
  {
    StartInv();
    RunKeepsInv(Start(), steps);
    hide Next, Start;
    if AuthorityHeld(s) {
      NobodyElseAcquires(s, process, mode);
    }
  }

  /** Once the handoff is made, a release by the parent changes nothing at all. */
  lemma ParentReleaseIsNoOp(s: State)
    requires Inv(s) && s.parent == HandedOff
    ensures Next(s, ParentReleases) == Some(s)
  {}

  /** After the parent is gone, the helper that holds the authority is the only one who can give it up. */
  lemma HelperKeepsAuthority(s: State, step: Step)
    requires Inv(s) && Next(s, step).Some? && s.helper in {Running, Accepted, Locked}
    requires Harmless(s, step) && step != HelperReleases && step != HelperExits
    ensures AuthorityHeld(Next(s, step).value)
  {
    hide Inv, Next;
    StepKeepsInv(s, step);
    HelperPhaseMoves(s, step);
    HelperHasHandle(Next(s, step).value);
  }

  lemma HelperPhaseMoves(s: State, step: Step)
    requires Inv(s) && Next(s, step).Some? && s.helper in {Running, Accepted, Locked}
    requires step != HelperReleases && step != HelperExits
    ensures Next(s, step).value.helper in {Running, Accepted, Locked}
  {}

  lemma HelperHasHandle(s: State)
    requires Inv(s) && s.helper in {Running, Accepted, Locked}
    ensures AuthorityHeld(s)
  {
    assert Handle(HELPER, AuthorityFd) in s.kernel.table;
  }

  // ---- What can be done ----

  /** The phases in which a step of parent, child or helper is possible, and the phases after it. */
  function Moves(parent: ParentPhase, helper: HelperPhase, step: Step): Option<(ParentPhase, HelperPhase)> {
    match step
    case ParentPrepares => if parent == Holding then Some((Prepared, helper)) else None
    case ParentForks => if parent == Prepared then Some((Forking, Forked)) else None
    case ParentClosesCopies => if parent == Forking then Some((Awaiting, helper)) else None
    case ParentReadsEnd => if parent == Awaiting && helper == Running then Some((HandedOff, helper)) else None
    case ParentReadsByte => if parent == Awaiting && helper == Dying then Some((Reaping, helper)) else None
    case ParentReaps => if parent == Reaping && helper == HelperGone then Some((Holding, Absent)) else None
    case ParentExits => if parent != ParentGone then Some((ParentGone, helper)) else None
    case ChildSetsUp => if helper == Forked then Some((parent, Ready)) else None
    case ChildReportsFailure => if helper == Ready then Some((parent, Dying)) else None
    case ChildExecs => if helper == Ready then Some((parent, Running)) else None
    case HelperAccepts => if helper == Running && parent == ParentGone then Some((parent, Accepted)) else None
    case HelperTakesLock => if helper == Accepted then Some((parent, Locked)) else None
    case HelperReleases => if helper in {Accepted, Locked} then Some((parent, HelperReleased)) else None
    case HelperExits => if helper != Absent && helper != HelperGone then Some((parent, HelperGone)) else None
    case _ => None
  }

  /** In these phases the step can always be made, whatever else has happened. */
  lemma CanMove(s: State, step: Step)
    requires Inv(s) && Moves(s.parent, s.helper, step).Some?
    ensures Next(s, step).Some? && Inv(Next(s, step).value)
    ensures (Next(s, step).value.parent, Next(s, step).value.helper) == Moves(s.parent, s.helper, step).value
  {
    StepIsEnabled(s, step);
    hide Inv, Next;
    StepKeepsInv(s, step);
  }

  lemma StepIsEnabled(s: State, step: Step)
    requires Inv(s) && Moves(s.parent, s.helper, step).Some?
    ensures Next(s, step).Some? && Harmless(s, step)
    ensures (Next(s, step).value.parent, Next(s, step).value.helper) == Moves(s.parent, s.helper, step).value
  {
    hide TableShape, NoGap, Close, Unlock, Exit, Duplicate;
    NoWriters(s);
  }

  /** When a pipe has no writer left. */
  lemma NoWriters(s: State)
    requires HelperShape(s) && ParentShape(s)
    ensures s.parent in {Awaiting, HandedOff, ParentGone} && s.helper in {Running, Accepted, Locked} ==>
              s.statusWriters == {}
    ensures s.parent == ParentGone && s.helper != Forked ==> s.signalWriters == {}
  {}

  /** The phases along a run. */
  function MovesAlong(parent: ParentPhase, helper: HelperPhase, steps: seq<Step>): Option<(ParentPhase, HelperPhase)>
    decreases |steps|
  {
    if steps == [] then Some((parent, helper))
    else
      match Moves(parent, helper, steps[0])
      case None => None
      case Some((p, h)) => MovesAlong(p, h, steps[1..])
  }

  lemma {:induction false} CanMoveAlong(s: State, steps: seq<Step>)
    requires Inv(s) && MovesAlong(s.parent, s.helper, steps).Some?
    ensures Run(s, steps).Some? && Inv(Run(s, steps).value)
    ensures (Run(s, steps).value.parent, Run(s, steps).value.helper) == MovesAlong(s.parent, s.helper, steps).value
    decreases |steps|
  {
    hide Inv, Next, Moves;
    if steps != [] {
      CanMove(s, steps[0]);
      CanMoveAlong(Next(s, steps[0]).value, steps[1..]);
    }
  }

  const STARTING: seq<Step> := [ParentPrepares, ParentForks, ParentClosesCopies, ChildSetsUp]

  const HANDING_OVER: seq<Step> :=
    [ParentPrepares, ParentForks, ParentClosesCopies, ChildSetsUp, ChildExecs, ParentReadsEnd, ParentExits,
     HelperAccepts, HelperTakesLock]

  const FAILING_TO_START: seq<Step> :=
    [ParentPrepares, ParentForks, ParentClosesCopies, ChildSetsUp, ChildReportsFailure, ParentReadsByte, HelperExits,
     ParentReaps]

  /** The handoff can be made from any state in which the parent holds the lock: at its end the parent is
      gone and the helper has the authority, still exclusive. */
  lemma HandoffCanSucceed(s: State)
    requires Inv(s) && s.parent == Holding
    ensures Run(s, HANDING_OVER).Some?
    ensures var t := Run(s, HANDING_OVER).value;
            t.parent == ParentGone && t.helper == Locked && AuthorityHeld(t) && NoGap(t)
  {
    HandingOver();
    HolderHasNoHelper(s);
    hide Run, Next, MovesAlong;
    CanMoveAlong(s, HANDING_OVER);
    HelperHasHandle(Run(s, HANDING_OVER).value);
  }

  lemma AlongFirst(parent: ParentPhase, helper: HelperPhase, step: Step, rest: seq<Step>)
    ensures MovesAlong(parent, helper, [step] + rest)
         == match Moves(parent, helper, step) case None => None case Some((p, h)) => MovesAlong(p, h, rest)
  {
    assert ([step] + rest)[1..] == rest;
  }

  lemma Along(parent: ParentPhase, helper: HelperPhase)
    ensures MovesAlong(parent, helper, []) == Some((parent, helper))
  {}

  lemma Starting(rest: seq<Step>)
    ensures MovesAlong(Holding, Absent, STARTING + rest) == MovesAlong(Awaiting, Ready, rest)
  {
    hide MovesAlong;
    var a := [ChildSetsUp] + rest;
    var b := [ParentClosesCopies] + a;
    var c := [ParentForks] + b;
    AlongFirst(Holding, Absent, ParentPrepares, c);
    AlongFirst(Prepared, Absent, ParentForks, b);
    AlongFirst(Forking, Forked, ParentClosesCopies, a);
    AlongFirst(Awaiting, Forked, ChildSetsUp, rest);
    assert STARTING + rest == [ParentPrepares] + c;
  }

  lemma HandingOver()
    ensures MovesAlong(Holding, Absent, HANDING_OVER) == Some((ParentGone, Locked))
  {
    hide MovesAlong;
    var a := [HelperTakesLock] + [];
    var b := [HelperAccepts] + a;
    var c := [ParentExits] + b;
    var d := [ParentReadsEnd] + c;
    AlongFirst(Awaiting, Ready, ChildExecs, d);
    AlongFirst(Awaiting, Running, ParentReadsEnd, c);
    AlongFirst(HandedOff, Running, ParentExits, b);
    AlongFirst(ParentGone, Running, HelperAccepts, a);
    AlongFirst(ParentGone, Accepted, HelperTakesLock, []);
    Along(ParentGone, Locked);
    Starting([ChildExecs] + d);
    assert HANDING_OVER == STARTING + ([ChildExecs] + d);
  }

  lemma FailingToStart()
    ensures MovesAlong(Holding, Absent, FAILING_TO_START) == Some((Holding, Absent))
  {
    hide MovesAlong;
    var a := [ParentReaps] + [];
    var b := [HelperExits] + a;
    var c := [ParentReadsByte] + b;
    AlongFirst(Awaiting, Ready, ChildReportsFailure, c);
    AlongFirst(Awaiting, Dying, ParentReadsByte, b);
    AlongFirst(Reaping, Dying, HelperExits, a);
    AlongFirst(Reaping, HelperGone, ParentReaps, []);
    Along(Holding, Absent);
    Starting([ChildReportsFailure] + c);
    assert FAILING_TO_START == STARTING + ([ChildReportsFailure] + c);
  }

  /** A child that cannot run the helper says so, and the parent is back where it was: it alone has the lock. */
  lemma FailedStartReturns(s: State)
    requires Inv(s) && s.parent == Holding
    ensures Run(s, FAILING_TO_START).Some?
    ensures var t := Run(s, FAILING_TO_START).value;
            t.parent == Holding && t.helper == Absent && t.lockActive && NoGap(t) && AuthorityHeld(t)
  {
    FailingToStart();
    HolderHasNoHelper(s);
    hide Run, Next, MovesAlong;
    CanMoveAlong(s, FAILING_TO_START);
    HolderHasNoHelper(Run(s, FAILING_TO_START).value);
  }

  /** Once the helper has released the authority, anyone can take the lock, in either mode. */
  lemma LockIsFreeAfterwards(s: State, process: nat, mode: Mode)
    requires Inv(s) && s.helper in {Accepted, Locked} && process > HELPER
    ensures Next(s, HelperReleases).Some?
    ensures Next(Next(s, HelperReleases).value, OtherAcquires(process, mode)).Some?
  {
    CanMove(s, HelperReleases);
    HelperHasHandle(s);
    var t := Next(s, HelperReleases).value;
    ReleasedIsEmpty(s);
  }

  /** Readers share the lock: while one has it, another can have it too, but nobody alone. */
  lemma ReadersShare(s: State, reader: nat, other: nat)
    requires Next(s, OtherAcquires(reader, SharedLock)).Some?
    requires other > HELPER && other != reader && Handle(other, LockFd) !in s.kernel.table
    ensures var t := Next(s, OtherAcquires(reader, SharedLock)).value;
            Next(t, OtherAcquires(other, SharedLock)).Some? && Next(t, OtherAcquires(other, ExclusiveLock)) == None
  {
    var t := Next(s, OtherAcquires(reader, SharedLock)).value;
    assert t.kernel.locks[reader] == SharedLock;
  }

  lemma ReleasedIsEmpty(s: State)
    requires Inv(s) && s.helper in {Accepted, Locked} && Next(s, HelperReleases).Some?
    ensures var k := Next(s, HelperReleases).value.kernel; k.locks == map[] && k.table == map[]
  {
    assert Handle(HELPER, AuthorityFd) in s.kernel.table;
    assert AuthorityHeld(s);
    forall h | h in s.kernel.table ensures h == Handle(HELPER, AuthorityFd) {
      HandleCases(h);
    }
  }

  lemma HolderHasNoHelper(s: State)
    requires Inv(s) && s.parent == Holding
    ensures s.helper == Absent && s.lockActive && AuthorityHeld(s)
  {
    assert Handle(PARENT, LockFd) in s.kernel.table;
  }

  // ---- When the status read fails ----

  /** What is left for the child to do before it runs the helper. */
  function Onward(helper: HelperPhase): seq<Step> {
    if helper == Forked then [ChildSetsUp, ChildExecs] else if helper == Ready then [ChildExecs] else []
  }

  /** The parent still claims the lock and refers to it, and yet another process has it. */
  predicate Gap(s: State) {
    && s.lockActive && Handle(PARENT, LockFd) in s.kernel.table
    && exists h :: h in s.kernel.table && h.process > HELPER && h.process in s.kernel.locks
  }

  const LATECOMER: nat := 2

  /** The steps that open the gap once the parent has given up on a child that still runs. */
  function GapSteps(helper: HelperPhase): seq<Step> {
    Onward(helper) + [HelperAccepts, HelperReleases, OtherAcquires(LATECOMER, ExclusiveLock)]
  }

  /** The parent has stopped waiting while the child lives on. */
  predicate GivenUp(s: State) {
    && s.parent == Reaping && s.helper in {Forked, Ready, Running} && s.lockActive
    && TableShape(s.kernel) && s.kernel.locks == map[SHARED := ExclusiveLock] && OthersExcluded(s)
    && Handle(PARENT, LockFd) in s.kernel.table && Handle(HELPER, AuthorityFd) in s.kernel.table
    && (s.helper == Forked ==> Handle(HELPER, LockFd) in s.kernel.table)
    && s.signalWriters == (if s.helper == Forked then {HELPER} else {})
  }

  lemma RunFirst(s: State, step: Step, rest: seq<Step>)
    ensures Run(s, [step] + rest) == match Next(s, step) case None => None case Some(t) => Run(t, rest)
  {
    assert ([step] + rest)[1..] == rest;
  }

  lemma GivenUpOpensGap(s: State)
    requires GivenUp(s)
    ensures Run(s, GapSteps(s.helper)).Some? && Gap(Run(s, GapSteps(s.helper)).value)
    decreases if s.helper == Forked then 2 else if s.helper == Ready then 1 else 0
  {
    hide Run, Close, Unlock, TableShape, Gap;
    if s.helper == Forked {
      CloseKeepsKernel(s.kernel, Handle(HELPER, LockFd));
      var t := Next(s, ChildSetsUp).value;
      GivenUpOpensGap(t);
      assert GapSteps(Forked) == [ChildSetsUp] + GapSteps(Ready);
      RunFirst(s, ChildSetsUp, GapSteps(Ready));
    } else if s.helper == Ready {
      var t := Next(s, ChildExecs).value;
      GivenUpOpensGap(t);
      assert GapSteps(Ready) == [ChildExecs] + GapSteps(Running);
      RunFirst(s, ChildExecs, GapSteps(Running));
    } else {
      RunningOpensGap(s);
    }
  }

  lemma RunningOpensGap(s: State)
    requires GivenUp(s) && s.helper == Running
    ensures Run(s, GapSteps(Running)).Some? && Gap(Run(s, GapSteps(Running)).value)
  {
    var last := OtherAcquires(LATECOMER, ExclusiveLock);
    var a := Next(s, HelperAccepts).value;
    var b := Next(a, HelperReleases).value;
    ReleaseLosesLock(s.kernel);
    assert Next(b, last).Some?;
    var c := Next(b, last).value;
    assert Handle(LATECOMER, LockFd) in c.kernel.table;
    hide Run, Next;
    RunFirst(s, HelperAccepts, [HelperReleases, last]);
    RunFirst(a, HelperReleases, [last]);
    RunFirst(b, last, []);
    RunNothing(c);
    assert GapSteps(Running) == [HelperAccepts] + [HelperReleases, last]
             && [HelperReleases, last] == [HelperReleases] + [last];
    assert [last] == [last] + [];
  }

  lemma RunNothing(s: State)
    ensures Run(s, []) == Some(s)
  {}

  /** The helper's unlock takes the lock from the shared description although the parent still refers to it. */
  lemma ReleaseLosesLock(k: Kernel)
    requires TableShape(k) && k.locks == map[SHARED := ExclusiveLock]
    requires Handle(PARENT, LockFd) in k.table && Handle(HELPER, AuthorityFd) in k.table
    ensures var after := Close(Unlock(k, Handle(HELPER, AuthorityFd)), Handle(HELPER, AuthorityFd));
            after.locks == map[] && after.table == k.table - {Handle(HELPER, AuthorityFd)}
  {}

  lemma {:induction false} NoFailedReads(s: State, steps: seq<Step>)
    requires forall i :: 0 <= i < |steps| ==> steps[i] != ParentReadFails
    ensures HarmlessRun(s, steps)
    decreases |steps|
  {
    hide Next;
    if steps != [] && Next(s, steps[0]).Some? {
      NoFailedReads(Next(s, steps[0]).value, steps[1..]);
    }
  }

  /** Exactly when the handoff is safe: a step keeps every later harmless run free of gaps if and only if
      it is not a failed status read that leaves a child still on its way to run the helper. */
  lemma GapIffStatusReadFails(s: State, step: Step)
    requires Inv(s) && Next(s, step).Some?
    ensures Harmless(s, step) <==>
              forall steps :: HarmlessRun(Next(s, step).value, steps) && Run(Next(s, step).value, steps).Some?
                              ==> NoGap(Run(Next(s, step).value, steps).value)
  {
    var t := Next(s, step).value;
    if Harmless(s, step) {
      StepKeepsInv(s, step);
      hide Next, Harmless;
      forall steps | HarmlessRun(t, steps) && Run(t, steps).Some? ensures NoGap(Run(t, steps).value) {
        RunKeepsInv(t, steps);
      }
    } else {
      FailedReadGivesUp(s);
      var steps := GapSteps(t.helper);
      GivenUpOpensGap(t);
      hide Run, Next, HarmlessRun;
      NoFailedReads(t, steps);
      GapIsNoNoGap(Run(t, steps).value);
    }
  }

  /** The whole failing run, from a parent that has just acquired the lock: it forks the child, its read
      of the status pipe fails, the child runs the helper all the same, and the lock is lost. */
  const FAILING_RUN: seq<Step> := [ParentPrepares, ParentForks, ParentClosesCopies, ParentReadFails] + GapSteps(Forked)

  lemma StatusReadFailureOpensGap()
    ensures Run(Start(), FAILING_RUN).Some? && Gap(Run(Start(), FAILING_RUN).value)
  {
    hide Run, Next, Gap, Start, GapSteps, Inv, GivenUp;
    StartInv();
    var a := ParentMoves(Start(), ParentPrepares);
    var b := ParentMoves(a, ParentForks);
    var c := ParentMoves(b, ParentClosesCopies);
    FailedReadGivesUp(c);
    var d := Next(c, ParentReadFails).value;
    GivenUpOpensGap(d);
    var rest := GapSteps(Forked);
    RunFirst(c, ParentReadFails, rest);
    RunFirst(b, ParentClosesCopies, [ParentReadFails] + rest);
    RunFirst(a, ParentForks, [ParentClosesCopies] + ([ParentReadFails] + rest));
    RunFirst(Start(), ParentPrepares, [ParentForks] + ([ParentClosesCopies] + ([ParentReadFails] + rest)));
    assert FAILING_RUN
        == [ParentPrepares] + ([ParentForks] + ([ParentClosesCopies] + ([ParentReadFails] + rest)));
  }

  /** The parent's steps up to waiting for the child are always possible. */
  lemma ParentMoves(s: State, step: Step) returns (t: State)
    requires Inv(s)
    requires || (step == ParentPrepares && s.parent == Holding)
             || (step == ParentForks && s.parent == Prepared)
             || (step == ParentClosesCopies && s.parent == Forking)
    ensures Next(s, step) == Some(t) && Inv(t)
    ensures step == ParentPrepares ==> t.parent == Prepared
    ensures step == ParentForks ==> t.parent == Forking && t.helper == Forked
    ensures step == ParentClosesCopies ==> t.parent == Awaiting && t.helper == s.helper
  {
    hide TableShape, HelperShape, PhasesAgree, NoGap;
    t := Next(s, step).value;
    hide Next, Inv;
    StepKeepsInv(s, step);
  }

  lemma FailedReadGivesUp(s: State)
    requires Inv(s) && s.parent == Awaiting && s.helper != Dying && s.helper != HelperGone
    ensures Next(s, ParentReadFails).Some? && GivenUp(Next(s, ParentReadFails).value)
    ensures Next(s, ParentReadFails).value.helper == s.helper
  {
    assert Handle(PARENT, LockFd) in s.kernel.table && AuthorityHeld(s);
    var t := Next(s, ParentReadFails).value;
    assert t.signalWriters == if s.helper == Forked then {HELPER} else {};
  }

  lemma GapIsNoNoGap(s: State)
    requires Gap(s)
    ensures !NoGap(s)
  {
    assert AuthorityHeld(s);
  }
}
