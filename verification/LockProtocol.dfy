/** The lock protocol under concurrency.  Runs are coroutines of one event loop: the running one keeps
    the loop until it awaits.  A step is one statement that touches the lock registry, the sessions'
    held sets, or the loop.  Returning, failing and being cancelled all leave the body the same way. */
module LockProtocol {
  import opened Wrappers
  import Tables

  type Tenant = Tables.Tenant
  type Pid = nat
  type SessionId = nat

  /** Who runs, and whether it opened the root transaction of its session or only a savepoint. */
  datatype Kind = PipelineOwned | PipelineNested | ManualOwned | ManualNested | Scheduled {
    predicate OwnsTransaction() {
      PipelineOwned? || ManualOwned? || Scheduled?
    }
  }

  /** Where a run stands: before the lock is tried; refused by it; in the locked body; leaving the
      transaction scope; in its `finally` block; over. */
  datatype Phase = Waiting | Refused | Body | Unwinding | Finally | Over

  /** `ended` says that the root transaction around the run is over. */
  datatype Proc = Proc(kind: Kind, session: SessionId, tenant: Tenant, phase: Phase, ended: bool) {
    predicate Live() {
      !phase.Over?
    }

    /** Between the acquire and the first of its two releases. */
    predicate Holds() {
      phase.Body? || phase.Unwinding? || (phase.Finally? && !kind.OwnsTransaction())
    }

    /** The hook released its lock; the explicit release is still to come. */
    predicate GaveLockBack() {
      phase.Finally? && kind.OwnsTransaction()
    }

    /** In the middle of a segment without awaits. */
    predicate MidSegment() {
      phase.Refused? || phase.Unwinding? || phase.Finally?
    }
  }

  datatype State = State(
    locked: set<Tenant>,
    held: map<SessionId, set<Tenant>>,
    procs: map<Pid, Proc>,
    running: Option<Pid>)

  datatype Step =
    | Spawn(p: Pid, kind: Kind, session: SessionId, tenant: Tenant)
    | Resume(p: Pid)
    | Suspend(p: Pid)      // an await in the body
    | Cancel(p: Pid)       // before the run opened a transaction
    | TryLock(p: Pid)
    | LeaveBody(p: Pid)    // normally, by an exception, or by a cancellation
    | ExitScope(p: Pid)    // with the hook at the end of a root transaction
    | MarkFailure(p: Pid)  // the short transaction of the failure marker, with its own hook
    | Release(p: Pid)      // the explicit release in `finally`
    | EndOuter(session: SessionId) // the caller's transaction around a savepoint ends

  function Held(s: State, session: SessionId): set<Tenant> {
    if session in s.held then s.held[session] else {}
  }

  predicate SessionIdle(s: State, session: SessionId) {
    forall p :: p in s.procs && s.procs[p].session == session ==> !s.procs[p].Live()
  }

  predicate RunningIn(s: State, p: Pid, phase: Phase) {
    s.running == Some(p) && p in s.procs && s.procs[p].phase == phase
  }

  /** With `preemptive`, a run may be taken off the loop between any two statements. */
  predicate Enabled(s: State, step: Step, preemptive: bool) {
    match step
    case Spawn(p, _, session, _) => p !in s.procs && SessionIdle(s, session)
    case Resume(p) =>
      p in s.procs && s.procs[p].Live()
      && (preemptive || (s.running.None? && (s.procs[p].phase.Waiting? || s.procs[p].phase.Body?)))
    case Suspend(p) => RunningIn(s, p, Body)
    case Cancel(p) => RunningIn(s, p, Waiting)
    case TryLock(p) => RunningIn(s, p, Waiting)
    case LeaveBody(p) => RunningIn(s, p, Body)
    case ExitScope(p) => RunningIn(s, p, Unwinding) || RunningIn(s, p, Refused)
    case MarkFailure(p) => RunningIn(s, p, Finally) && s.procs[p].kind.PipelineOwned?
    case Release(p) => RunningIn(s, p, Finally)
    case EndOuter(session) => s.running.None? && SessionIdle(s, session)
  }

  /** The hook of a root transaction: the session's locks go, and its bookkeeping with them. */
  function Hooked(s: State, session: SessionId): State {
    s.(locked := s.locked - Held(s, session), held := s.held[session := {}])
  }

  function InPhase(s: State, p: Pid, phase: Phase): State
    requires p in s.procs
  {
    s.(procs := s.procs[p := s.procs[p].(phase := phase)])
  }

  /** The transaction around the runs of a session ends: a caller's, or that of the one run owning it. */
  function Ended(s: State, session: SessionId): State {
    s.(procs := map p | p in s.procs :: s.procs[p].(ended := s.procs[p].ended || s.procs[p].session == session))
  }

  function ScopeLeft(s: State, p: Pid): State
    requires p in s.procs
  {
    var left := if s.procs[p].kind.OwnsTransaction() then Hooked(s, s.procs[p].session) else s;
    if s.procs[p].phase.Refused? then InPhase(left, p, Over).(running := None) else InPhase(left, p, Finally)
  }

  function Next(s: State, step: Step): State
    requires Enabled(s, step, true)
  {
    match step
    case Spawn(p, kind, session, tenant) =>
      s.(procs := s.procs[p := Proc(kind, session, tenant, Waiting, false)])
    case Resume(p) => s.(running := Some(p))
    case Suspend(p) => s.(running := None)
    case Cancel(p) => InPhase(s, p, Over).(running := None)
    case TryLock(p) =>
      var tenant, session := s.procs[p].tenant, s.procs[p].session;
      if tenant in s.locked then InPhase(s, p, Refused)
      else InPhase(s, p, Body).(locked := s.locked + {tenant},
                                held := s.held[session := Held(s, session) + {tenant}])
    case LeaveBody(p) => InPhase(s, p, Unwinding)
    case ExitScope(p) =>
      if s.procs[p].kind.OwnsTransaction() then Ended(ScopeLeft(s, p), s.procs[p].session) else ScopeLeft(s, p)
    case MarkFailure(p) => Hooked(s, s.procs[p].session)
    case Release(p) =>
      var proc := s.procs[p];
      var held := if proc.kind.Scheduled? then s.held
                  else s.held[proc.session := Held(s, proc.session) - {proc.tenant}];
      InPhase(s, p, Over).(locked := s.locked - {proc.tenant}, held := held, running := None)
    case EndOuter(session) => Ended(Hooked(s, session), session)
  }

  const START := State({}, map[], map[], None)

  /** A schedule: the steps the event loop takes, from the start. */
  predicate Possible(schedule: seq<Step>, preemptive: bool) {
    schedule != [] ==>
      var n := |schedule| - 1;
      Possible(schedule[..n], preemptive) && Enabled(After(schedule[..n]), schedule[n], preemptive)
  }

  function After(schedule: seq<Step>): State {
    if schedule == [] then START
    else
      var n := |schedule| - 1;
      var s := After(schedule[..n]);
      if Enabled(s, schedule[n], true) then Next(s, schedule[n]) else s
  }

  // ---- The invariant ----

  ghost predicate HolderOf(s: State, p: Pid, tenant: Tenant) {
    p in s.procs && s.procs[p].Holds() && s.procs[p].tenant == tenant
  }

  predicate LiveTogether(p: Proc, q: Proc) {
    p.Live() && q.Live() && p.session == q.session
  }

  /** Locks and held sets are exactly those of the runs between acquire and release, at most one such
      run per tenant. */
  ghost predicate LocksMatch(s: State) {
    && (forall t :: t in s.locked <==> exists p :: HolderOf(s, p, t))
    && (forall session, t :: t in Held(s, session) <==> exists p :: HolderOf(s, p, t) && s.procs[p].session == session)
    && (forall p, q, t :: HolderOf(s, p, t) && HolderOf(s, q, t) ==> p == q)
  }

  /** A run in the middle of a segment has the loop; a session is used by one live run at a time; and
      the tenant of a run that already gave its lock back is not locked by anybody. */
  ghost predicate SegmentsAreExclusive(s: State) {
    && (forall p :: p in s.procs && s.procs[p].MidSegment() ==> s.running == Some(p))
    && (forall p, q :: p in s.procs && q in s.procs && LiveTogether(s.procs[p], s.procs[q]) ==> p == q)
    && (forall p :: p in s.procs && s.procs[p].GaveLockBack() ==> s.procs[p].tenant !in s.locked)
  }

  ghost predicate Inv(s: State) {
    LocksMatch(s) && SegmentsAreExclusive(s)
  }

  /** A step of one run that leaves locks, held sets and holders alone. */
  lemma HoldersStay(s: State, s': State)
    requires LocksMatch(s) && s'.locked == s.locked
    requires forall session :: Held(s', session) == Held(s, session)
    requires forall q, t :: HolderOf(s', q, t) <==> HolderOf(s, q, t)
    requires forall q, t :: HolderOf(s, q, t) ==> q in s'.procs && s'.procs[q].session == s.procs[q].session
    ensures LocksMatch(s')
  {
    forall t ensures t in s'.locked <==> exists p :: HolderOf(s', p, t) {
      if p :| HolderOf(s, p, t) { assert HolderOf(s', p, t); }
    }
    forall session, t
      ensures t in Held(s', session) <==> exists p :: HolderOf(s', p, t) && s'.procs[p].session == session
    {
      if p :| HolderOf(s, p, t) && s.procs[p].session == session { assert HolderOf(s', p, t); }
    }
  }

  /** The rest of the runs is the same in both states. */
  ghost predicate OthersStay(s: State, s': State, p: Pid) {
    p in s.procs && p in s'.procs && s'.procs == s.procs[p := s'.procs[p]]
  }

  lemma HolderJoins(s: State, s': State, p: Pid)
    requires LocksMatch(s) && OthersStay(s, s', p)
    requires !s.procs[p].Holds() && s'.procs[p].Holds() && s.procs[p].tenant !in s.locked
    requires s'.procs[p].tenant == s.procs[p].tenant && s'.procs[p].session == s.procs[p].session
    requires s'.locked == s.locked + {s.procs[p].tenant}
    requires s'.held == s.held[s.procs[p].session := Held(s, s.procs[p].session) + {s.procs[p].tenant}]
    ensures LocksMatch(s')
  {
    var tenant, mine := s.procs[p].tenant, s.procs[p].session;
    forall q, t ensures HolderOf(s', q, t) <==> HolderOf(s, q, t) || (q == p && t == tenant) {}
    forall t ensures t in s'.locked <==> exists q :: HolderOf(s', q, t) {
      if t == tenant { assert HolderOf(s', p, t); }
      if q :| HolderOf(s, q, t) { assert HolderOf(s', q, t); }
    }
    forall session, t
      ensures t in Held(s', session) <==> exists q :: HolderOf(s', q, t) && s'.procs[q].session == session
    {
      assert t in Held(s', session) <==> t in Held(s, session) || (t == tenant && session == mine);
      if t == tenant && session == mine { assert HolderOf(s', p, t); }
      if q :| HolderOf(s, q, t) && s.procs[q].session == session { assert HolderOf(s', q, t); }
    }
  }

  lemma HolderLeaves(s: State, s': State, p: Pid)
    requires LocksMatch(s) && OthersStay(s, s', p)
    requires s.procs[p].Holds() && !s'.procs[p].Holds()
    requires s'.locked == s.locked - {s.procs[p].tenant}
    requires s'.held == s.held[s.procs[p].session := Held(s, s.procs[p].session) - {s.procs[p].tenant}]
    ensures LocksMatch(s')
  {
    var tenant, mine := s.procs[p].tenant, s.procs[p].session;
    assert HolderOf(s, p, tenant);
    forall q, t ensures HolderOf(s', q, t) <==> HolderOf(s, q, t) && q != p {}
    forall q, t | HolderOf(s, q, t) && q != p ensures t != tenant {}
    forall t ensures t in s'.locked <==> exists q :: HolderOf(s', q, t) {
      if q :| HolderOf(s, q, t) && t != tenant { assert HolderOf(s', q, t); }
    }
    forall session, t
      ensures t in Held(s', session) <==> exists q :: HolderOf(s', q, t) && s'.procs[q].session == session
    {
      assert t in Held(s', session) <==> t in Held(s, session) && !(t == tenant && session == mine);
      if q :| HolderOf(s, q, t) && s.procs[q].session == session && q != p { assert HolderOf(s', q, t); }
    }
  }

  /** Only its own run can have put a lock into a live run's session. */
  lemma HeldByOwnRun(s: State, p: Pid)
    requires Inv(s) && p in s.procs && s.procs[p].Live()
    ensures Held(s, s.procs[p].session) == if s.procs[p].Holds() then {s.procs[p].tenant} else {}
  {
    var session, tenant := s.procs[p].session, s.procs[p].tenant;
    forall t ensures t in Held(s, session) <==> s.procs[p].Holds() && t == tenant {
      if q :| HolderOf(s, q, t) && s.procs[q].session == session { assert q == p; }
      if s.procs[p].Holds() && t == tenant { assert HolderOf(s, p, t); }
    }
  }

  lemma TryLockKeepsInv(s: State, p: Pid)
    requires Inv(s) && Enabled(s, TryLock(p), false)
    ensures Inv(Next(s, TryLock(p)))
  {
    hide LocksMatch;
    var s' := Next(s, TryLock(p));
    if s.procs[p].tenant !in s.locked {
      HolderJoins(s, s', p);
    } else {
      HoldersStay(s, s');
    }
  }

  predicate IsLoopStep(step: Step) {
    step.Spawn? || step.Resume? || step.Suspend? || step.Cancel? || step.LeaveBody?
  }

  lemma LoopStepKeepsInv(s: State, step: Step)
    requires Inv(s) && Enabled(s, step, false) && IsLoopStep(step)
    ensures Inv(Next(s, step))
  {
    LoopStepKeepsSegments(s, step);
    hide LocksMatch, SegmentsAreExclusive;
    HoldersStay(s, Next(s, step));
  }

  lemma LoopStepKeepsSegments(s: State, step: Step)
    requires SegmentsAreExclusive(s) && Enabled(s, step, false) && IsLoopStep(step)
    ensures SegmentsAreExclusive(Next(s, step))
  {}

  lemma EndedKeepsInv(s: State, session: SessionId)
    requires Inv(s)
    ensures Inv(Ended(s, session))
  {
    hide LocksMatch;
    HoldersStay(s, Ended(s, session));
  }

  lemma ExitScopeKeepsInv(s: State, p: Pid)
    requires Inv(s) && Enabled(s, ExitScope(p), false)
    ensures Inv(Next(s, ExitScope(p)))
  {
    hide Inv, ScopeLeft, Ended, Next;
    ScopeLeftKeepsInv(s, p);
    AfterExit(s, p);
    EndedKeepsInv(ScopeLeft(s, p), s.procs[p].session);
  }

  lemma AfterExit(s: State, p: Pid)
    requires Enabled(s, ExitScope(p), true)
    ensures Next(s, ExitScope(p)) == ScopeLeft(s, p) || Next(s, ExitScope(p)) == Ended(ScopeLeft(s, p), s.procs[p].session)
  {
    hide ScopeLeft, Ended;
  }

  lemma ScopeLeftKeepsInv(s: State, p: Pid)
    requires Inv(s) && Enabled(s, ExitScope(p), false)
    ensures Inv(ScopeLeft(s, p))
  {
    HeldByOwnRun(s, p);
    hide LocksMatch, SegmentsAreExclusive, ScopeLeft;
    ScopeLeftKeepsSegments(s, p);
    if s.procs[p].Holds() && s.procs[p].kind.OwnsTransaction() {
      HookReleases(s, p);
    } else {
      ScopeLeftKeepsLocks(s, p);
    }
  }

  lemma HookReleases(s: State, p: Pid)
    requires LocksMatch(s) && Enabled(s, ExitScope(p), false)
    requires s.procs[p].Holds() && s.procs[p].kind.OwnsTransaction()
    requires Held(s, s.procs[p].session) == {s.procs[p].tenant}
    ensures LocksMatch(ScopeLeft(s, p))
  {
    hide LocksMatch;
    assert Held(s, s.procs[p].session) - {s.procs[p].tenant} == {};
    HolderLeaves(s, ScopeLeft(s, p), p);
  }

  lemma ScopeLeftKeepsLocks(s: State, p: Pid)
    requires LocksMatch(s) && Enabled(s, ExitScope(p), false)
    requires !s.procs[p].Holds() || !s.procs[p].kind.OwnsTransaction()
    requires !s.procs[p].Holds() ==> Held(s, s.procs[p].session) == {}
    ensures LocksMatch(ScopeLeft(s, p))
  {
    hide LocksMatch;
    HoldersStay(s, ScopeLeft(s, p));
  }

  lemma ScopeLeftKeepsSegments(s: State, p: Pid)
    requires SegmentsAreExclusive(s) && Enabled(s, ExitScope(p), false)
    requires s.procs[p].Holds() ==> s.procs[p].tenant in Held(s, s.procs[p].session)
    ensures SegmentsAreExclusive(ScopeLeft(s, p))
  {
    assert ScopeLeft(s, p).locked <= s.locked;
    assert ScopeLeft(s, p).procs.Keys == s.procs.Keys;
  }

  lemma ReleaseKeepsInv(s: State, p: Pid)
    requires Inv(s) && Enabled(s, Release(p), false)
    ensures Inv(Next(s, Release(p)))
  {
    HeldByOwnRun(s, p);
    ReleaseKeepsSegments(s, p);
    hide LocksMatch, SegmentsAreExclusive;
    var s' := Next(s, Release(p));
    if s.procs[p].kind.OwnsTransaction() {
      assert s.procs[p].tenant !in s.locked by { AlreadyFree(s, p); }
      HoldersStay(s, s');
    } else {
      HolderLeaves(s, s', p);
    }
  }

  lemma AlreadyFree(s: State, p: Pid)
    requires SegmentsAreExclusive(s) && p in s.procs && s.procs[p].GaveLockBack()
    ensures s.procs[p].tenant !in s.locked
  {}

  lemma ReleaseKeepsSegments(s: State, p: Pid)
    requires SegmentsAreExclusive(s) && Enabled(s, Release(p), false)
    ensures SegmentsAreExclusive(Next(s, Release(p)))
  {}

  lemma HookKeepsInv(s: State, session: SessionId)
    requires Inv(s) && Held(s, session) == {}
    ensures Inv(Hooked(s, session))
  {
    hide LocksMatch;
    HoldersStay(s, Hooked(s, session));
  }

  lemma IdleSessionHoldsNothing(s: State, session: SessionId)
    requires Inv(s) && SessionIdle(s, session)
    ensures Held(s, session) == {}
  {
    forall t ensures t !in Held(s, session) {
      if p :| HolderOf(s, p, t) && s.procs[p].session == session { assert !s.procs[p].Live(); }
    }
  }

  lemma StepKeepsInv(s: State, step: Step)
    requires Inv(s) && Enabled(s, step, false)
    ensures Inv(Next(s, step))
  {
    hide Inv, Enabled, Next;
    match step {
      case Spawn(_, _, _, _) => LoopStepKeepsInv(s, step);
      case Resume(_) => LoopStepKeepsInv(s, step);
      case Suspend(_) => LoopStepKeepsInv(s, step);
      case Cancel(_) => LoopStepKeepsInv(s, step);
      case LeaveBody(_) => LoopStepKeepsInv(s, step);
      case TryLock(p) => TryLockKeepsInv(s, p);
      case ExitScope(p) => ExitScopeKeepsInv(s, p);
      case Release(p) => ReleaseKeepsInv(s, p);
      case MarkFailure(p) => MarkFailureKeepsInv(s, p);
      case EndOuter(session) => EndOuterKeepsInv(s, session);
    }
  }

  lemma MarkFailureKeepsInv(s: State, p: Pid)
    requires Inv(s) && Enabled(s, MarkFailure(p), false)
    ensures Inv(Next(s, MarkFailure(p)))
  {
    HeldByOwnRun(s, p);
    HookKeepsInv(s, s.procs[p].session);
  }

  lemma EndOuterKeepsInv(s: State, session: SessionId)
    requires Inv(s) && Enabled(s, EndOuter(session), false)
    ensures Inv(Next(s, EndOuter(session)))
  {
    IdleSessionHoldsNothing(s, session);
    HookKeepsInv(s, session);
    EndedKeepsInv(Hooked(s, session), session);
  }

  /** The invariant holds in every interleaving. */
  lemma {:induction false} EveryScheduleKeepsInv(schedule: seq<Step>)
    requires Possible(schedule, false)
    ensures Inv(After(schedule))
  {
    hide Inv, Next;
    if schedule == [] {
      StartIsGood();
    } else {
      var n := |schedule| - 1;
      EveryScheduleKeepsInv(schedule[..n]);
      CooperativeIsEnabled(After(schedule[..n]), schedule[n]);
      StepKeepsInv(After(schedule[..n]), schedule[n]);
    }
  }

  lemma StartIsGood()
    ensures Inv(START)
  {}

  lemma CooperativeIsEnabled(s: State, step: Step)
    requires Enabled(s, step, false)
    ensures Enabled(s, step, true)
  {}

  // ---- What it gives ----

  predicate InLockedBody(s: State, p: Pid) {
    p in s.procs && s.procs[p].phase == Body
  }

  /** At most one run per tenant is inside the locked body. */
  lemma MutualExclusion(schedule: seq<Step>, p: Pid, q: Pid)
    requires Possible(schedule, false)
    requires InLockedBody(After(schedule), p) && InLockedBody(After(schedule), q)
    requires After(schedule).procs[p].tenant == After(schedule).procs[q].tenant
    ensures p == q
  {
    hide After;
    EveryScheduleKeepsInv(schedule);
    var s := After(schedule);
    assert HolderOf(s, p, s.procs[p].tenant) && HolderOf(s, q, s.procs[p].tenant);
  }

  /** The locked tenants are the disjoint union of the sessions' held sets. */
  lemma LockedIsDisjointUnion(schedule: seq<Step>)
    requires Possible(schedule, false)
    ensures var s := After(schedule);
      && (forall t :: t in s.locked <==> exists session :: t in Held(s, session))
      && (forall x, y, t :: t in Held(s, x) && t in Held(s, y) ==> x == y)
  {
    hide After;
    EveryScheduleKeepsInv(schedule);
    var s := After(schedule);
    forall t ensures t in s.locked <==> exists session :: t in Held(s, session) {
      if p :| HolderOf(s, p, t) { assert t in Held(s, s.procs[p].session); }
    }
    forall x, y, t | t in Held(s, x) && t in Held(s, y) ensures x == y {
      var p :| HolderOf(s, p, t) && s.procs[p].session == x;
      var q :| HolderOf(s, q, t) && s.procs[q].session == y;
    }
  }

  /** No step of one run, its double release included, takes the lock of another away. */
  lemma NobodyFreesAnothersLock(schedule: seq<Step>, step: Step, q: Pid)
    requires Possible(schedule, false) && Enabled(After(schedule), step, false)
    requires q in After(schedule).procs && After(schedule).procs[q].Holds()
    requires step.EndOuter? || step.p != q
    ensures After(schedule).procs[q].tenant in After(schedule + [step]).locked
    ensures After(schedule).procs[q].tenant in Held(After(schedule + [step]), After(schedule).procs[q].session)
  {
    hide After, Inv;
    var s := After(schedule);
    EveryScheduleKeepsInv(schedule);
    CooperativeIsEnabled(s, step);
    StepKeepsInv(s, step);
    AfterOneMore(schedule, step);
    OtherStepsLeaveRun(s, step, q);
    HolderHasItsLock(Next(s, step), q);
  }

  /** A step of another run changes at most whether a run's transaction has ended. */
  lemma OtherStepsLeaveRun(s: State, step: Step, q: Pid)
    requires Enabled(s, step, true) && q in s.procs && (step.EndOuter? || step.p != q)
    ensures q in Next(s, step).procs && Next(s, step).procs[q] == s.procs[q].(ended := Next(s, step).procs[q].ended)
  {}

  lemma AfterOneMore(schedule: seq<Step>, step: Step)
    requires Enabled(After(schedule), step, true)
    ensures After(schedule + [step]) == Next(After(schedule), step)
  {
    assert (schedule + [step])[..|schedule|] == schedule;
  }

  lemma HolderHasItsLock(s: State, q: Pid)
    requires Inv(s) && q in s.procs && s.procs[q].Holds()
    ensures s.procs[q].tenant in s.locked && s.procs[q].tenant in Held(s, s.procs[q].session)
  {
    assert HolderOf(s, q, s.procs[q].tenant);
  }

  /** No lock leaks: with no run left, nothing is locked and no session holds anything. */
  lemma NoLockLeaks(schedule: seq<Step>)
    requires Possible(schedule, false)
    requires forall p :: p in After(schedule).procs ==> !After(schedule).procs[p].Live()
    ensures After(schedule).locked == {} && forall session :: Held(After(schedule), session) == {}
  {
    hide After;
    EveryScheduleKeepsInv(schedule);
    var s := After(schedule);
    forall session ensures Held(s, session) == {} {
      IdleSessionHoldsNothing(s, session);
    }
    forall p, t ensures !HolderOf(s, p, t) {}
  }

  /** The lock refuses a run exactly when another run is between its acquire and its first release. */
  lemma RefusedOnlyByAHolder(schedule: seq<Step>, p: Pid)
    requires Possible(schedule, false) && Enabled(After(schedule), TryLock(p), false)
    ensures var s := After(schedule);
      After(schedule + [TryLock(p)]).procs[p].phase.Refused?
      <==> exists q :: q != p && HolderOf(s, q, s.procs[p].tenant)
  {
    hide After;
    EveryScheduleKeepsInv(schedule);
    AfterOneMore(schedule, TryLock(p));
    var s := After(schedule);
    assert !HolderOf(s, p, s.procs[p].tenant);
  }

  // ---- Until when the lock lasts ----

  /** A step that ends a run's possession of its lock. */
  ghost predicate GivesUpLock(schedule: seq<Step>, step: Step, p: Pid, kind: Kind) {
    && Possible(schedule, false) && Enabled(After(schedule), step, false)
    && p in After(schedule).procs && After(schedule).procs[p].kind == kind && After(schedule).procs[p].Holds()
    && p in After(schedule + [step]).procs && !After(schedule + [step]).procs[p].Holds()
  }

  lemma OwnedLockEndsWithTransaction(s: State, step: Step, p: Pid)
    requires Enabled(s, step, true) && p in s.procs && p in Next(s, step).procs
    requires s.procs[p].kind.OwnsTransaction() && s.procs[p].Holds() && !Next(s, step).procs[p].Holds()
    ensures Next(s, step).procs[p].ended
  {}

  /** A run inside a caller's transaction is over and has released its lock, that transaction has not
      ended, and a second run of the tenant is in the locked body. */
  lemma NestedLockEndsTooEarly(kind: Kind) returns (before: seq<Step>, schedule: seq<Step>)
    requires !kind.OwnsTransaction()
    ensures GivesUpLock(before, Release(0), 0, kind) && !After(before + [Release(0)]).procs[0].ended
    ensures Possible(schedule, false) && InLockedBody(After(schedule), 1)
    ensures 0 in After(schedule).procs && After(schedule).procs[0] == Proc(kind, 0, 0, Over, false)
    ensures After(schedule).procs[1].tenant == 0
  {
    hide After, Possible;
    var s;
    before, s := LeavesScope(kind, false);
    schedule, s := Perform(before, s, Release(0), false);
    schedule, s := TakesLock(schedule, s, 1, ManualOwned, false);
  }

  /** A run's lock is never given up before the transaction around it ended, in any schedule, exactly for
      the runs that open that transaction themselves. */
  lemma LockLastsToCommitExactly(kind: Kind)
    ensures (forall schedule, step, p :: GivesUpLock(schedule, step, p, kind) ==> After(schedule + [step]).procs[p].ended)
            <==> kind.OwnsTransaction()
  {
    hide After, Possible;
    if kind.OwnsTransaction() {
      forall schedule, step, p | GivesUpLock(schedule, step, p, kind) ensures After(schedule + [step]).procs[p].ended {
        CooperativeIsEnabled(After(schedule), step);
        AfterOneMore(schedule, step);
        OwnedLockEndsWithTransaction(After(schedule), step, p);
      }
    } else {
      var before, schedule := NestedLockEndsTooEarly(kind);
    }
  }

  // ---- What it rests on ----

  /** A first run taken off the loop between its two releases frees, on its return, the lock a second run
      took meanwhile, and a third one joins the second in the locked body.  Exclusion therefore rests on
      the segment from the end of the scope to the end of `finally` having no await. */
  lemma PreemptionBreaksExclusion() returns (schedule: seq<Step>)
    ensures Possible(schedule, true)
    ensures InLockedBody(After(schedule), 1) && InLockedBody(After(schedule), 2)
    ensures After(schedule).procs[1].tenant == After(schedule).procs[2].tenant
  {
    hide After, Possible;
    var s;
    schedule, s := LeavesScope(ManualOwned, true);
    schedule, s := TakesLock(schedule, s, 1, ManualOwned, true);
    schedule, s := Perform(schedule, s, Resume(0), true);
    schedule, s := Perform(schedule, s, Release(0), true);
    schedule, s := TakesLock(schedule, s, 2, ManualOwned, true);
  }

  lemma Perform(schedule: seq<Step>, s: State, step: Step, preemptive: bool) returns (schedule': seq<Step>, s': State)
    requires Possible(schedule, preemptive) && After(schedule) == s && Enabled(s, step, preemptive)
    ensures Enabled(s, step, true) && schedule' == schedule + [step]
    ensures Possible(schedule', preemptive) && After(schedule') == s' == Next(s, step)
  {
    if !preemptive { CooperativeIsEnabled(s, step); }
    AfterOneMore(schedule, step);
    assert (schedule + [step])[..|schedule|] == schedule;
    schedule', s' := schedule + [step], Next(s, step);
  }

  /** Run p, alone in its session, gets the free lock of tenant 0. */
  lemma TakesLock(schedule: seq<Step>, s: State, p: Pid, kind: Kind, preemptive: bool)
    returns (schedule': seq<Step>, s': State)
    requires Possible(schedule, preemptive) && After(schedule) == s && (preemptive || s.running.None?)
    requires p !in s.procs && 0 !in s.locked && forall q :: q in s.procs ==> s.procs[q].session != p
    ensures Possible(schedule', preemptive) && After(schedule') == s'
    ensures s' == State(s.locked + {0}, s.held[p := Held(s, p) + {0}],
                        s.procs[p := Proc(kind, p, 0, Body, false)], Some(p))
  {
    hide After, Possible;
    schedule', s' := Perform(schedule, s, Spawn(p, kind, p, 0), preemptive);
    schedule', s' := Perform(schedule', s', Resume(p), preemptive);
    schedule', s' := Perform(schedule', s', TryLock(p), preemptive);
  }

  /** Run 0, the first of all, has come as far as its `finally` block. */
  lemma LeavesScope(kind: Kind, preemptive: bool) returns (schedule: seq<Step>, s: State)
    ensures Possible(schedule, preemptive) && After(schedule) == s
    ensures var owns := kind.OwnsTransaction();
      s == State(if owns then {} else {0}, map[0 := if owns then {} else {0}], map[0 := Proc(kind, 0, 0, Finally, owns)],
                 Some(0))
  {
    hide After, Possible;
    StartOfSchedules();
    schedule, s := TakesLock([], START, 0, kind, preemptive);
    schedule, s := Perform(schedule, s, LeaveBody(0), preemptive);
    schedule, s := Perform(schedule, s, ExitScope(0), preemptive);
    var owns := kind.OwnsTransaction();
    assert s.locked == (if owns then {} else {0}) && s.held == map[0 := if owns then {} else {0}];
    assert s.procs == map[0 := Proc(kind, 0, 0, Finally, owns)];
  }

  lemma StartOfSchedules()
    ensures After([]) == START && Possible([], true) && Possible([], false)
  {}
}
