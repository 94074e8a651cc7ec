/** The multi-threaded client: user threads start and cancel requests while I/O threads run their
    handlers. A map of active sessions and a flag in each session are guarded by different mutexes.

    The state machine's steps are the acquisitions of a lock, the critical sections with their
    release, the completions of operations, and the calls and returns of the user's callback. */
module CancelProtocol {
  import opened Streams

  // ------------------------------------------------------------------ states

  type ThreadId = nat
  type SessionId = nat

  datatype Operation = Connect | Write | Read

  /** What a thread does next. `held` says that the handler still holds the session's guard. */
  datatype Pc =
    | Idle
    | StartWantsMap(s: SessionId) | StartInMap(s: SessionId) | StartConnects(s: SessionId)
    | CancelWantsMap(id: int) | CancelInMap(id: int)
    | CancelWantsGuard(s: SessionId) | CancelInGuard(s: SessionId) | CancelLeaves
    | CheckWantsGuard(s: SessionId, done: Operation) | CheckInGuard(s: SessionId, done: Operation) | CheckLeaves(s: SessionId)
    | EraseWantsMap(s: SessionId, held: bool) | EraseInMap(s: SessionId, held: bool) | Reports(s: SessionId, held: bool)
    | Exited

  /** A thread inside the user's callback for a session. */
  datatype Frame = Frame(s: SessionId, held: bool)

  datatype Thread = Thread(io: bool, pc: Pc, frame: Option<Frame>)

  /** Who is responsible for a session: the thread that starts it, a pending operation, the thread
      that runs its handler or callback, nobody any more; or an event loop that had already run out
      of work when the connection was asked for, and will never carry it out. */
  datatype Phase = Starting(t: ThreadId) | Pending(op: Operation) | Handling(t: ThreadId) | Over | Stranded

  /** `id`, `ec`, `cancelled` and `guard` are fields of the source; the rest is history: the operations
      started, how often a cancellation found the session, and the codes its callback was given. */
  datatype Session = Session(
    id: int, ec: ErrorCode, cancelled: bool, guard: Option<ThreadId>,
    phase: Phase, registered: bool, erased: bool, ops: seq<Operation>, found: nat, reports: seq<ErrorCode>)

  function NewSession(id: int, t: ThreadId): Session {
    Session(id, Success, false, None, Starting(t), false, false, [], 0, [])
  }

  /** `duplicate`: some request was started under the id of one still in flight.
      `late`: some request was started from outside a callback during or after `close`. */
  datatype System = System(
    threads: map<ThreadId, Thread>, sessions: map<SessionId, Session>,
    active: map<int, SessionId>, guard: Option<ThreadId>,
    closed: bool, duplicate: bool, late: bool)

  // ------------------------------------------------------------------ steps

  datatype Event =
    | Start(t: ThreadId, s: SessionId, id: int)
    | Cancel(t: ThreadId, id: int)
    | Complete(t: ThreadId, s: SessionId, ec: ErrorCode)
    | Step(t: ThreadId)
    | Return(t: ThreadId)
    | Close
    | Exit(t: ThreadId)

  /** A thread that may call the client: a user thread, or an I/O thread inside a callback. */
  predicate MayCall(th: Thread) {
    th.pc == Idle && (th.io ==> th.frame.Some?)
  }

  predicate Starts(th: Thread) {
    th.pc.StartWantsMap? || th.pc.StartInMap? || th.pc.StartConnects?
  }

  predicate Checks(pc: Pc) {
    pc.CheckWantsGuard? || pc.CheckInGuard?
  }

  predicate Erases(pc: Pc) {
    pc.EraseWantsMap? || pc.EraseInMap? || pc.Reports?
  }

  /** No operation is pending and no handler is running. */
  predicate NoWork(y: System) {
    && (forall t | t in y.threads :: y.threads[t].io ==> (y.threads[t].pc == Idle || y.threads[t].pc == Exited) && y.threads[t].frame == None)
    && (forall s | s in y.sessions :: !y.sessions[s].phase.Pending?)
  }

  /** Once the client is being closed and has no work, the event loop stops for good: the I/O threads
      leave it, and it carries out nothing that is asked of it from then on. */
  predicate OutOfWork(y: System) {
    y.closed && NoWork(y)
  }

  predicate WantsMap(pc: Pc) {
    pc.StartWantsMap? || pc.CancelWantsMap? || pc.EraseWantsMap?
  }

  predicate WantsGuard(pc: Pc) {
    pc.CancelWantsGuard? || pc.CheckWantsGuard?
  }

  /** Parts of `cancelRequest`. */
  predicate CancelPart(pc: Pc) {
    pc.CancelWantsMap? || pc.CancelInMap? || pc.CancelWantsGuard? || pc.CancelInGuard? || pc.CancelLeaves?
  }

  /** Program points outside the client's code, and those of it that have no session at hand. */
  predicate WithoutSession(pc: Pc) {
    pc == Idle || pc == Exited || pc.CancelWantsMap? || pc.CancelInMap? || pc.CancelLeaves?
  }

  /** A thread can take its next step: the mutex it wants is free. The conditions on sessions and on
      the last operation hold in every reachable state. */
  predicate StepEnabled(y: System, pc: Pc) {
    && pc != Idle && pc != Exited
    && (WantsMap(pc) ==> y.guard == None)
    && (!WithoutSession(pc) ==> pc.s in y.sessions)
    && (WantsGuard(pc) ==> y.sessions[pc.s].guard == None)
    && (pc.CheckWantsGuard? || pc.CheckInGuard? ==> pc.done != Read)
    && (pc.CancelInMap? && pc.id in y.active ==> y.active[pc.id] in y.sessions)
  }

  predicate Enabled(y: System, e: Event) {
    match e
    case Start(t, s, _) => t in y.threads && MayCall(y.threads[t]) && s !in y.sessions
    case Cancel(t, _) => t in y.threads && MayCall(y.threads[t])
    case Complete(t, s, _) =>
      && t in y.threads && y.threads[t].io && y.threads[t].pc == Idle && y.threads[t].frame == None
      && s in y.sessions && y.sessions[s].phase.Pending?
    case Step(t) => t in y.threads && StepEnabled(y, y.threads[t].pc)
    case Return(t) =>
      && t in y.threads && y.threads[t].pc == Idle && y.threads[t].frame.Some?
      && y.threads[t].frame.value.s in y.sessions
    case Close => true
    case Exit(t) => t in y.threads && y.threads[t].io && y.threads[t].pc == Idle && OutOfWork(y)
  }

  function Following(op: Operation): Operation
    requires op != Read
  {
    if op == Connect then Write else Read
  }

  /** What the callback is told. */
  function Verdict(x: Session): ErrorCode {
    if x.ec == Success && x.cancelled then OperationAborted else x.ec
  }

  /** The effect of a step of one thread: its own new state, at most one session, the mutex of the
      map, and the map. */
  datatype Effect = Effect(thread: Thread, target: Option<SessionId>, session: Session, guard: Option<ThreadId>, active: map<int, SessionId>)

  /** A session value for effects without a target. */
  const NO_SESSION := NewSession(0, 0)

  function Moves(y: System, th: Thread): Effect {
    Effect(th, None, NO_SESSION, y.guard, y.active)
  }

  function Changes(y: System, th: Thread, s: SessionId, x: Session): Effect {
    Effect(th, Some(s), x, y.guard, y.active)
  }

  /** What becomes of a connection that is asked for now. */
  function Asked(y: System): Phase {
    if OutOfWork(y) then Stranded else Pending(Connect)
  }

  function StartEffect(y: System, t: ThreadId): Effect
    requires Enabled(y, Step(t)) && Starts(y.threads[t])
  {
    var th := y.threads[t];
    var s := th.pc.s;
    var x := y.sessions[s];
    if th.pc.StartWantsMap? then Moves(y, th.(pc := StartInMap(s))).(guard := Some(t))
    else if th.pc.StartInMap? then
      Changes(y, th.(pc := StartConnects(s)), s, x.(registered := true)).(guard := None, active := y.active[x.id := s])
    else Changes(y, th.(pc := Idle), s, x.(phase := Asked(y), ops := [Connect]))
  }

  function CancelEffect(y: System, t: ThreadId): Effect
    requires Enabled(y, Step(t)) && CancelPart(y.threads[t].pc)
  {
    var th := y.threads[t];
    if th.pc.CancelWantsMap? then Moves(y, th.(pc := CancelInMap(th.pc.id))).(guard := Some(t))
    else if th.pc.CancelInMap? then FindEffect(y, th)
    else if th.pc.CancelWantsGuard? then
      Changes(y, th.(pc := CancelInGuard(th.pc.s)), th.pc.s, y.sessions[th.pc.s].(guard := Some(t)))
    else if th.pc.CancelInGuard? then
      Changes(y, th.(pc := CancelLeaves), th.pc.s, y.sessions[th.pc.s].(cancelled := true, guard := None))
    else Moves(y, th.(pc := Idle)).(guard := None)
  }

  function FindEffect(y: System, th: Thread): Effect
    requires StepEnabled(y, th.pc) && th.pc.CancelInMap?
  {
    if th.pc.id in y.active then
      var s := y.active[th.pc.id];
      Changes(y, th.(pc := CancelWantsGuard(s)), s, y.sessions[s].(found := y.sessions[s].found + 1))
    else Moves(y, th.(pc := CancelLeaves))
  }

  function CheckEffect(y: System, t: ThreadId): Effect
    requires Enabled(y, Step(t)) && (Checks(y.threads[t].pc) || y.threads[t].pc.CheckLeaves?)
  {
    var th := y.threads[t];
    var s := th.pc.s;
    var x := y.sessions[s];
    if th.pc.CheckWantsGuard? then Changes(y, th.(pc := CheckInGuard(s, th.pc.done)), s, x.(guard := Some(t)))
    else if th.pc.CheckLeaves? then Changes(y, th.(pc := Idle), s, x.(guard := None))
    else if x.cancelled then Moves(y, th.(pc := EraseWantsMap(s, true)))
    else
      var op := Following(th.pc.done);
      Changes(y, th.(pc := CheckLeaves(s)), s, x.(phase := Pending(op), ops := x.ops + [op]))
  }

  function EraseEffect(y: System, t: ThreadId): Effect
    requires Enabled(y, Step(t)) && Erases(y.threads[t].pc)
  {
    var th := y.threads[t];
    var s, held := th.pc.s, th.pc.held;
    var x := y.sessions[s];
    if th.pc.EraseWantsMap? then Moves(y, th.(pc := EraseInMap(s, held))).(guard := Some(t))
    else if th.pc.EraseInMap? then
      Changes(y, th.(pc := Reports(s, held)), s, x.(erased := true)).(guard := None, active := y.active - {x.id})
    else Changes(y, th.(pc := Idle, frame := Some(Frame(s, held))), s, x.(reports := x.reports + [Verdict(x)]))
  }

  function StepEffect(y: System, t: ThreadId): Effect
    requires Enabled(y, Step(t))
  {
    var th := y.threads[t];
    if Starts(th) then StartEffect(y, t)
    else if CancelPart(th.pc) then CancelEffect(y, t)
    else if Erases(th.pc) then EraseEffect(y, t)
    else CheckEffect(y, t)
  }

  function CompleteEffect(y: System, t: ThreadId, s: SessionId, ec: ErrorCode): Effect
    requires Enabled(y, Complete(t, s, ec))
  {
    var th := y.threads[t];
    var op := y.sessions[s].phase.op;
    var x := y.sessions[s].(phase := Handling(t));
    if ec.Failed() then Changes(y, th.(pc := EraseWantsMap(s, false)), s, x.(ec := ec))
    else if op == Read then Changes(y, th.(pc := EraseWantsMap(s, false)), s, x)
    else Changes(y, th.(pc := CheckWantsGuard(s, op)), s, x)
  }

  function CallEffect(y: System, e: Event): Effect
    requires Enabled(y, e) && (e.Start? || e.Cancel? || e.Exit?)
  {
    var th := y.threads[e.t];
    if e.Start? then Changes(y, th.(pc := StartWantsMap(e.s)), e.s, NewSession(e.id, e.t))
    else if e.Cancel? then Moves(y, th.(pc := CancelWantsMap(e.id)))
    else Moves(y, th.(pc := Exited))
  }

  function ReturnEffect(y: System, t: ThreadId): Effect
    requires Enabled(y, Return(t))
  {
    var th := y.threads[t];
    var f := th.frame.value;
    var x := y.sessions[f.s];
    Changes(y, th.(frame := None), f.s, x.(phase := Over, guard := if f.held then None else x.guard))
  }

  function EffectOf(y: System, e: Event): Effect
    requires Enabled(y, e) && e != Close
  {
    if e.Complete? then CompleteEffect(y, e.t, e.s, e.ec)
    else if e.Step? then StepEffect(y, e.t)
    else if e.Return? then ReturnEffect(y, e.t)
    else CallEffect(y, e)
  }

  function Patch(y: System, t: ThreadId, c: Effect): System {
    y.(threads := y.threads[t := c.thread],
       sessions := if c.target.Some? then y.sessions[c.target.value := c.session] else y.sessions,
       guard := c.guard, active := c.active)
  }

  predicate InFlight(y: System, id: int) {
    exists s | s in y.sessions :: y.sessions[s].id == id && !y.sessions[s].erased
  }

  predicate StartUnderway(y: System) {
    exists t | t in y.threads :: Starts(y.threads[t]) && y.threads[t].frame == None
  }

  function Apply(y: System, e: Event): System
    requires Enabled(y, e)
  {
    if e == Close then y.(closed := true, late := y.late || StartUnderway(y))
    else
      var z := Patch(y, e.t, EffectOf(y, e));
      if e.Start? then
        z.(duplicate := y.duplicate || InFlight(y, e.id), late := y.late || (y.closed && y.threads[e.t].frame == None))
      else z
  }

  predicate Initial(y: System) {
    && (forall t | t in y.threads :: y.threads[t].pc == Idle && y.threads[t].frame == None)
    && y.sessions == map[] && y.active == map[] && y.guard == None
    && !y.closed && !y.duplicate && !y.late
  }

  ghost predicate Leads(y: System, es: seq<Event>, z: System)
    decreases |es|
  {
    if es == [] then y == z
    else Enabled(y, es[0]) && Leads(Apply(y, es[0]), es[1..], z)
  }

  ghost predicate Reachable(y: System) {
    exists y0, es :: Initial(y0) && Leads(y0, es, y)
  }

  // ------------------------------------------------------------------ the invariant

  predicate HoldsMap(pc: Pc) {
    pc.StartInMap? || pc.CancelInMap? || pc.CancelWantsGuard? || pc.CancelInGuard? || pc.CancelLeaves? || pc.EraseInMap?
  }

  /** The session a program point holds the guard of, starts, handles, or cancels. */
  function GuardHeld(pc: Pc): Option<SessionId> {
    if pc.CancelInGuard? || pc.CheckInGuard? || pc.CheckLeaves? || (Erases(pc) && pc.held) then Some(pc.s) else None
  }

  function StartOf(th: Thread): Option<SessionId> {
    if Starts(th) then Some(th.pc.s) else None
  }

  function HandlingOf(th: Thread): Option<SessionId> {
    if th.frame.Some? then Some(th.frame.value.s)
    else if Checks(th.pc) || Erases(th.pc) then Some(th.pc.s)
    else None
  }

  predicate Cancels(pc: Pc) {
    pc.CancelWantsGuard? || pc.CancelInGuard?
  }

  predicate HoldsGuard(th: Thread, s: SessionId) {
    GuardHeld(th.pc) == Some(s) || th.frame == Some(Frame(s, true))
  }

  predicate MapOwned(y: System) {
    && (forall t | t in y.threads :: HoldsMap(y.threads[t].pc) <==> y.guard == Some(t))
    && (y.guard.Some? ==> y.guard.value in y.threads)
  }

  predicate GuardsOwned(y: System) {
    && (forall t, s | t in y.threads && s in y.sessions :: HoldsGuard(y.threads[t], s) <==> y.sessions[s].guard == Some(t))
    && (forall s | s in y.sessions :: y.sessions[s].guard.Some? ==> y.sessions[s].guard.value in y.threads)
  }

  /** Each mutex is owned by the thread whose code is between its acquisition and its release. */
  predicate LocksOwned(y: System) {
    MapOwned(y) && GuardsOwned(y)
  }

  predicate StartersOwn(y: System) {
    forall t, s | t in y.threads && s in y.sessions :: StartOf(y.threads[t]) == Some(s) <==> y.sessions[s].phase == Starting(t)
  }

  predicate HandlersOwn(y: System) {
    forall t, s | t in y.threads && s in y.sessions :: HandlingOf(y.threads[t]) == Some(s) <==> y.sessions[s].phase == Handling(t)
  }

  /** Every session has exactly one of: a starting thread, a pending operation, a handling thread, its end. */
  predicate OneOwner(y: System) {
    && StartersOwn(y) && HandlersOwn(y)
    && (forall s | s in y.sessions :: y.sessions[s].phase.Starting? || y.sessions[s].phase.Handling? ==> y.sessions[s].phase.t in y.threads)
  }

  /** Threads mention existing sessions only; handlers run on I/O threads outside callbacks. */
  predicate ThreadsSane(y: System) {
    forall t | t in y.threads :: ThreadSane(y.sessions.Keys, y.threads[t])
  }

  /** An I/O thread outside a callback runs handlers only; every other thread calls the client only. */
  predicate ThreadSane(known: set<SessionId>, th: Thread) {
    && (th.frame.Some? ==> th.io && th.frame.value.s in known)
    && (Checks(th.pc) || Erases(th.pc) || th.pc.CheckLeaves? || th.pc == Exited ==> th.io && th.frame == None)
    && (Starts(th) || CancelPart(th.pc) ==> th.io ==> th.frame.Some?)
    && (!WithoutSession(th.pc) ==> th.pc.s in known)
    && (Checks(th.pc) ==> th.pc.done != Read)
    && (th.pc.CancelInGuard? ==> th.frame != Some(Frame(th.pc.s, true)))
  }

  predicate Inv0(y: System) {
    LocksOwned(y) && OneOwner(y) && ThreadsSane(y)
  }

  // ------------------------------------------------------------------ locks and owners are kept

  /** The effect moves a mutex only to or from its own thread, and its thread's code agrees. */
  predicate OwnMapOnly(y: System, t: ThreadId, c: Effect) {
    && (HoldsMap(c.thread.pc) <==> c.guard == Some(t))
    && (c.guard == y.guard || (y.guard in {None, Some(t)} && c.guard in {None, Some(t)}))
  }

  predicate OwnGuardsOnly(y: System, t: ThreadId, c: Effect)
    requires t in y.threads
  {
    && (forall s | s in y.sessions && c.target != Some(s) :: HoldsGuard(c.thread, s) <==> HoldsGuard(y.threads[t], s))
    && (c.target.Some? ==>
          var was := if c.target.value in y.sessions then y.sessions[c.target.value].guard else None;
          && (HoldsGuard(c.thread, c.target.value) <==> c.session.guard == Some(t))
          && (c.session.guard == was || (was in {None, Some(t)} && c.session.guard in {None, Some(t)})))
  }

  predicate Mine(p: Phase, t: ThreadId) {
    p == Starting(t) || p == Handling(t)
  }

  predicate Nobodys(p: Phase) {
    p.Pending? || p == Over || p == Stranded
  }

  /** The effect takes or gives up responsibility only for its own thread. */
  predicate OwnPhasesOnly(y: System, t: ThreadId, c: Effect)
    requires t in y.threads
  {
    && (forall s | s in y.sessions && c.target != Some(s) ::
          (StartOf(c.thread) == Some(s) <==> StartOf(y.threads[t]) == Some(s)) && (HandlingOf(c.thread) == Some(s) <==> HandlingOf(y.threads[t]) == Some(s)))
    && (c.target.Some? ==>
          var s, p := c.target.value, c.session.phase;
          && (StartOf(c.thread) == Some(s) <==> p == Starting(t)) && (HandlingOf(c.thread) == Some(s) <==> p == Handling(t))
          && (if s in y.sessions then
                p == y.sessions[s].phase
                || ((Mine(p, t) || Nobodys(p)) && (Mine(y.sessions[s].phase, t) || Nobodys(y.sessions[s].phase)))
              else Mine(p, t)))
  }

  /** A session that does not exist yet is nobody's business. */
  lemma {:induction false} UnknownSession(y: System, s: SessionId)
    requires ThreadsSane(y) && s !in y.sessions
    ensures forall t | t in y.threads ::
              !HoldsGuard(y.threads[t], s) && StartOf(y.threads[t]) != Some(s) && HandlingOf(y.threads[t]) != Some(s)
  {
  }

  lemma {:induction false} PatchKeepsMap(y: System, t: ThreadId, c: Effect)
    requires MapOwned(y) && t in y.threads && OwnMapOnly(y, t, c)
    ensures MapOwned(Patch(y, t, c))
  {
    hide HoldsGuard, HoldsMap;
  }

  lemma {:induction false} PatchKeepsGuards(y: System, t: ThreadId, c: Effect)
    requires GuardsOwned(y) && ThreadsSane(y) && t in y.threads && OwnGuardsOnly(y, t, c)
    ensures GuardsOwned(Patch(y, t, c))
  {
    hide HoldsGuard, HoldsMap, ThreadsSane;
    if c.target.Some? && c.target.value !in y.sessions {
      UnknownSession(y, c.target.value);
    }
    var z := Patch(y, t, c);
    forall u, s | u in z.threads && s in z.sessions
      ensures HoldsGuard(z.threads[u], s) <==> z.sessions[s].guard == Some(u)
    {
      if s in y.sessions {
        assert HoldsGuard(y.threads[u], s) <==> y.sessions[s].guard == Some(u);
      }
    }
  }

  lemma {:induction false} PatchKeepsStarters(y: System, t: ThreadId, c: Effect)
    requires StartersOwn(y) && ThreadsSane(y) && t in y.threads && OwnPhasesOnly(y, t, c)
    ensures StartersOwn(Patch(y, t, c))
  {
    hide HandlingOf, StartOf, ThreadsSane, HoldsGuard;
    if c.target.Some? && c.target.value !in y.sessions {
      UnknownSession(y, c.target.value);
    }
  }

  lemma {:induction false} PatchKeepsHandlers(y: System, t: ThreadId, c: Effect)
    requires HandlersOwn(y) && ThreadsSane(y) && t in y.threads && OwnPhasesOnly(y, t, c)
    ensures HandlersOwn(Patch(y, t, c))
  {
    hide StartOf, HandlingOf, ThreadsSane, HoldsGuard;
    if c.target.Some? && c.target.value !in y.sessions {
      UnknownSession(y, c.target.value);
    }
  }

  lemma {:induction false} PatchKeepsOwners(y: System, t: ThreadId, c: Effect)
    requires Inv0(y) && t in y.threads && OwnPhasesOnly(y, t, c)
    ensures OneOwner(Patch(y, t, c))
  {
    hide StartersOwn, HandlersOwn, StartOf, HandlingOf, LocksOwned, ThreadsSane;
    PatchKeepsStarters(y, t, c);
    PatchKeepsHandlers(y, t, c);
  }

  lemma {:induction false} PatchKeepsSanity(y: System, t: ThreadId, c: Effect)
    requires Inv0(y) && t in y.threads && ThreadSane(KnownAfter(y, c), c.thread)
    ensures ThreadsSane(Patch(y, t, c))
  {
    hide LocksOwned, OneOwner;
    assert Patch(y, t, c).sessions.Keys == KnownAfter(y, c);
  }

  function KnownAfter(y: System, c: Effect): set<SessionId> {
    if c.target.Some? then y.sessions.Keys + {c.target.value} else y.sessions.Keys
  }

  predicate Local(y: System, t: ThreadId, c: Effect)
    requires t in y.threads
  {
    OwnMapOnly(y, t, c) && OwnGuardsOnly(y, t, c) && OwnPhasesOnly(y, t, c) && ThreadSane(KnownAfter(y, c), c.thread)
  }

  /** The invariant as far as it concerns one thread. */
  predicate OwnFacts(y: System, t: ThreadId)
    requires t in y.threads
  {
    var th := y.threads[t];
    && (HoldsMap(th.pc) <==> y.guard == Some(t))
    && ThreadSane(y.sessions.Keys, th)
    && (forall s | s in y.sessions ::
          && (HoldsGuard(th, s) <==> y.sessions[s].guard == Some(t))
          && (StartOf(th) == Some(s) <==> y.sessions[s].phase == Starting(t))
          && (HandlingOf(th) == Some(s) <==> y.sessions[s].phase == Handling(t)))
  }

  lemma {:induction false} OwnFactsHold(y: System, t: ThreadId)
    requires Inv0(y) && t in y.threads
    ensures OwnFacts(y, t)
  {
    hide HoldsGuard, StartOf, HandlingOf, HoldsMap, ThreadSane;
  }

  lemma {:induction false} CallsAreLocal(y: System, e: Event)
    requires Enabled(y, e) && (e.Start? || e.Cancel? || e.Exit?) && OwnFacts(y, e.t)
    ensures Local(y, e.t, CallEffect(y, e))
  {
  }

  lemma {:induction false} CompleteIsLocal(y: System, t: ThreadId, s: SessionId, ec: ErrorCode)
    requires Enabled(y, Complete(t, s, ec)) && OwnFacts(y, t)
    ensures Local(y, t, CompleteEffect(y, t, s, ec))
  {
  }

  lemma {:induction false} ReturnIsLocal(y: System, t: ThreadId)
    requires Enabled(y, Return(t)) && OwnFacts(y, t)
    ensures Local(y, t, ReturnEffect(y, t))
  {
  }

  lemma {:induction false} StartMapStepIsLocal(y: System, t: ThreadId)
    requires Enabled(y, Step(t)) && OwnFacts(y, t) && (y.threads[t].pc.StartWantsMap? || y.threads[t].pc.StartInMap?)
    ensures Local(y, t, StartEffect(y, t))
  {
  }

  lemma {:induction false} ConnectStepIsLocal(y: System, t: ThreadId)
    requires Enabled(y, Step(t)) && OwnFacts(y, t) && y.threads[t].pc.StartConnects?
    ensures Local(y, t, StartEffect(y, t))
  {
  }

  lemma {:induction false} StartStepIsLocal(y: System, t: ThreadId)
    requires Enabled(y, Step(t)) && OwnFacts(y, t) && Starts(y.threads[t])
    ensures Local(y, t, StartEffect(y, t))
  {
    hide Local, StartEffect, OwnFacts;
    if y.threads[t].pc.StartConnects? {
      ConnectStepIsLocal(y, t);
    } else {
      StartMapStepIsLocal(y, t);
    }
  }

  lemma {:induction false} CancelMapStepIsLocal(y: System, t: ThreadId)
    requires Enabled(y, Step(t)) && OwnFacts(y, t) && (y.threads[t].pc.CancelWantsMap? || y.threads[t].pc.CancelLeaves?)
    ensures Local(y, t, CancelEffect(y, t))
  {
    hide FindEffect;
  }

  lemma {:induction false} FindIsLocal(y: System, t: ThreadId)
    requires Enabled(y, Step(t)) && OwnFacts(y, t) && y.threads[t].pc.CancelInMap?
    ensures Local(y, t, FindEffect(y, y.threads[t]))
  {
  }

  lemma {:induction false} TakeGuardIsLocal(y: System, t: ThreadId)
    requires Enabled(y, Step(t)) && OwnFacts(y, t) && y.threads[t].pc.CancelWantsGuard?
    ensures Local(y, t, CancelEffect(y, t))
  {
    hide FindEffect;
  }

  lemma {:induction false} SetFlagIsLocal(y: System, t: ThreadId)
    requires Enabled(y, Step(t)) && OwnFacts(y, t) && y.threads[t].pc.CancelInGuard?
    ensures Local(y, t, CancelEffect(y, t))
  {
    hide FindEffect;
  }

  lemma {:induction false} CancelGuardStepIsLocal(y: System, t: ThreadId)
    requires Enabled(y, Step(t)) && OwnFacts(y, t) && Cancels(y.threads[t].pc)
    ensures Local(y, t, CancelEffect(y, t))
  {
    hide Local, CancelEffect, OwnFacts;
    if y.threads[t].pc.CancelInGuard? {
      SetFlagIsLocal(y, t);
    } else {
      TakeGuardIsLocal(y, t);
    }
  }

  lemma {:induction false} CheckStepIsLocal(y: System, t: ThreadId)
    requires Enabled(y, Step(t)) && OwnFacts(y, t) && (Checks(y.threads[t].pc) || y.threads[t].pc.CheckLeaves?)
    ensures Local(y, t, CheckEffect(y, t))
  {
  }

  lemma {:induction false} EraseStepIsLocal(y: System, t: ThreadId)
    requires Enabled(y, Step(t)) && OwnFacts(y, t) && Erases(y.threads[t].pc)
    ensures Local(y, t, EraseEffect(y, t))
  {
  }

  lemma FindStep(y: System, t: ThreadId)
    requires Enabled(y, Step(t)) && y.threads[t].pc.CancelInMap?
    ensures CancelEffect(y, t) == FindEffect(y, y.threads[t])
  {
  }

  lemma {:induction false} StepIsLocal(y: System, t: ThreadId)
    requires Enabled(y, Step(t)) && OwnFacts(y, t)
    ensures Local(y, t, StepEffect(y, t))
  {
    hide Local, StartEffect, CancelEffect, CheckEffect, EraseEffect, OwnFacts;
    var th := y.threads[t];
    if Starts(th) {
      StartStepIsLocal(y, t);
    } else if Cancels(th.pc) {
      CancelGuardStepIsLocal(y, t);
    } else if th.pc.CancelInMap? {
      FindIsLocal(y, t);
      assert StepEffect(y, t) == CancelEffect(y, t) == FindEffect(y, th) by { FindStep(y, t); }
    } else if CancelPart(th.pc) {
      CancelMapStepIsLocal(y, t);
    } else if Erases(th.pc) {
      EraseStepIsLocal(y, t);
    } else {
      CheckStepIsLocal(y, t);
    }
  }

  lemma {:induction false} EffectIsLocal(y: System, e: Event)
    requires Inv0(y) && Enabled(y, e) && e != Close
    ensures Local(y, e.t, EffectOf(y, e))
  {
    hide Local, StepEffect, CompleteEffect, ReturnEffect, CallEffect, Inv0, OwnFacts;
    OwnFactsHold(y, e.t);
    match e {
      case Step(t) => StepIsLocal(y, t);
      case Complete(t, s, ec) => CompleteIsLocal(y, t, s, ec);
      case Return(t) => ReturnIsLocal(y, t);
      case _ => CallsAreLocal(y, e);
    }
  }

  /** The flags of the history play no part in who owns what. */
  lemma {:induction false} FlagsAreHistory(y: System, z: System)
    requires Inv0(y) && z == y.(closed := z.closed, duplicate := z.duplicate, late := z.late)
    ensures Inv0(z)
  {
  }

  // ------------------------------------------------------------------ sessions, map and cancellations

  /** The operations started up to and including this one. */
  function Upto(op: Operation): seq<Operation> {
    match op
    case Connect => [Connect]
    case Write => [Connect, Write]
    case Read => [Connect, Write, Read]
  }

  /** The one report is there. It is the code of the operation that failed or else says whether the
      session was cancelled; it is an error if any cancellation ever found the session; and success
      means that every operation was carried out. */
  predicate Reported(x: Session) {
    && x.reports == [Verdict(x)]
    && (x.found > 0 ==> x.reports[0].Failed())
    && (x.reports[0] == Success ==> x.ops == Upto(Read))
  }

  /** Completed without an error and without a read: its handler has seen it cancelled. */
  predicate GaveUp(x: Session) {
    x.ec == Success && Read !in x.ops
  }

  /** A session started or handled by this thread. */
  predicate OwnedOk(x: Session, s: SessionId, th: Thread) {
    if x.phase.Starting? then
      (x.registered <==> th.pc == StartConnects(s)) && !x.erased && x.ops == [] && x.reports == [] && x.ec == Success
    else if th.frame == Some(Frame(s, true)) || th.frame == Some(Frame(s, false)) then
      x.registered && x.erased && Reported(x) && (th.frame.value.held <==> GaveUp(x))
    else
      && x.registered && x.reports == []
      && (x.erased <==> th.pc.Reports?)
      && (Checks(th.pc) ==> x.ec == Success && x.ops == Upto(th.pc.done))
      && (Erases(th.pc) ==> (th.pc.held <==> GaveUp(x)) && (th.pc.held ==> x.cancelled) && (x.ec == Success ==> x.cancelled || x.ops == Upto(Read)))
  }

  /** A session with a pending operation, a stranded one, or one whose callback has returned. */
  predicate FreeOk(x: Session) {
    && x.registered
    && (x.phase.Pending? ==> !x.erased && x.reports == [] && x.ec == Success && x.ops == Upto(x.phase.op))
    && (x.phase == Stranded ==> !x.erased && x.reports == [])
    && (x.phase == Over ==> x.erased && Reported(x))
  }

  predicate SessionOk(y: System, s: SessionId)
    requires s in y.sessions
  {
    var x := y.sessions[s];
    if Nobodys(x.phase) then FreeOk(x) else x.phase.t in y.threads && OwnedOk(x, s, y.threads[x.phase.t])
  }

  predicate SessionsOk(y: System) {
    forall s | s in y.sessions :: SessionOk(y, s)
  }

  /** The map holds registered sessions under their own ids that completion has not yet erased. */
  predicate ActiveOk(y: System) {
    forall id | id in y.active ::
      && y.active[id] in y.sessions && y.sessions[y.active[id]].id == id
      && y.sessions[y.active[id]].registered && !y.sessions[y.active[id]].erased
  }

  predicate Listed(y: System, s: SessionId) {
    s in y.sessions && y.sessions[s].id in y.active && y.active[y.sessions[s].id] == s
  }

  /** A cancellation that found a session is past the lookup and before its release, and the session
      is still in the map; if the flag was already set, this is not the first such cancellation. */
  predicate CancellersOk(y: System) {
    forall t | t in y.threads && Cancels(y.threads[t].pc) :: CancellerOk(y, y.threads[t].pc.s)
  }

  predicate CancellerOk(y: System, s: SessionId) {
    Listed(y, s) && y.sessions[s].found >= (if y.sessions[s].cancelled then 2 else 1)
  }

  predicate CancellerAt(y: System, s: SessionId) {
    y.guard.Some? && y.guard.value in y.threads && Cancels(y.threads[y.guard.value].pc) && y.threads[y.guard.value].pc.s == s
  }

  /** A session found by a cancellation is flagged, unless that cancellation is just under way. */
  predicate FoundOk(y: System) {
    forall s | s in y.sessions :: FlaggedOrUnderway(y, s)
  }

  predicate FlaggedOrUnderway(y: System, s: SessionId)
    requires s in y.sessions
  {
    var x := y.sessions[s];
    (x.cancelled ==> x.found >= 1) && (x.found >= 1 && !x.cancelled ==> CancellerAt(y, s))
  }

  predicate Inv(y: System) {
    Inv0(y) && SessionsOk(y) && ActiveOk(y) && CancellersOk(y) && FoundOk(y)
  }

  // ------------------------------------------------------------------ effects on them

  /** The sessions the thread is responsible for stay in order with its new state, and so does the
      session it changes, whoever is responsible for that. */
  predicate OwnSessionsOk(y: System, t: ThreadId, c: Effect)
    requires t in y.threads
  {
    && (forall s | s in y.sessions && c.target != Some(s) && Mine(y.sessions[s].phase, t) :: OwnedOk(y.sessions[s], s, c.thread))
    && (c.target.Some? ==>
          var s, x := c.target.value, c.session;
          if Nobodys(x.phase) then FreeOk(x)
          else if Mine(x.phase, t) then OwnedOk(x, s, c.thread)
          else x.phase.t in y.threads && OwnedOk(x, s, y.threads[x.phase.t]))
  }

  lemma {:induction false} PatchKeepsSessions(y: System, t: ThreadId, c: Effect)
    requires Inv(y) && t in y.threads && OwnSessionsOk(y, t, c)
    ensures SessionsOk(Patch(y, t, c))
  {
    hide Inv0, OwnedOk, FreeOk, ActiveOk, CancellersOk, FoundOk;
  }

  /** The map changes only under its mutex, by entering or erasing the session at hand. */
  predicate OwnMapChange(y: System, t: ThreadId, c: Effect)
    requires t in y.threads
  {
    && (c.active != y.active ==> HoldsMap(y.threads[t].pc) && !Cancels(y.threads[t].pc))
    && (c.target.Some? && c.target.value in y.sessions ==>
          var s, x := c.target.value, y.sessions[c.target.value];
          && c.session.id == x.id && (x.registered ==> c.session.registered)
          && (if c.session.erased && !x.erased then c.active == y.active - {x.id}
              else c.session.erased == x.erased
                   && (c.active == y.active || (c.active == y.active[x.id := s] && c.session.registered && !x.erased))))
    && (c.target.None? || c.target.value !in y.sessions ==> c.active == y.active)
  }

  lemma {:induction false} PatchKeepsActive(y: System, t: ThreadId, c: Effect)
    requires Inv(y) && t in y.threads && OwnMapChange(y, t, c)
    ensures ActiveOk(Patch(y, t, c))
  {
    hide Inv0, SessionsOk, CancellersOk, FoundOk, HoldsMap;
  }

  /** Only a thread that owns the map's mutex finds and flags sessions; it keeps its account straight. */
  predicate OwnCancelsOnly(y: System, t: ThreadId, c: Effect)
    requires t in y.threads
  {
    var z := Patch(y, t, c);
    && (Cancels(y.threads[t].pc) ==> c.target == Some(y.threads[t].pc.s))
    && (Cancels(c.thread.pc) ==> CancellerOk(z, c.thread.pc.s))
    && (c.target.Some? ==>
          var s := c.target.value;
          if s in y.sessions && !HoldsMap(y.threads[t].pc) then
            c.session.found == y.sessions[s].found && c.session.cancelled == y.sessions[s].cancelled
          else FlaggedOrUnderway(z, s))
  }

  lemma {:induction false} PatchKeepsCancellers(y: System, t: ThreadId, c: Effect)
    requires Inv(y) && t in y.threads && OwnCancelsOnly(y, t, c) && OwnMapChange(y, t, c)
    ensures CancellersOk(Patch(y, t, c))
  {
    hide GuardsOwned, OneOwner, ThreadsSane, SessionsOk, ActiveOk, FoundOk;
    var z := Patch(y, t, c);
    forall u | u in z.threads && Cancels(z.threads[u].pc)
      ensures CancellerOk(z, z.threads[u].pc.s)
    {
      if u != t {
        assert HoldsMap(y.threads[u].pc) && y.guard == Some(u);
        assert !HoldsMap(y.threads[t].pc);
        assert CancellerOk(y, y.threads[u].pc.s);
      }
    }
  }

  lemma {:induction false} PatchKeepsFound(y: System, t: ThreadId, c: Effect)
    requires Inv(y) && t in y.threads && OwnCancelsOnly(y, t, c) && OwnMapOnly(y, t, c)
    ensures FoundOk(Patch(y, t, c))
  {
    hide GuardsOwned, OneOwner, ThreadsSane, SessionsOk, ActiveOk, CancellersOk, CancellerOk;
    var z := Patch(y, t, c);
    forall s | s in z.sessions
      ensures FlaggedOrUnderway(z, s)
    {
      if s in y.sessions && !(c.target == Some(s) && HoldsMap(y.threads[t].pc)) {
        assert FlaggedOrUnderway(y, s);
        if CancellerAt(y, s) {
          assert HoldsMap(y.threads[y.guard.value].pc);
        }
      }
    }
  }

  predicate Orderly(y: System, t: ThreadId, c: Effect)
    requires t in y.threads
  {
    OwnSessionsOk(y, t, c) && OwnMapChange(y, t, c) && OwnCancelsOnly(y, t, c)
  }

  /** The rest of the invariant as far as it concerns one thread. */
  predicate OwnSessions(y: System, t: ThreadId)
    requires t in y.threads
  {
    && (forall s | s in y.sessions && Mine(y.sessions[s].phase, t) ::
          OwnedOk(y.sessions[s], s, y.threads[t]) && (StartOf(y.threads[t]) == Some(s) || HandlingOf(y.threads[t]) == Some(s)))
    && (StartOf(y.threads[t]).Some? ==> var s := StartOf(y.threads[t]).value; s in y.sessions && y.sessions[s].phase == Starting(t))
    && (HandlingOf(y.threads[t]).Some? ==> var s := HandlingOf(y.threads[t]).value; s in y.sessions && y.sessions[s].phase == Handling(t))
    && (Cancels(y.threads[t].pc) ==> CancellerOk(y, y.threads[t].pc.s))
  }

  lemma {:induction false} OwnSessionsHold(y: System, t: ThreadId)
    requires Inv(y) && t in y.threads
    ensures OwnSessions(y, t)
  {
    hide LocksOwned, ActiveOk, FoundOk, OwnedOk, FreeOk, CancellerOk;
    forall s | s in y.sessions && Mine(y.sessions[s].phase, t)
      ensures OwnedOk(y.sessions[s], s, y.threads[t])
    {
      assert SessionOk(y, s);
    }
  }

  lemma {:induction false} SessionFacts(y: System, s: SessionId)
    requires Inv(y) && s in y.sessions
    ensures SessionOk(y, s) && FlaggedOrUnderway(y, s)
  {
    hide Inv0, SessionOk, FlaggedOrUnderway, ActiveOk, CancellersOk;
  }

  lemma {:induction false} StartStepIsOrderly(y: System, t: ThreadId)
    requires Enabled(y, Step(t)) && OwnFacts(y, t) && OwnSessions(y, t) && Starts(y.threads[t])
    requires FlaggedOrUnderway(y, y.threads[t].pc.s)
    ensures Orderly(y, t, StartEffect(y, t))
  {
  }

  lemma {:induction false} CheckTurnIsOrderly(y: System, t: ThreadId)
    requires Enabled(y, Step(t)) && OwnFacts(y, t) && OwnSessions(y, t) && (y.threads[t].pc.CheckWantsGuard? || y.threads[t].pc.CheckLeaves?)
    requires SessionOk(y, y.threads[t].pc.s)
    ensures Orderly(y, t, CheckEffect(y, t))
  {
  }

  lemma {:induction false} CheckInGuardIsOrderly(y: System, t: ThreadId)
    requires Enabled(y, Step(t)) && OwnFacts(y, t) && OwnSessions(y, t) && y.threads[t].pc.CheckInGuard?
    requires SessionOk(y, y.threads[t].pc.s)
    ensures Orderly(y, t, CheckEffect(y, t))
  {
  }

  lemma {:induction false} CheckStepIsOrderly(y: System, t: ThreadId)
    requires Enabled(y, Step(t)) && OwnFacts(y, t) && OwnSessions(y, t) && (Checks(y.threads[t].pc) || y.threads[t].pc.CheckLeaves?)
    requires SessionOk(y, y.threads[t].pc.s)
    ensures Orderly(y, t, CheckEffect(y, t))
  {
    hide Orderly, CheckEffect, OwnFacts, OwnSessions, SessionOk;
    if y.threads[t].pc.CheckInGuard? {
      CheckInGuardIsOrderly(y, t);
    } else {
      CheckTurnIsOrderly(y, t);
    }
  }

  /** No cancellation is under way for a session that completion has erased. */
  lemma {:induction false} ErasedIsLeftAlone(y: System, s: SessionId)
    requires Inv(y) && s in y.sessions && y.sessions[s].erased
    ensures !CancellerAt(y, s)
  {
    hide Inv0, SessionsOk, FoundOk;
  }

  lemma {:induction false} EraseStepIsOrderly(y: System, t: ThreadId)
    requires Enabled(y, Step(t)) && OwnFacts(y, t) && OwnSessions(y, t) && Erases(y.threads[t].pc)
    requires var s := y.threads[t].pc.s; FlaggedOrUnderway(y, s) && (y.sessions[s].erased ==> !CancellerAt(y, s))
    ensures Orderly(y, t, EraseEffect(y, t))
  {
  }

  lemma {:induction false} CancelMapStepIsOrderly(y: System, t: ThreadId)
    requires Enabled(y, Step(t)) && OwnFacts(y, t) && OwnSessions(y, t)
    requires y.threads[t].pc.CancelWantsMap? || y.threads[t].pc.CancelLeaves?
    ensures Orderly(y, t, CancelEffect(y, t))
  {
  }

  lemma {:induction false} CancelledIsLive(y: System, t: ThreadId)
    requires Inv(y) && t in y.threads && Cancels(y.threads[t].pc)
    ensures y.threads[t].pc.s in y.sessions && !y.sessions[y.threads[t].pc.s].erased
  {
    hide Inv0, SessionsOk, FoundOk;
  }

  lemma {:induction false} TakeGuardIsOrderly(y: System, t: ThreadId)
    requires Enabled(y, Step(t)) && OwnFacts(y, t) && OwnSessions(y, t) && y.threads[t].pc.CancelWantsGuard?
    requires SessionOk(y, y.threads[t].pc.s) && FlaggedOrUnderway(y, y.threads[t].pc.s) && !y.sessions[y.threads[t].pc.s].erased
    ensures Orderly(y, t, CancelEffect(y, t))
  {
    hide FindEffect;
  }

  lemma {:induction false} SetFlagIsOrderly(y: System, t: ThreadId)
    requires Enabled(y, Step(t)) && OwnFacts(y, t) && OwnSessions(y, t) && y.threads[t].pc.CancelInGuard?
    requires SessionOk(y, y.threads[t].pc.s) && FlaggedOrUnderway(y, y.threads[t].pc.s) && !y.sessions[y.threads[t].pc.s].erased
    ensures Orderly(y, t, CancelEffect(y, t))
  {
    hide FindEffect;
  }

  lemma {:induction false} CancelGuardStepIsOrderly(y: System, t: ThreadId)
    requires Enabled(y, Step(t)) && OwnFacts(y, t) && OwnSessions(y, t) && Cancels(y.threads[t].pc)
    requires SessionOk(y, y.threads[t].pc.s) && FlaggedOrUnderway(y, y.threads[t].pc.s) && !y.sessions[y.threads[t].pc.s].erased
    ensures Orderly(y, t, CancelEffect(y, t))
  {
    hide Orderly, CancelEffect, OwnFacts, OwnSessions, SessionOk, FlaggedOrUnderway;
    if y.threads[t].pc.CancelInGuard? {
      SetFlagIsOrderly(y, t);
    } else {
      TakeGuardIsOrderly(y, t);
    }
  }

  lemma {:induction false} FindIsOrderly(y: System, t: ThreadId)
    requires Enabled(y, Step(t)) && OwnFacts(y, t) && OwnSessions(y, t) && y.threads[t].pc.CancelInMap?
    requires y.threads[t].pc.id in y.active ==>
               var s := y.active[y.threads[t].pc.id];
               SessionOk(y, s) && FlaggedOrUnderway(y, s) && y.sessions[s].id == y.threads[t].pc.id && !y.sessions[s].erased
    ensures Orderly(y, t, FindEffect(y, y.threads[t]))
  {
  }

  lemma {:induction false} CompleteIsOrderly(y: System, t: ThreadId, s: SessionId, ec: ErrorCode)
    requires Enabled(y, Complete(t, s, ec)) && OwnFacts(y, t) && OwnSessions(y, t) && SessionOk(y, s)
    ensures Orderly(y, t, CompleteEffect(y, t, s, ec))
  {
  }

  lemma {:induction false} ReturnIsOrderly(y: System, t: ThreadId)
    requires Enabled(y, Return(t)) && OwnFacts(y, t) && OwnSessions(y, t)
    ensures Orderly(y, t, ReturnEffect(y, t))
  {
  }

  lemma {:induction false} CallIsOrderly(y: System, e: Event)
    requires Enabled(y, e) && (e.Start? || e.Cancel? || e.Exit?) && OwnFacts(y, e.t) && OwnSessions(y, e.t)
    ensures Orderly(y, e.t, CallEffect(y, e))
  {
  }

  lemma {:induction false} StepIsOrderly(y: System, t: ThreadId)
    requires Inv(y) && Enabled(y, Step(t)) && OwnFacts(y, t) && OwnSessions(y, t)
    ensures Orderly(y, t, StepEffect(y, t))
  {
    hide Orderly, StartEffect, CheckEffect, EraseEffect, OwnFacts, OwnSessions, Inv, SessionOk, FlaggedOrUnderway;
    var th := y.threads[t];
    if !WithoutSession(th.pc) {
      SessionFacts(y, th.pc.s);
    }
    if Starts(th) {
      StartStepIsOrderly(y, t);
    } else if Cancels(th.pc) {
      CancelledIsLive(y, t);
      CancelGuardStepIsOrderly(y, t);
    } else if th.pc.CancelInMap? {
      FoundFacts(y, th.pc.id);
      FindIsOrderly(y, t);
    } else if CancelPart(th.pc) {
      CancelMapStepIsOrderly(y, t);
    } else if Erases(th.pc) {
      if y.sessions[th.pc.s].erased {
        ErasedIsLeftAlone(y, th.pc.s);
      }
      EraseStepIsOrderly(y, t);
    } else {
      CheckStepIsOrderly(y, t);
    }
  }

  lemma {:induction false} FoundFacts(y: System, id: int)
    requires Inv(y)
    ensures id in y.active ==>
              var s := y.active[id];
              s in y.sessions && SessionOk(y, s) && FlaggedOrUnderway(y, s) && y.sessions[s].id == id && !y.sessions[s].erased
  {
    hide Inv0, SessionOk, FlaggedOrUnderway, CancellersOk;
  }

  lemma {:induction false} EffectIsOrderly(y: System, e: Event)
    requires Inv(y) && Enabled(y, e) && e != Close
    ensures Orderly(y, e.t, EffectOf(y, e))
  {
    hide Orderly, StepEffect, CompleteEffect, ReturnEffect, CallEffect, Inv, Inv0, OwnFacts, OwnSessions, SessionOk, FlaggedOrUnderway;
    assert Inv0(y) by { InvHasInv0(y); }
    OwnFactsHold(y, e.t);
    OwnSessionsHold(y, e.t);
    match e {
      case Step(t) => StepIsOrderly(y, t);
      case Complete(t, s, ec) =>
        SessionFacts(y, s);
        CompleteIsOrderly(y, t, s, ec);
      case Return(t) => ReturnIsOrderly(y, t);
      case _ => CallIsOrderly(y, e);
    }
  }

  lemma {:induction false} InvHasInv0(y: System)
    requires Inv(y)
    ensures Inv0(y)
  {
  }

  lemma {:induction false} HistoryKeepsInv(y: System, z: System)
    requires Inv(y) && z == y.(closed := z.closed, duplicate := z.duplicate, late := z.late)
    ensures Inv(z)
  {
    hide Inv0;
    assert Inv0(y) by { InvHasInv0(y); }
    FlagsAreHistory(y, z);
    assert SessionsOk(z) && FoundOk(z) by {
      forall s | s in z.sessions
        ensures SessionOk(z, s) && FlaggedOrUnderway(z, s)
      {
        SessionFacts(y, s);
      }
    }
    assert CancellersOk(z) by {
      forall t | t in z.threads && Cancels(z.threads[t].pc)
        ensures CancellerOk(z, z.threads[t].pc.s)
      {
        assert CancellerOk(y, y.threads[t].pc.s);
      }
    }
  }

  /** Every step keeps the invariant. */
  lemma {:induction false} StepKeepsInv(y: System, e: Event)
    requires Inv(y) && Enabled(y, e)
    ensures Inv(Apply(y, e))
  {
    hide EffectOf, Inv0, SessionsOk, ActiveOk, CancellersOk, FoundOk, Patch, StartUnderway, InFlight, OwnGuardsOnly, OwnPhasesOnly, OwnMapOnly, OwnSessionsOk, OwnMapChange, OwnCancelsOnly, ThreadSane;
    if e == Close {
      HistoryKeepsInv(y, Apply(y, e));
    } else {
      EffectIsLocal(y, e);
      EffectIsOrderly(y, e);
      PatchKeepsInv(y, e.t, EffectOf(y, e));
      HistoryKeepsInv(Patch(y, e.t, EffectOf(y, e)), Apply(y, e));
    }
  }

  lemma {:induction false} PatchKeepsInv(y: System, t: ThreadId, c: Effect)
    requires Inv(y) && t in y.threads && Local(y, t, c) && Orderly(y, t, c)
    ensures Inv(Patch(y, t, c))
  {
    hide MapOwned, GuardsOwned, OneOwner, ThreadsSane, SessionsOk, ActiveOk, CancellersOk, FoundOk, Patch, OwnGuardsOnly, OwnPhasesOnly, OwnMapOnly, OwnSessionsOk, OwnMapChange, OwnCancelsOnly, ThreadSane;
    PatchKeepsMap(y, t, c);
    PatchKeepsGuards(y, t, c);
    PatchKeepsOwners(y, t, c);
    PatchKeepsSanity(y, t, c);
    PatchKeepsSessions(y, t, c);
    PatchKeepsActive(y, t, c);
    PatchKeepsCancellers(y, t, c);
    PatchKeepsFound(y, t, c);
  }

  lemma {:induction false} RunKeepsInv(y: System, es: seq<Event>, z: System)
    requires Inv(y) && Leads(y, es, z)
    ensures Inv(z)
    decreases |es|
  {
    hide Inv, Apply, Enabled;
    if es != [] {
      StepKeepsInv(y, es[0]);
      RunKeepsInv(Apply(y, es[0]), es[1..], z);
    }
  }

  lemma {:induction false} ReachableInv(y: System)
    requires Reachable(y)
    ensures Inv(y)
  {
    var y0, es :| Initial(y0) && Leads(y0, es, y);
    InitialInv(y0);
    RunKeepsInv(y0, es, y);
  }

  lemma {:induction false} InitialInv(y: System)
    requires Initial(y)
    ensures Inv(y)
  {
  }
}
