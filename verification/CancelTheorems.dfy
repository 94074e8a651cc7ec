/** What the two-lock protocol guarantees, in every run: what a cancellation achieves, what the map
    holds, when the two locks can block each other, and what closing the client waits for. */
module CancelTheorems {
  import opened Streams
  import opened CancelProtocol

  // ------------------------------------------------------------------ cancellation and completion

  /** An effective cancellation is never reported as success: in every interleaving, whatever ids are
      reused, a session that some cancellation has found gets an error, and gets it at most once. */
  lemma {:induction false} EffectiveCancelReported(y: System, s: SessionId)
    requires Reachable(y) && s in y.sessions
    ensures |y.sessions[s].reports| <= 1
    ensures y.sessions[s].found > 0 ==> forall ec | ec in y.sessions[s].reports :: ec.Failed()
  {
    ReachableInv(y);
    hide Reachable;
    SessionFacts(y, s);
    hide Inv;
  }

  /** Exactly-once completion: a session has no report while it is started, while an operation is
      pending or stranded and while its handler runs; it has exactly one from its callback on, by which time it
      has left the map: the code of the failed operation if there is one, else operation_aborted or
      success as it was cancelled or not; and success means that connect, write and read were all
      carried out. */
  lemma {:induction false} ReportedExactlyOnce(y: System, s: SessionId)
    requires Reachable(y) && s in y.sessions
    ensures var x := y.sessions[s];
            && (x.reports != [] ==> x.erased && !Listed(y, s))
            && (x.phase.Starting? || x.phase.Pending? || x.phase == Stranded ==> x.reports == [])
            && (x.phase.Handling? ==>
                  && x.phase.t in y.threads
                  && x.reports == if y.threads[x.phase.t].frame == None then []
                                  else if x.ec != Success then [x.ec]
                                  else if x.cancelled then [OperationAborted]
                                  else [Success])
            && (x.phase == Over && x.ec != Success ==> x.reports == [x.ec])
            && (x.phase == Over && x.ec == Success && x.cancelled ==> x.reports == [OperationAborted])
            && (x.phase == Over && x.ec == Success && !x.cancelled ==> x.reports == [Success])
            && (Success in x.reports ==> x.ops == [Connect, Write, Read])
  {
    ReachableInv(y);
    hide Reachable;
    SessionFacts(y, s);
    if Listed(y, s) {
      ListedIsLive(y, s);
    }
    if y.sessions[s].phase.Handling? {
      OwnFactsHoldInv(y, y.sessions[s].phase.t);
    }
    hide Inv;
  }

  /** The code of a failed operation reaches the callback, whatever happens in between. */
  lemma {:induction false} FailureReachesCallback(y: System, c: ThreadId, s: SessionId, ec: ErrorCode, es: seq<Event>, z: System)
    requires Reachable(y) && Enabled(y, Complete(c, s, ec)) && ec.Failed()
    requires Leads(Apply(y, Complete(c, s, ec)), es, z)
    ensures s in z.sessions && (z.sessions[s].phase == Over ==> z.sessions[s].reports == [ec])
  {
    ReachableInv(y);
    StepKeepsInv(y, Complete(c, s, ec));
    hide Reachable, Inv, Leads;
    ErrorIsPassedOn(Apply(y, Complete(c, s, ec)), s, es, z);
  }

  lemma {:induction false} ErrorIsPassedOn(y: System, s: SessionId, es: seq<Event>, z: System)
    requires Inv(y) && Leads(y, es, z) && s in y.sessions && y.sessions[s].ec.Failed()
    ensures s in z.sessions && z.sessions[s].ec == y.sessions[s].ec
    ensures z.sessions[s].phase == Over ==> z.sessions[s].reports == [y.sessions[s].ec]
    decreases |es|
  {
    hide Inv, Apply, Enabled, SessionOk;
    if es == [] {
      SessionFacts(y, s);
      OverIsReported(y, s);
    } else {
      StepKeepsInv(y, es[0]);
      StepKeepsError(y, s, es[0]);
      ErrorIsPassedOn(Apply(y, es[0]), s, es[1..], z);
    }
  }

  /** The code of a completed read is success unless the session was cancelled: the callback of a
      session whose operations all succeeded is told success if no cancellation ever found it, and
      operation_aborted otherwise, however late that cancellation came before the erasure. */
  lemma {:induction false} SuccessReachesCallback(y: System, c: ThreadId, s: SessionId, es: seq<Event>, z: System)
    requires Reachable(y) && Enabled(y, Complete(c, s, Success)) && y.sessions[s].phase == Pending(Read)
    requires Leads(Apply(y, Complete(c, s, Success)), es, z)
    ensures s in z.sessions
    ensures z.sessions[s].phase == Over ==> z.sessions[s].reports == (if z.sessions[s].found == 0 then [Success] else [OperationAborted])
    ensures z.sessions[s].phase == Over ==> (z.sessions[s].cancelled <==> z.sessions[s].found > 0)
  {
    ReachableInv(y);
    SessionFacts(y, s);
    StepKeepsInv(y, Complete(c, s, Success));
    assert Completing(Apply(y, Complete(c, s, Success)), s);
    hide Reachable, Inv, Leads, Apply, Enabled;
    RunKeepsCompleting(Apply(y, Complete(c, s, Success)), s, es, z);
    CompletingIsReported(z, s);
  }

  /** All operations have succeeded, the read included, and none will be started any more. */
  predicate Completing(y: System, s: SessionId) {
    && s in y.sessions
    && Read in y.sessions[s].ops && !y.sessions[s].phase.Pending? && y.sessions[s].ec == Success
  }

  lemma {:induction false} CompletingIsReported(y: System, s: SessionId)
    requires Inv(y) && Completing(y, s)
    ensures y.sessions[s].phase == Over ==> y.sessions[s].reports == (if y.sessions[s].found == 0 then [Success] else [OperationAborted])
    ensures y.sessions[s].phase == Over ==> (y.sessions[s].cancelled <==> y.sessions[s].found > 0)
  {
    SessionFacts(y, s);
    if y.sessions[s].erased {
      ErasedIsLeftAlone(y, s);
    }
    hide Inv, CancellerAt;
  }

  predicate StaysCompleting(y: System, c: Effect) {
    c.target.Some? && c.target.value in y.sessions && Completing(y, c.target.value) ==>
      Read in c.session.ops && !c.session.phase.Pending? && c.session.ec == Success
  }

  lemma {:induction false} StartStaysCompleting(y: System, t: ThreadId)
    requires Enabled(y, Step(t)) && Starts(y.threads[t]) && OwnSessions(y, t)
    ensures StaysCompleting(y, StartEffect(y, t))
  {
    hide OutOfWork;
  }

  lemma {:induction false} CancelStaysCompleting(y: System, t: ThreadId)
    requires Enabled(y, Step(t)) && CancelPart(y.threads[t].pc)
    ensures StaysCompleting(y, CancelEffect(y, t))
  {
  }

  lemma {:induction false} HandlerStaysCompleting(y: System, t: ThreadId)
    requires Enabled(y, Step(t)) && !Starts(y.threads[t]) && !CancelPart(y.threads[t].pc) && OwnSessions(y, t) && OwnFacts(y, t)
    ensures StaysCompleting(y, StepEffect(y, t))
  {
    hide HoldsGuard, StartOf;
  }

  lemma {:induction false} EventStaysCompleting(y: System, e: Event)
    requires Inv(y) && Enabled(y, e) && e != Close
    ensures StaysCompleting(y, EffectOf(y, e))
  {
    hide Inv, OwnSessions, OwnFacts, InFlight, StartEffect, CancelEffect, CheckEffect, EraseEffect, OutOfWork;
    if !e.Step? {
      hide StepEffect;
    } else {
      OwnSessionsHold(y, e.t);
      OwnFactsHoldInv(y, e.t);
      hide StaysCompleting;
      if Starts(y.threads[e.t]) {
        StartStaysCompleting(y, e.t);
      } else if CancelPart(y.threads[e.t].pc) {
        CancelStaysCompleting(y, e.t);
      } else {
        HandlerStaysCompleting(y, e.t);
      }
    }
  }

  lemma {:induction false} StepKeepsCompleting(y: System, s: SessionId, e: Event)
    requires Inv(y) && Enabled(y, e) && Completing(y, s)
    ensures Completing(Apply(y, e), s)
  {
    hide Inv, InFlight, StartUnderway, EffectOf, StepEnabled;
    if e != Close {
      EventStaysCompleting(y, e);
    }
  }

  lemma {:induction false} RunKeepsCompleting(y: System, s: SessionId, es: seq<Event>, z: System)
    requires Inv(y) && Completing(y, s) && Leads(y, es, z)
    ensures Inv(z) && Completing(z, s)
    decreases |es|
  {
    hide Inv, Apply, Enabled, Completing;
    if es != [] {
      StepKeepsInv(y, es[0]);
      StepKeepsCompleting(y, s, es[0]);
      RunKeepsCompleting(Apply(y, es[0]), s, es[1..], z);
    }
  }

  /** The account of cancellations of the session an effect changes. */
  predicate Untouched(y: System, c: Effect) {
    c.target.Some? && c.target.value in y.sessions ==>
      c.session.found == y.sessions[c.target.value].found && c.session.cancelled == y.sessions[c.target.value].cancelled
  }

  lemma {:induction false} OthersDoNotTouch(y: System, e: Event)
    requires Enabled(y, e) && e != Close && (e.Step? ==> !CancelPart(y.threads[e.t].pc))
    ensures Untouched(y, EffectOf(y, e))
  {
    hide InFlight, OutOfWork, CancelEffect;
  }

  lemma {:induction false} CancelTouches(y: System, t: ThreadId)
    requires Enabled(y, Step(t)) && CancelPart(y.threads[t].pc)
    ensures var c, pc := EffectOf(y, Step(t)), y.threads[t].pc;
            if pc.CancelInMap? && pc.id in y.active then
              var x := y.sessions[y.active[pc.id]];
              c.target == Some(y.active[pc.id]) && c.session == x.(found := x.found + 1) && c.thread.pc == CancelWantsGuard(y.active[pc.id])
            else if pc.CancelInGuard? then
              c.target == Some(pc.s) && c.session.found == y.sessions[pc.s].found && c.session.cancelled
            else Untouched(y, c)
  {
  }

  /** A cancellation finds exactly the session the map holds under its id, and nothing else does. */
  lemma {:induction false} FoundOnlyById(y: System, e: Event, s: SessionId)
    requires Enabled(y, e) && s in y.sessions
    ensures s in Apply(y, e).sessions
    ensures if e.Step? && y.threads[e.t].pc.CancelInMap? && y.threads[e.t].pc.id in y.active && y.active[y.threads[e.t].pc.id] == s
            then Apply(y, e).sessions[s].found == y.sessions[s].found + 1 && Apply(y, e).threads[e.t].pc == CancelWantsGuard(s)
            else Apply(y, e).sessions[s].found == y.sessions[s].found
  {
    hide EffectOf, InFlight, StartUnderway, OutOfWork;
    if e.Step? && CancelPart(y.threads[e.t].pc) {
      CancelTouches(y, e.t);
    } else if e != Close {
      OthersDoNotTouch(y, e);
    }
  }

  /** A session is flagged exactly by a cancellation that holds its mutex. */
  lemma {:induction false} FlaggedOnlyInGuard(y: System, e: Event, s: SessionId)
    requires Enabled(y, e) && s in y.sessions
    ensures s in Apply(y, e).sessions
    ensures Apply(y, e).sessions[s].cancelled <==> y.sessions[s].cancelled || (e.Step? && y.threads[e.t].pc == CancelInGuard(s))
  {
    hide EffectOf, InFlight, StartUnderway, OutOfWork;
    if e.Step? && CancelPart(y.threads[e.t].pc) {
      CancelTouches(y, e.t);
    } else if e != Close {
      OthersDoNotTouch(y, e);
    }
  }

  /** The callback runs with the session's mutex held exactly if its handler had seen it cancelled:
      that is, if no operation failed and the read was never started. */
  lemma {:induction false} CallbackUnderGuardIff(y: System, t: ThreadId)
    requires Reachable(y) && t in y.threads && y.threads[t].frame.Some?
    ensures var s := y.threads[t].frame.value.s;
            && s in y.sessions
            && (y.sessions[s].guard == Some(t) <==> y.sessions[s].ec == Success && Read !in y.sessions[s].ops)
  {
    ReachableInv(y);
    hide Reachable;
    OwnFactsHoldInv(y, t);
    OwnSessionsHold(y, t);
    hide Inv;
  }

  lemma OverIsReported(y: System, s: SessionId)
    requires s in y.sessions && SessionOk(y, s)
    ensures y.sessions[s].phase == Over ==> y.sessions[s].reports == [Verdict(y.sessions[s])]
  {
  }

  /** What a step may do to the error, the flag and the operations of the session it changes. */
  predicate KeepsAccount(y: System, c: Effect) {
    c.target.Some? && c.target.value in y.sessions ==>
      var x, u := y.sessions[c.target.value], c.session;
      && (u.ec == x.ec || x.phase.Pending?)
      && (x.cancelled ==> u.cancelled && (u.ops == x.ops || (x.ops == [] && u.ops == [Connect])))
  }

  lemma {:induction false} StartKeepsAccount(y: System, t: ThreadId)
    requires Enabled(y, Step(t)) && Starts(y.threads[t]) && OwnSessions(y, t)
    ensures KeepsAccount(y, StartEffect(y, t))
  {
  }

  lemma {:induction false} CancelKeepsAccount(y: System, t: ThreadId)
    requires Enabled(y, Step(t)) && CancelPart(y.threads[t].pc)
    ensures KeepsAccount(y, CancelEffect(y, t))
  {
  }

  lemma {:induction false} HandlerKeepsAccount(y: System, t: ThreadId)
    requires Enabled(y, Step(t)) && !Starts(y.threads[t]) && !CancelPart(y.threads[t].pc)
    ensures KeepsAccount(y, StepEffect(y, t))
  {
  }

  lemma {:induction false} EventKeepsAccount(y: System, e: Event)
    requires Inv(y) && Enabled(y, e) && e != Close
    ensures KeepsAccount(y, EffectOf(y, e))
  {
    hide Inv, OwnSessions, StartEffect, CancelEffect, CheckEffect, EraseEffect;
    if !e.Step? {
      hide StepEffect;
    } else if Starts(y.threads[e.t]) {
      OwnSessionsHold(y, e.t);
      StartKeepsAccount(y, e.t);
    } else if CancelPart(y.threads[e.t].pc) {
      CancelKeepsAccount(y, e.t);
    } else {
      HandlerKeepsAccount(y, e.t);
    }
  }

  lemma {:induction false} StepKeepsError(y: System, s: SessionId, e: Event)
    requires Inv(y) && Enabled(y, e) && s in y.sessions && y.sessions[s].ec.Failed()
    ensures s in Apply(y, e).sessions && Apply(y, e).sessions[s].ec == y.sessions[s].ec
  {
    hide Inv, InFlight, StartUnderway, EffectOf;
    SessionFacts(y, s);
    if e != Close {
      EventKeepsAccount(y, e);
    }
  }

  /** A cancelled session starts no further operation; only its connection may still be asked for, if
      the cancellation came between its registration and that. */
  lemma {:induction false} NothingAfterCancel(y: System, s: SessionId, es: seq<Event>, z: System)
    requires Inv(y) && Leads(y, es, z) && s in y.sessions && y.sessions[s].cancelled
    ensures s in z.sessions && z.sessions[s].cancelled
    ensures z.sessions[s].ops == y.sessions[s].ops || (y.sessions[s].ops == [] && z.sessions[s].ops == [Connect])
    decreases |es|
  {
    hide Inv, Apply, Enabled;
    if es != [] {
      StepKeepsInv(y, es[0]);
      StepAfterCancel(y, s, es[0]);
      NothingAfterCancel(Apply(y, es[0]), s, es[1..], z);
    }
  }

  lemma {:induction false} StepAfterCancel(y: System, s: SessionId, e: Event)
    requires Inv(y) && Enabled(y, e) && s in y.sessions && y.sessions[s].cancelled
    ensures var z := Apply(y, e);
            && s in z.sessions && z.sessions[s].cancelled
            && (z.sessions[s].ops == y.sessions[s].ops || (y.sessions[s].ops == [] && z.sessions[s].ops == [Connect]))
  {
    hide Inv, InFlight, StartUnderway, EffectOf;
    if e != Close {
      EventKeepsAccount(y, e);
    }
  }

  lemma {:induction false} ListedIsLive(y: System, s: SessionId)
    requires Inv(y) && Listed(y, s)
    ensures y.sessions[s].registered && !y.sessions[s].erased
  {
    hide Inv0, SessionsOk, CancellersOk, FoundOk;
  }

  // ------------------------------------------------------------------ the two locks

  /** A thread waits for another one, or for itself: it is about to take a mutex the other one owns. */
  predicate Waits(y: System, t: ThreadId, u: ThreadId) {
    && t in y.threads && u in y.threads
    && var pc := y.threads[t].pc;
       || (WantsMap(pc) && y.guard == Some(u))
       || (WantsGuard(pc) && pc.s in y.sessions && y.sessions[pc.s].guard == Some(u))
  }

  ghost predicate WaitCycle(y: System, p: seq<ThreadId>) {
    p != [] && forall i | 0 <= i < |p| :: Waits(y, p[i], p[if i + 1 == |p| then 0 else i + 1])
  }

  /** One thread cancels a session and has the map's mutex; another one completes that session,
      having seen it cancelled, and has the session's mutex. Each wants the other's. */
  predicate Clash(y: System, t: ThreadId, u: ThreadId) {
    && t in y.threads && u in y.threads
    && y.threads[t].pc.CancelWantsGuard? && y.threads[u].pc == EraseWantsMap(y.threads[t].pc.s, true)
  }

  function Level(pc: Pc): (n: nat)
    ensures n <= 2
  {
    if WantsMap(pc) then 2 else if WantsGuard(pc) then 1 else 0
  }

  predicate Resting(pc: Pc) {
    pc == Idle || pc == Exited
  }

  lemma {:induction false} ClashFacts(y: System, t: ThreadId, u: ThreadId)
    requires Inv(y) && Clash(y, t, u)
    ensures t != u && Waits(y, t, u) && Waits(y, u, t)
    ensures var x := y.sessions[y.threads[t].pc.s]; x.found >= 2 && Read !in x.ops
  {
    OwnFactsHold(y, t);
    OwnFactsHold(y, u);
    OwnSessionsHold(y, u);
    assert CancellerOk(y, y.threads[t].pc.s);
    hide Inv;
  }

  lemma {:induction false} MapHolder(y: System, u: ThreadId)
    requires Inv(y) && u in y.threads && y.guard == Some(u)
    ensures Level(y.threads[u].pc) < 2 && !Resting(y.threads[u].pc)
  {
    OwnFactsHold(y, u);
    hide Inv;
  }

  lemma {:induction false} GuardHolder(y: System, t: ThreadId, u: ThreadId, s: SessionId)
    requires Inv(y) && t in y.threads && u in y.threads && s in y.sessions && y.sessions[s].guard == Some(u)
    requires WantsGuard(y.threads[t].pc) && y.threads[t].pc.s == s && !Clash(y, t, u)
    ensures Level(y.threads[u].pc) == 0 && !Resting(y.threads[u].pc)
  {
    OwnFactsHold(y, u);
    OwnFactsHold(y, t);
    OwnSessionsHold(y, u);
    OwnSessionsHold(y, t);
    if y.threads[t].pc.CancelWantsGuard? {
      ListedIsLive(y, s);
    }
    hide Inv, CancellerOk;
  }

  lemma {:induction false} WaitDescends(y: System, t: ThreadId, u: ThreadId)
    requires Inv(y) && Waits(y, t, u) && !Clash(y, t, u)
    ensures Level(y.threads[u].pc) < Level(y.threads[t].pc) && !Resting(y.threads[u].pc)
  {
    hide Inv;
    if WantsMap(y.threads[t].pc) {
      MapHolder(y, u);
    } else {
      GuardHolder(y, t, u, y.threads[t].pc.s);
    }
  }

  lemma {:induction false} CycleDescends(y: System, p: seq<ThreadId>, k: nat)
    requires Inv(y) && WaitCycle(y, p) && k < |p|
    requires forall t, u :: !Clash(y, t, u)
    ensures p[0] in y.threads && p[k] in y.threads && Level(y.threads[p[k]].pc) + k <= Level(y.threads[p[0]].pc)
  {
    hide Inv, Level, Clash;
    assert Waits(y, p[0], p[if 0 + 1 == |p| then 0 else 0 + 1]);
    if k > 0 {
      CycleDescends(y, p, k - 1);
      assert Waits(y, p[k - 1], p[if k - 1 + 1 == |p| then 0 else k - 1 + 1]);
      WaitDescends(y, p[k - 1], p[k]);
    }
  }

  /** The opposite lock orders block threads exactly in one way: a wait cycle exists if and only if
      one thread cancels, once more, a session whose completion has seen an earlier cancellation. */
  lemma {:induction false} WaitCycleIff(y: System)
    requires Reachable(y)
    ensures (exists p :: WaitCycle(y, p)) <==> (exists t, u :: Clash(y, t, u))
  {
    ReachableInv(y);
    hide Reachable, Inv;
    if t, u :| Clash(y, t, u) {
      ClashFacts(y, t, u);
      assert WaitCycle(y, [t, u]);
    } else if p :| WaitCycle(y, p) {
      var k := |p| - 1;
      CycleDescends(y, p, k);
      assert Waits(y, p[k], p[if k + 1 == |p| then 0 else k + 1]);
      WaitDescends(y, p[k], p[0]);
      assert false;
    }
  }

  /** The session was found by at most one cancellation, or is already being read from, which its
      completion does not check for cancellation any more. */
  predicate SafelyCancelled(x: Session) {
    x.found <= 1 || Read in x.ops
  }

  /** If that is so of every session, there is no clash. */
  lemma {:induction false} OneCancelNoClash(y: System)
    requires Reachable(y) && forall s | s in y.sessions :: SafelyCancelled(y.sessions[s])
    ensures forall t, u :: !Clash(y, t, u)
  {
    ReachableInv(y);
    hide Reachable, Inv;
    if t, u :| Clash(y, t, u) {
      ClashFacts(y, t, u);
      assert false;
    }
  }

  /** Deadlock freedom: if every session was found by at most one cancellation, unless its read had
      been started, no threads wait for each other in a cycle. */
  lemma {:induction false} DeadlockFree(y: System, p: seq<ThreadId>)
    requires Reachable(y) && forall s | s in y.sessions :: SafelyCancelled(y.sessions[s])
    ensures !WaitCycle(y, p)
  {
    WaitCycleIff(y);
    OneCancelNoClash(y);
    hide Reachable, WaitCycle, Clash;
  }

  /** Whoever is not resting can move, or waits for a thread that is not resting. */
  lemma {:induction false} MovesOrWaits(y: System, t: ThreadId) returns (u: ThreadId)
    requires Inv(y) && t in y.threads && !Resting(y.threads[t].pc)
    ensures StepEnabled(y, y.threads[t].pc) || Waits(y, t, u)
  {
    var pc := y.threads[t].pc;
    OwnFactsHold(y, t);
    if pc.CancelInMap? {
      FoundFacts(y, pc.id);
    }
    if WantsMap(pc) && y.guard.Some? {
      u := y.guard.value;
    } else if WantsGuard(pc) && y.sessions[pc.s].guard.Some? {
      u := y.sessions[pc.s].guard.value;
    } else {
      u := t;
    }
  }

  lemma {:induction false} SomebodyMoves(y: System, t: ThreadId) returns (u: ThreadId)
    requires Inv(y) && t in y.threads && !Resting(y.threads[t].pc)
    requires forall v, w :: !Clash(y, v, w)
    ensures u in y.threads && StepEnabled(y, y.threads[u].pc)
    decreases Level(y.threads[t].pc)
  {
    hide Inv, StepEnabled, Waits, Level, Clash;
    var v := MovesOrWaits(y, t);
    if StepEnabled(y, y.threads[t].pc) {
      u := t;
    } else {
      WaitDescends(y, t, v);
      WaitsKnown(y, t, v);
      u := SomebodyMoves(y, v);
    }
  }

  lemma WaitsKnown(y: System, t: ThreadId, u: ThreadId)
    requires Waits(y, t, u)
    ensures u in y.threads
  {
  }

  /** Progress: without a clash, as long as any thread is inside the client's code, some thread can
      take its next step. */
  lemma {:induction false} NeverStuck(y: System)
    requires Reachable(y) && forall t, u :: !Clash(y, t, u)
    requires exists t | t in y.threads :: !Resting(y.threads[t].pc)
    ensures exists u | u in y.threads :: Enabled(y, Step(u))
  {
    ReachableInv(y);
    hide Reachable, Inv, StepEnabled, Clash;
    var t :| t in y.threads && !Resting(y.threads[t].pc);
    var u := SomebodyMoves(y, t);
    assert Enabled(y, Step(u));
  }

  /** The steps that clash: a cancellation finds a session whose completion has seen it cancelled and
      holds its mutex, or a completion sees a session cancelled for which a cancellation is waiting. */
  predicate Clashes(y: System, e: Event)
    requires Enabled(y, e)
  {
    && e.Step?
    && var pc := y.threads[e.t].pc;
       || (pc.CancelInMap? && pc.id in y.active && exists u | u in y.threads :: y.threads[u].pc == EraseWantsMap(y.active[pc.id], true))
       || (pc.CheckInGuard? && y.sessions[pc.s].cancelled && exists t | t in y.threads :: y.threads[t].pc == CancelWantsGuard(pc.s))
  }

  /** What a step makes of its thread when it comes to one of the two sides of a clash. */
  lemma {:induction false} SidesOfClash(y: System, e: Event)
    requires Enabled(y, e) && e != Close
    ensures var pc := EffectOf(y, e).thread.pc;
            && (pc.CancelWantsGuard? <==>
                  e.Step? && y.threads[e.t].pc.CancelInMap? && y.threads[e.t].pc.id in y.active)
            && (pc.CancelWantsGuard? ==> pc.s == y.active[y.threads[e.t].pc.id])
            && (pc.EraseWantsMap? && pc.held <==>
                  e.Step? && y.threads[e.t].pc.CheckInGuard? && y.sessions[y.threads[e.t].pc.s].cancelled)
            && (pc.EraseWantsMap? && pc.held ==> pc.s == y.threads[e.t].pc.s)
  {
    hide InFlight, OutOfWork;
  }

  /** Exactly which steps bring about the first clash. */
  lemma {:induction false} StepClashesIff(y: System, e: Event)
    requires Enabled(y, e) && forall t, u :: !Clash(y, t, u)
    ensures (exists t, u :: Clash(Apply(y, e), t, u)) <==> Clashes(y, e)
  {
    if e != Close {
      SidesOfClash(y, e);
    }
    hide EffectOf, InFlight, StartUnderway, StepEnabled, OutOfWork;
    var z := Apply(y, e);
    if t, u :| Clash(z, t, u) {
      ClashIsNew(y, e, t, u);
    }
    if Clashes(y, e) {
      var pc := y.threads[e.t].pc;
      if pc.CancelInMap? {
        var u :| u in y.threads && y.threads[u].pc == EraseWantsMap(y.active[pc.id], true);
        assert Clash(z, e.t, u);
      } else {
        var t :| t in y.threads && y.threads[t].pc == CancelWantsGuard(pc.s);
        assert Clash(z, t, e.t);
      }
    }
  }

  lemma {:induction false} ClashIsNew(y: System, e: Event, t: ThreadId, u: ThreadId)
    requires Enabled(y, e) && !Clash(y, t, u) && Clash(Apply(y, e), t, u)
    ensures Clashes(y, e)
  {
    if e != Close {
      SidesOfClash(y, e);
    }
    hide EffectOf, InFlight, StartUnderway, StepEnabled, OutOfWork;
  }

  /** And a clash is for ever: no step of any thread ends it. */
  lemma {:induction false} ClashIsForever(y: System, t: ThreadId, u: ThreadId, es: seq<Event>, z: System)
    requires Inv(y) && Clash(y, t, u) && Leads(y, es, z)
    ensures Clash(z, t, u)
    decreases |es|
  {
    hide Inv, Apply, Enabled, Clash;
    if es != [] {
      ClashStays(y, t, u, es[0]);
      StepKeepsInv(y, es[0]);
      ClashIsForever(Apply(y, es[0]), t, u, es[1..], z);
    }
  }

  lemma {:induction false} ClashStays(y: System, t: ThreadId, u: ThreadId, e: Event)
    requires Inv(y) && Clash(y, t, u) && Enabled(y, e)
    ensures Clash(Apply(y, e), t, u)
  {
    hide Inv, EffectOf, StartUnderway, InFlight;
    ClashFacts(y, t, u);
    OwnFactsHoldInv(y, t);
    OwnFactsHoldInv(y, u);
    hide OwnFacts;
  }

  ghost predicate SomeStepClashes(y: System, es: seq<Event>)
    decreases |es|
  {
    es != [] && Enabled(y, es[0]) && (Clashes(y, es[0]) || SomeStepClashes(Apply(y, es[0]), es[1..]))
  }

  /** So a run ends in a deadlock if and only if some step of it clashed. */
  lemma {:induction false} RunClashesIff(y: System, es: seq<Event>, z: System)
    requires Inv(y) && Leads(y, es, z) && forall t, u :: !Clash(y, t, u)
    ensures (exists t, u :: Clash(z, t, u)) <==> SomeStepClashes(y, es)
    decreases |es|
  {
    hide Inv, Apply, Enabled, Clash, Clashes;
    if es != [] {
      StepClashesIff(y, es[0]);
      StepKeepsInv(y, es[0]);
      var next := Apply(y, es[0]);
      if Clashes(y, es[0]) {
        var t, u :| Clash(next, t, u);
        ClashIsForever(next, t, u, es[1..], z);
      } else {
        RunClashesIff(next, es[1..], z);
      }
    }
  }

  lemma {:induction false} OwnFactsHoldInv(y: System, t: ThreadId)
    requires Inv(y) && t in y.threads
    ensures OwnFacts(y, t)
  {
    InvHasInv0(y);
    OwnFactsHold(y, t);
  }

  // ------------------------------------------------------------------ the hypothesis is needed

  ghost predicate Reaches(y: System, z: System) {
    exists es :: Leads(y, es, z)
  }

  lemma {:induction false} LeadsFurther(y: System, es: seq<Event>, z: System, e: Event)
    requires Leads(y, es, z) && Enabled(z, e)
    ensures Leads(y, es + [e], Apply(z, e))
    decreases |es|
  {
    hide Enabled, Apply;
    if es == [] {
      assert [e][1..] == [];
    } else {
      LeadsFurther(Apply(y, es[0]), es[1..], z, e);
      assert (es + [e])[1..] == es[1..] + [e];
    }
  }

  lemma {:induction false} OneStep(y: System, z: System, e: Event)
    requires Reaches(y, z) && Enabled(z, e)
    ensures Reaches(y, Apply(z, e))
  {
    hide Enabled, Apply, Leads;
    var es :| Leads(y, es, z);
    LeadsFurther(y, es, z, e);
  }

  /** What the events lead to from a reachable state is reachable. */
  lemma {:induction false} ReachableStep(y: System, e: Event)
    requires Reachable(y) && Enabled(y, e)
    ensures Reachable(Apply(y, e))
  {
    hide Enabled, Apply, Initial, Leads;
    var y0, es :| Initial(y0) && Leads(y0, es, y);
    LeadsFurther(y0, es, y, e);
  }

  /** A new request takes the map's mutex. */
  lemma {:induction false} EnterRun(y0: System, y: System, t: ThreadId, s: SessionId, id: int) returns (z: System)
    requires Reaches(y0, y) && Enabled(y, Start(t, s, id)) && y.guard == None
    ensures Reaches(y0, z)
    ensures z == y.(threads := y.threads[t := y.threads[t].(pc := StartInMap(s))],
                    sessions := y.sessions[s := NewSession(id, t)], guard := Some(t),
                    duplicate := y.duplicate || InFlight(y, id),
                    late := y.late || (y.closed && y.threads[t].frame == None))
  {
    hide Leads, Reaches, InFlight, CancelEffect, CheckEffect, EraseEffect;
    z := Apply(y, Start(t, s, id));
    OneStep(y0, y, Start(t, s, id));
    OneStep(y0, z, Step(t));
    z := Apply(z, Step(t));
  }

  /** It enters its session and releases the mutex. */
  lemma {:induction false} RegisterRun(y0: System, y: System, t: ThreadId, s: SessionId, id: int) returns (z: System)
    requires Reaches(y0, y) && Enabled(y, Start(t, s, id)) && y.guard == None
    ensures Reaches(y0, z)
    ensures z == y.(threads := y.threads[t := y.threads[t].(pc := StartConnects(s))],
                    sessions := y.sessions[s := NewSession(id, t).(registered := true)],
                    active := y.active[id := s], duplicate := y.duplicate || InFlight(y, id),
                    late := y.late || (y.closed && y.threads[t].frame == None))
  {
    hide Leads, Reaches, InFlight, CancelEffect, CheckEffect, EraseEffect, Asked;
    var z1 := EnterRun(y0, y, t, s, id);
    OneStep(y0, z1, Step(t));
    z := Apply(z1, Step(t));
  }

  /** A request is registered and its connection asked for. */
  lemma {:induction false} StartRun(y0: System, y: System, t: ThreadId, s: SessionId, id: int) returns (z: System)
    requires Reaches(y0, y) && Enabled(y, Start(t, s, id)) && y.guard == None
    ensures Reaches(y0, z)
    ensures z == y.(sessions := y.sessions[s := NewSession(id, t).(phase := Asked(y), registered := true, ops := [Connect])],
                    active := y.active[id := s], duplicate := y.duplicate || InFlight(y, id),
                    late := y.late || (y.closed && y.threads[t].frame == None))
  {
    hide Leads, Reaches, InFlight, CancelEffect, CheckEffect, EraseEffect, Asked;
    var z1 := RegisterRun(y0, y, t, s, id);
    AskedTheSame(y, z1, t, s, id);
    OneStep(y0, z1, Step(t));
    z := Apply(z1, Step(t));
    assert z.threads == y.threads;
  }

  /** A thread that starts a request changes nothing about the work of the event loop. */
  lemma {:induction false} AskedTheSame(y: System, z: System, t: ThreadId, s: SessionId, id: int)
    requires Enabled(y, Start(t, s, id)) && z.closed == y.closed
    requires z.threads == y.threads[t := y.threads[t].(pc := StartConnects(s))]
    requires s in z.sessions && z.sessions == y.sessions[s := z.sessions[s]] && z.sessions[s].phase.Starting?
    ensures Asked(z) == Asked(y)
  {
    if y.threads[t].io {
      assert t in y.threads && y.threads[t].frame.Some?;
      assert t in z.threads && z.threads[t].io && z.threads[t].frame.Some?;
    } else {
      assert NoWork(z) ==> NoWork(y) by {
        forall r | NoWork(z) && r in y.threads && y.threads[r].io
          ensures (y.threads[r].pc == Idle || y.threads[r].pc == Exited) && y.threads[r].frame == None
        {
          assert z.threads[r] == y.threads[r];
        }
        forall r | NoWork(z) && r in y.sessions
          ensures !y.sessions[r].phase.Pending?
        {
          assert z.sessions[r] == y.sessions[r];
        }
      }
    }
  }

  /** A cancellation takes the map's mutex and finds a session whose mutex it wants next. */
  lemma {:induction false} FindRun(y0: System, y: System, t: ThreadId, id: int) returns (z: System)
    requires Reaches(y0, y) && Enabled(y, Cancel(t, id)) && y.guard == None && id in y.active && y.active[id] in y.sessions
    ensures Reaches(y0, z)
    ensures var s := y.active[id];
            z == y.(threads := y.threads[t := y.threads[t].(pc := CancelWantsGuard(s))],
                    sessions := y.sessions[s := y.sessions[s].(found := y.sessions[s].found + 1)], guard := Some(t))
  {
    hide Leads, Reaches;
    z := Apply(y, Cancel(t, id));
    OneStep(y0, y, Cancel(t, id));
    var z1 := Apply(z, Step(t));
    OneStep(y0, z, Step(t));
    OneStep(y0, z1, Step(t));
    z := Apply(z1, Step(t));
  }

  /** It takes that mutex as well, sets the flag and leaves. */
  lemma {:induction false} FlagRun(y0: System, y: System, t: ThreadId) returns (z: System)
    requires Reaches(y0, y) && t in y.threads && y.threads[t].pc.CancelWantsGuard? && Enabled(y, Step(t))
    ensures Reaches(y0, z)
    ensures var s := y.threads[t].pc.s;
            z == y.(threads := y.threads[t := y.threads[t].(pc := Idle)],
                    sessions := y.sessions[s := y.sessions[s].(cancelled := true, guard := None)], guard := None)
  {
    hide Leads, Reaches;
    z := Apply(y, Step(t));
    OneStep(y0, y, Step(t));
    var z1 := Apply(z, Step(t));
    OneStep(y0, z, Step(t));
    OneStep(y0, z1, Step(t));
    z := Apply(z1, Step(t));
  }

  /** A handler starts for a cancelled session, sees the flag, and wants the map's mutex. */
  lemma {:induction false} HandlerRun(y0: System, y: System, c: ThreadId, s: SessionId) returns (z: System)
    requires Reaches(y0, y) && Enabled(y, Complete(c, s, Success))
    requires var x := y.sessions[s]; x.phase != Pending(Read) && x.cancelled && x.guard == None
    ensures Reaches(y0, z)
    ensures z == y.(threads := y.threads[c := y.threads[c].(pc := EraseWantsMap(s, true))],
                    sessions := y.sessions[s := y.sessions[s].(phase := Handling(c), guard := Some(c))])
  {
    hide Leads, Reaches;
    z := Apply(y, Complete(c, s, Success));
    OneStep(y0, y, Complete(c, s, Success));
    var z1 := Apply(z, Step(c));
    OneStep(y0, z, Step(c));
    OneStep(y0, z1, Step(c));
    z := Apply(z1, Step(c));
  }

  /** Any state where a live request that still connects or writes has been cancelled once can reach
      a deadlock, by a completion and one more cancellation. */
  lemma {:induction false} SecondCancelDeadlocks(y0: System, y: System, t: ThreadId, c: ThreadId, id: int) returns (z: System)
    requires Reaches(y0, y)
    requires Enabled(y, Cancel(t, id)) && y.guard == None && id in y.active && t != c
    requires Enabled(y, Complete(c, y.active[id], Success))
    requires var x := y.sessions[y.active[id]]; x.phase != Pending(Read) && x.cancelled && x.guard == None
    ensures Reaches(y0, z) && Clash(z, t, c)
    ensures var s := y.active[id];
            z == y.(threads := y.threads[c := y.threads[c].(pc := EraseWantsMap(s, true))][t := y.threads[t].(pc := CancelWantsGuard(s))],
                    sessions := y.sessions[s := y.sessions[s].(phase := Handling(c), guard := Some(c), found := y.sessions[s].found + 1)],
                    guard := Some(t))
  {
    assert t in y.threads;
    hide Leads, Enabled;
    var z1 := HandlerRun(y0, y, c, y.active[id]);
    assert Enabled(z1, Cancel(t, id)) by { EnabledCancel(y, z1, t, id); }
    z := FindRun(y0, z1, t, id);
  }

  lemma EnabledCancel(y: System, z: System, t: ThreadId, id: int)
    requires Enabled(y, Cancel(t, id)) && t in z.threads && z.threads[t] == y.threads[t]
    ensures Enabled(z, Cancel(t, id))
  {
  }

  lemma {:induction false} TwoCancelsClash() returns (y: System)
    ensures Reachable(y) && !y.duplicate && !y.late && y.sessions.Keys == {0} && y.sessions[0].found == 2
    ensures Clash(y, 0, 1)
  {
    hide Leads, Clash, WantsGuard, WantsMap, StepEnabled;
    var y0 := System(map[0 := Thread(false, Idle, None), 1 := Thread(true, Idle, None)], map[], map[], None, false, false, false);
    LeadsNowhere(y0);
    var y1 := StartRun(y0, y0, 0, 0, 7);
    var y2 := FindRun(y0, y1, 0, 7);
    assert Enabled(y2, Step(0)) by { FlagEnabled(y2, 0); }
    var y3 := FlagRun(y0, y2, 0);
    y := SecondCancelDeadlocks(y0, y3, 0, 1, 7);
  }

  lemma FlagEnabled(y: System, t: ThreadId)
    requires t in y.threads && y.threads[t].pc.CancelWantsGuard?
    requires y.threads[t].pc.s in y.sessions && y.sessions[y.threads[t].pc.s].guard == None
    ensures Enabled(y, Step(t))
  {
  }

  /** One user thread, one I/O thread: a request is started and cancelled twice, and its connection
      succeeds in the meantime. Both threads are then blocked for ever. */
  lemma {:induction false} TwoCancelsDeadlock() returns (y: System)
    ensures Reachable(y) && !y.duplicate && !y.late && y.sessions.Keys == {0} && y.sessions[0].found == 2
    ensures forall es, z :: Leads(y, es, z) ==> Clash(z, 0, 1)
  {
    y := TwoCancelsClash();
    ReachableInv(y);
    hide Reachable, Inv, Leads, Clash;
    forall es, z | Leads(y, es, z)
      ensures Clash(z, 0, 1)
    {
      ClashIsForever(y, 0, 1, es, z);
    }
  }

  lemma LeadsNowhere(y: System)
    ensures Leads(y, [], y)
  {
  }
}
