/** How far the two-lock protocol can go by itself: every step of a thread inside the client's code,
    every completion, return and exit lowers a measure, which only new calls raise. */
module CancelProgress {
  import opened CancelProtocol
  import opened CancelTheorems
  import opened CancelClosing

  // ------------------------------------------------------------------ sums over maps

  ghost function Sum(m: map<nat, nat>): nat
    decreases |m|
  {
    if m == map[] then 0
    else
      var k :| k in m;
      assert (m - {k}).Keys == m.Keys - {k};
      m[k] + Sum(m - {k})
  }

  lemma {:induction false} SumWithout(m: map<nat, nat>, k: nat)
    requires k in m
    ensures Sum(m) == m[k] + Sum(m - {k})
    decreases |m|
  {
    var j :| j in m && Sum(m) == m[j] + Sum(m - {j});
    if j != k {
      assert (m - {j}).Keys == m.Keys - {j} && (m - {k}).Keys == m.Keys - {k};
      SumWithout(m - {j}, k);
      SumWithout(m - {k}, j);
      assert m - {j} - {k} == m - {k} - {j};
    }
  }

  lemma {:induction false} SumUpdated(m: map<nat, nat>, k: nat, v: nat)
    ensures Sum(m[k := v]) + (if k in m then m[k] else 0) == Sum(m) + v
  {
    SumWithout(m[k := v], k);
    assert m[k := v] - {k} == m - {k};
    if k in m {
      SumWithout(m, k);
    } else {
      assert m - {k} == m;
    }
  }

  // ------------------------------------------------------------------ the measure

  function OperationWeight(op: Operation): nat {
    match op
    case Connect => 15
    case Write => 11
    case Read => 7
  }

  function PcWeight(pc: Pc): nat {
    match pc
    case Exited => 0
    case Idle => 1
    case StartWantsMap(_) => 19
    case StartInMap(_) => 18
    case StartConnects(_) => 17
    case CancelWantsMap(_) => 6
    case CancelInMap(_) => 5
    case CancelWantsGuard(_) => 4
    case CancelInGuard(_) => 3
    case CancelLeaves => 2
    case CheckWantsGuard(_, done) => OperationWeight(done)
    case CheckInGuard(_, done) => OperationWeight(done) - 1
    case CheckLeaves(_) => 2
    case EraseWantsMap(_, _) => 7
    case EraseInMap(_, _) => 6
    case Reports(_, _) => 5
  }

  function ThreadWeight(th: Thread): nat {
    PcWeight(th.pc) + if th.frame.Some? then 2 else 0
  }

  function SessionWeight(x: Session): nat {
    if x.phase.Pending? then OperationWeight(x.phase.op) else 0
  }

  function ThreadWeights(y: System): map<ThreadId, nat> {
    map t | t in y.threads :: ThreadWeight(y.threads[t])
  }

  function SessionWeights(y: System): map<SessionId, nat> {
    map s | s in y.sessions :: SessionWeight(y.sessions[s])
  }

  /** What the threads still have to do, and the operations still pending. */
  ghost function Weight(y: System): nat {
    Sum(ThreadWeights(y)) + Sum(SessionWeights(y))
  }

  /** What an event adds to the measure at most. */
  function Gain(e: Event): int {
    match e
    case Start(_, _, _) => 18
    case Cancel(_, _) => 5
    case Close => 0
    case _ => -1
  }

  function Before(y: System, t: ThreadId, c: Effect): nat
    requires t in y.threads
  {
    ThreadWeight(y.threads[t])
    + if c.target.Some? && c.target.value in y.sessions then SessionWeight(y.sessions[c.target.value]) else 0
  }

  function After(c: Effect): nat {
    ThreadWeight(c.thread) + if c.target.Some? then SessionWeight(c.session) else 0
  }

  lemma {:induction false} PatchWeight(y: System, t: ThreadId, c: Effect)
    requires t in y.threads
    ensures Weight(Patch(y, t, c)) + Before(y, t, c) == Weight(y) + After(c)
  {
    var z := Patch(y, t, c);
    SumUpdated(ThreadWeights(y), t, ThreadWeight(c.thread));
    assert ThreadWeights(z) == ThreadWeights(y)[t := ThreadWeight(c.thread)];
    if c.target.Some? {
      SumUpdated(SessionWeights(y), c.target.value, SessionWeight(c.session));
      assert SessionWeights(z) == SessionWeights(y)[c.target.value := SessionWeight(c.session)];
    } else {
      assert SessionWeights(z) == SessionWeights(y);
    }
    hide ThreadWeight, SessionWeight;
  }

  lemma {:induction false} StartStepWeighs(y: System, t: ThreadId)
    requires Enabled(y, Step(t)) && Starts(y.threads[t])
    ensures After(StartEffect(y, t)) < Before(y, t, StartEffect(y, t))
  {
  }

  lemma {:induction false} CancelStepWeighs(y: System, t: ThreadId)
    requires Enabled(y, Step(t)) && CancelPart(y.threads[t].pc)
    ensures After(CancelEffect(y, t)) < Before(y, t, CancelEffect(y, t))
  {
  }

  lemma {:induction false} HandlerStepWeighs(y: System, t: ThreadId)
    requires Enabled(y, Step(t)) && OwnFacts(y, t) && !Starts(y.threads[t]) && !CancelPart(y.threads[t].pc)
    ensures After(StepEffect(y, t)) < Before(y, t, StepEffect(y, t))
  {
    hide HoldsGuard, StartOf;
  }

  lemma {:induction false} EventWeighs(y: System, e: Event)
    requires Inv(y) && Enabled(y, e) && e != Close
    ensures After(EffectOf(y, e)) <= Before(y, e.t, EffectOf(y, e)) + Gain(e)
  {
    hide Inv, OwnFacts, InFlight, StartEffect, CancelEffect, CheckEffect, EraseEffect;
    if !e.Step? {
      hide StepEffect;
    } else if Starts(y.threads[e.t]) {
      StartStepWeighs(y, e.t);
    } else if CancelPart(y.threads[e.t].pc) {
      CancelStepWeighs(y, e.t);
    } else {
      OwnFactsHoldInv(y, e.t);
      HandlerStepWeighs(y, e.t);
    }
  }

  /** Every step, completion, return and exit lowers the measure; only starting and cancelling raise it. */
  lemma {:induction false} StepDescends(y: System, e: Event)
    requires Inv(y) && Enabled(y, e)
    ensures Weight(Apply(y, e)) <= Weight(y) + Gain(e)
  {
    hide Inv, EffectOf, InFlight, StartUnderway, Before, After, Patch;
    if e == Close {
      assert ThreadWeights(Apply(y, e)) == ThreadWeights(y) && SessionWeights(Apply(y, e)) == SessionWeights(y);
    } else {
      EventWeighs(y, e);
      PatchWeight(y, e.t, EffectOf(y, e));
      var z := Patch(y, e.t, EffectOf(y, e));
      assert ThreadWeights(Apply(y, e)) == ThreadWeights(z) && SessionWeights(Apply(y, e)) == SessionWeights(z);
    }
  }

  function Gains(es: seq<Event>): int {
    if es == [] then 0 else Gain(es[0]) + Gains(es[1..])
  }

  /** So every run is bounded by what it begins with and by its calls: each start pays for at most 18
      other events, each cancellation for at most 5. */
  lemma {:induction false} RunIsBounded(y: System, es: seq<Event>, z: System)
    requires Inv(y) && Leads(y, es, z)
    ensures 0 <= Weight(z) <= Weight(y) + Gains(es)
    decreases |es|
  {
    hide Inv, Apply, Enabled, Weight, Gain;
    if es != [] {
      StepDescends(y, es[0]);
      StepKeepsInv(y, es[0]);
      RunIsBounded(Apply(y, es[0]), es[1..], z);
    }
  }

  /** Neither a new call nor another `close`. */
  predicate ByItself(es: seq<Event>) {
    forall i | 0 <= i < |es| :: !es[i].Start? && !es[i].Cancel? && es[i] != Close
  }

  /** Nothing can happen any more without a new call. */
  ghost predicate AtRest(y: System) {
    forall e: Event :: Enabled(y, e) ==> e.Start? || e.Cancel? || e == Close
  }

  lemma {:induction false} GainsByItself(es: seq<Event>)
    requires ByItself(es)
    ensures Gains(es) == -|es|
  {
    if es != [] {
      GainsByItself(es[1..]);
    }
  }

  /** `close` returns: after it, and without new calls, every run is bounded; and where it can go no
      further, every I/O thread has left if and only if no second cancellation clashes with a
      completion. */
  lemma {:induction false} CloseReturns(y: System, es: seq<Event>, z: System)
    requires Reachable(y) && y.closed && Leads(y, es, z) && ByItself(es)
    ensures |es| <= Weight(y)
    ensures AtRest(z) ==> (Closed(z) <==> forall t, u :: !Clash(z, t, u))
  {
    ReachableInv(y);
    RunIsBounded(y, es, z);
    GainsByItself(es);
    StaysReachable(y, es, z);
    ReachableInv(z);
    hide Reachable, Inv, Leads, Weight, Enabled, Clash;
    if t, u :| Clash(z, t, u) {
      ClashHoldsThread(z, t, u);
    } else if AtRest(z) && !Closed(z) {
      var e := CloseGoesOn(z);
      assert false;
    }
  }

  lemma {:induction false} ClashHoldsThread(y: System, t: ThreadId, u: ThreadId)
    requires Inv(y) && Clash(y, t, u)
    ensures !Closed(y)
  {
    OwnFactsHoldInv(y, u);
    hide Inv;
  }

  lemma {:induction false} StaysReachable(y: System, es: seq<Event>, z: System)
    requires Reachable(y) && Leads(y, es, z)
    ensures Reachable(z) && (y.closed ==> z.closed)
    decreases |es|
  {
    hide Reachable, Apply, Enabled;
    if es != [] {
      ReachableStep(y, es[0]);
      StaysClosed(y, es[0]);
      StaysReachable(Apply(y, es[0]), es[1..], z);
    }
  }

  lemma {:induction false} StaysClosed(y: System, e: Event)
    requires Enabled(y, e)
    ensures y.closed ==> Apply(y, e).closed
  {
    hide EffectOf, InFlight, StartUnderway;
  }
}
