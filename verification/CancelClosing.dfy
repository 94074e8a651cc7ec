/** The end of the client: which requests have been served when `close` returns, and that it does. */
module CancelClosing {
  import opened Streams
  import opened CancelProtocol
  import opened CancelTheorems
  import opened CancelRegistry

  // ------------------------------------------------------------------ what an event does to a session

  /** The way of a session: it is started, then asked of the event loop, which serves it to its end
      unless it had already stopped. */
  predicate GoesItsWay(y: System, c: Effect) {
    c.target.Some? ==>
      var p := c.session.phase;
      if c.target.value !in y.sessions then p.Starting?
      else
        var was := y.sessions[c.target.value].phase;
        && (was.Starting? ==> p == was || p == Asked(y))
        && (was == Stranded ==> p == Stranded)
        && (Served(was) ==> Served(p))
  }

  predicate Served(p: Phase) {
    p.Pending? || p.Handling? || p == Over
  }

  lemma {:induction false} StartStepGoes(y: System, t: ThreadId)
    requires Enabled(y, Step(t)) && OwnFacts(y, t) && Starts(y.threads[t])
    ensures GoesItsWay(y, StartEffect(y, t))
  {
    hide HoldsGuard, HandlingOf, OutOfWork;
  }

  lemma {:induction false} CancelStepGoes(y: System, t: ThreadId)
    requires Enabled(y, Step(t)) && CancelPart(y.threads[t].pc)
    ensures GoesItsWay(y, CancelEffect(y, t))
  {
    hide Asked;
  }

  lemma {:induction false} HandlerStepGoes(y: System, t: ThreadId)
    requires Enabled(y, Step(t)) && OwnFacts(y, t) && !Starts(y.threads[t]) && !CancelPart(y.threads[t].pc)
    ensures GoesItsWay(y, StepEffect(y, t))
  {
    hide HoldsGuard, Asked;
  }

  lemma {:induction false} EventGoes(y: System, e: Event)
    requires Inv(y) && Enabled(y, e) && e != Close
    ensures GoesItsWay(y, EffectOf(y, e))
  {
    hide Inv, InFlight, Asked, StartEffect, CancelEffect, CheckEffect, EraseEffect, OutOfWork;
    if !e.Step? {
      OwnFactsHoldInv(y, e.t);
      hide OwnFacts, GoesItsWay;
      CallGoes(y, e);
    } else if Starts(y.threads[e.t]) {
      OwnFactsHoldInv(y, e.t);
      hide OwnFacts, GoesItsWay;
      StartStepGoes(y, e.t);
    } else if CancelPart(y.threads[e.t].pc) {
      hide GoesItsWay;
      CancelStepGoes(y, e.t);
    } else {
      OwnFactsHoldInv(y, e.t);
      hide OwnFacts, GoesItsWay;
      HandlerStepGoes(y, e.t);
    }
  }

  lemma {:induction false} CallGoes(y: System, e: Event)
    requires Enabled(y, e) && e != Close && !e.Step? && OwnFacts(y, e.t)
    ensures GoesItsWay(y, EffectOf(y, e))
  {
    hide InFlight, Asked, StepEffect, OutOfWork, HoldsGuard;
  }

  // ------------------------------------------------------------------ the event loop has stopped

  /** Once the loop has stopped no I/O thread does anything but leave, and nobody reports. */
  predicate OnlyLeaves(y: System, t: ThreadId, c: Effect)
    requires t in y.threads
  {
    && c.thread.io == y.threads[t].io
    && (c.thread.io ==> (c.thread.pc == Idle || c.thread.pc == Exited) && c.thread.frame == None)
    && (c.target.Some? ==>
          && !c.session.phase.Pending?
          && c.session.reports == if c.target.value in y.sessions then y.sessions[c.target.value].reports else [])
  }

  lemma {:induction false} StartStepLeaves(y: System, t: ThreadId)
    requires Enabled(y, Step(t)) && OwnFacts(y, t) && OutOfWork(y) && Starts(y.threads[t])
    ensures OnlyLeaves(y, t, StartEffect(y, t))
  {
    hide HoldsGuard, HandlingOf;
  }

  lemma {:induction false} CancelStepLeaves(y: System, t: ThreadId)
    requires Enabled(y, Step(t)) && OwnFacts(y, t) && OutOfWork(y) && CancelPart(y.threads[t].pc)
    ensures OnlyLeaves(y, t, CancelEffect(y, t))
  {
    hide HoldsGuard, HandlingOf, StartOf;
  }

  lemma {:induction false} EventLeaves(y: System, e: Event)
    requires Inv(y) && Enabled(y, e) && e != Close && OutOfWork(y)
    ensures OnlyLeaves(y, e.t, EffectOf(y, e))
  {
    OwnFactsHoldInv(y, e.t);
    hide Inv, InFlight, StartEffect, CancelEffect, CheckEffect, EraseEffect, HoldsGuard, StartOf, HandlingOf;
    if !e.Step? {
      hide StepEffect;
    } else if Starts(y.threads[e.t]) {
      StartStepLeaves(y, e.t);
    } else {
      CancelStepLeaves(y, e.t);
    }
  }

  lemma {:induction false} PatchLeaves(y: System, t: ThreadId, c: Effect)
    requires NoWork(y) && t in y.threads && OnlyLeaves(y, t, c)
    ensures NoWork(Patch(y, t, c))
  {
  }

  /** A stopped event loop stays stopped; sessions keep their reports, and what is asked of it now
      is stranded. */
  lemma {:induction false} StoppedStep(y: System, e: Event)
    requires Inv(y) && Enabled(y, e) && OutOfWork(y)
    ensures var z := Apply(y, e);
            && OutOfWork(z)
            && (forall s | s in y.sessions :: s in z.sessions && z.sessions[s].reports == y.sessions[s].reports)
            && (forall s | s in z.sessions && s !in y.sessions :: z.sessions[s].reports == [])
  {
    hide Inv, EffectOf, InFlight, StartUnderway, StepEnabled, NoWork;
    if e == Close {
      SameWork(y, Apply(y, e));
    } else {
      EventLeaves(y, e);
      PatchLeaves(y, e.t, EffectOf(y, e));
      SameWork(Patch(y, e.t, EffectOf(y, e)), Apply(y, e));
    }
  }

  lemma {:induction false} SameWork(y: System, z: System)
    requires y.threads == z.threads && y.sessions == z.sessions
    ensures NoWork(y) == NoWork(z)
  {
  }

  lemma {:induction false} StoppedForever(y: System, es: seq<Event>, z: System)
    requires Inv(y) && OutOfWork(y) && Leads(y, es, z)
    ensures OutOfWork(z)
    ensures forall s | s in y.sessions :: s in z.sessions && z.sessions[s].reports == y.sessions[s].reports
    ensures forall s | s in z.sessions && s !in y.sessions :: z.sessions[s].reports == []
    decreases |es|
  {
    hide Inv, Apply, Enabled, OutOfWork;
    if es != [] {
      StoppedStep(y, es[0]);
      StepKeepsInv(y, es[0]);
      StoppedForever(Apply(y, es[0]), es[1..], z);
    }
  }

  // ------------------------------------------------------------------ who is served

  /** Only a stopped event loop strands sessions; threads leave only when it has stopped. */
  predicate StopsInOrder(y: System) {
    OutOfWork(y) || ((forall s | s in y.sessions :: y.sessions[s].phase != Stranded)
                     && (forall t | t in y.threads :: y.threads[t].pc != Exited))
  }

  lemma {:induction false} OnlyExitLeaves(y: System, e: Event)
    requires Enabled(y, e) && e != Close
    ensures EffectOf(y, e).thread.pc == Exited ==> e.Exit?
  {
    hide InFlight, Asked;
  }

  lemma {:induction false} StepStopsInOrder(y: System, e: Event)
    requires Inv(y) && Enabled(y, e) && StopsInOrder(y)
    ensures StopsInOrder(Apply(y, e))
  {
    hide Inv, OutOfWork, Apply;
    if OutOfWork(y) {
      StoppedStep(y, e);
    } else if e == Close {
      CloseStrandsNobody(y);
    } else {
      RunningStep(y, e);
    }
  }

  lemma CloseStrandsNobody(y: System)
    ensures Apply(y, Close).sessions == y.sessions && Apply(y, Close).threads == y.threads
  {
  }

  /** An event loop that has not stopped strands nobody, and nobody leaves it. */
  lemma {:induction false} RunningStep(y: System, e: Event)
    requires Inv(y) && Enabled(y, e) && e != Close && StopsInOrder(y) && !OutOfWork(y)
    ensures var z := Apply(y, e);
            && (forall s | s in z.sessions :: z.sessions[s].phase != Stranded)
            && (forall t | t in z.threads :: z.threads[t].pc != Exited)
  {
    hide Inv, OutOfWork, EffectOf, Enabled, GoesItsWay, StartUnderway, InFlight;
    EventGoes(y, e);
    OnlyExitLeaves(y, e);
    ExitNeedsStop(y, e);
    WayEnds(y, EffectOf(y, e));
  }

  lemma ExitNeedsStop(y: System, e: Event)
    requires Enabled(y, e) && e != Close
    ensures e.t in y.threads && (e.Exit? ==> OutOfWork(y))
  {
  }

  lemma {:induction false} WayEnds(y: System, c: Effect)
    requires GoesItsWay(y, c) && !OutOfWork(y) && forall s | s in y.sessions :: y.sessions[s].phase != Stranded
    ensures c.target.Some? ==> c.session.phase != Stranded
  {
    hide OutOfWork;
  }

  lemma {:induction false} RunStopsInOrder(y: System, es: seq<Event>, z: System)
    requires Inv(y) && Leads(y, es, z) && StopsInOrder(y)
    ensures StopsInOrder(z)
    decreases |es|
  {
    hide Inv, Apply, Enabled, StopsInOrder;
    if es != [] {
      StepKeepsInv(y, es[0]);
      StepStopsInOrder(y, es[0]);
      RunStopsInOrder(Apply(y, es[0]), es[1..], z);
    }
  }

  /** What the event loop has served once it has stopped, it has served to the end. */
  lemma {:induction false} ServedToTheEnd(y: System, s: SessionId)
    requires Inv(y) && OutOfWork(y) && s in y.sessions
    ensures if Served(y.sessions[s].phase) then y.sessions[s].phase == Over && |y.sessions[s].reports| == 1
            else y.sessions[s].reports == []
  {
    SessionFacts(y, s);
    if y.sessions[s].phase.Handling? {
      OwnFactsHoldInv(y, y.sessions[s].phase.t);
    }
    hide Inv;
  }

  lemma {:induction false} StepKeepsServed(y: System, e: Event, s: SessionId)
    requires Inv(y) && Enabled(y, e) && s in y.sessions && Served(y.sessions[s].phase)
    ensures s in Apply(y, e).sessions && Served(Apply(y, e).sessions[s].phase)
  {
    if e != Close {
      EventGoes(y, e);
    }
    hide Inv, EffectOf, InFlight, StartUnderway, StepEnabled, Served;
  }

  lemma {:induction false} RunKeepsServed(y: System, es: seq<Event>, z: System, s: SessionId)
    requires Inv(y) && Leads(y, es, z) && s in y.sessions && Served(y.sessions[s].phase)
    ensures s in z.sessions && Served(z.sessions[s].phase)
    decreases |es|
  {
    hide Inv, Apply, Enabled, Served;
    if es != [] {
      StepKeepsInv(y, es[0]);
      StepKeepsServed(y, es[0], s);
      RunKeepsServed(Apply(y, es[0]), es[1..], z, s);
    }
  }

  /** The connection has been asked for, of an event loop that has not stopped. */
  predicate AskedNow(y: System, s: SessionId) {
    !OutOfWork(y) && s in y.sessions && !y.sessions[s].phase.Starting?
  }

  /** At some moment of the run the connection has been asked for and the event loop has not stopped. */
  ghost predicate AskedInTime(y: System, es: seq<Event>, s: SessionId)
    decreases |es|
  {
    AskedNow(y, s) || (es != [] && Enabled(y, es[0]) && AskedInTime(Apply(y, es[0]), es[1..], s))
  }

  lemma {:induction false} NeverAskedOnceStopped(y: System, es: seq<Event>, s: SessionId)
    requires Inv(y) && OutOfWork(y)
    ensures !AskedInTime(y, es, s)
    decreases |es|
  {
    hide Inv, OutOfWork, Enabled, Apply;
    if es != [] && Enabled(y, es[0]) {
      StoppedStep(y, es[0]);
      StepKeepsInv(y, es[0]);
      NeverAskedOnceStopped(Apply(y, es[0]), es[1..], s);
    }
  }

  /** The step that stops the event loop serves no session that had not been asked for. */
  lemma {:induction false} StoppingServesNobody(y: System, e: Event, s: SessionId)
    requires Inv(y) && Enabled(y, e) && !OutOfWork(y) && OutOfWork(Apply(y, e)) && !AskedNow(y, s)
    ensures s in Apply(y, e).sessions ==> Apply(y, e).sessions[s].reports == []
  {
    hide Inv, EffectOf, InFlight, StartUnderway, StepEnabled, Apply, Enabled;
    StepKeepsInv(y, e);
    if s in Apply(y, e).sessions {
      NotServedAtOnce(y, e, s);
      ServedToTheEnd(Apply(y, e), s);
    }
  }

  lemma {:induction false} NotServedAtOnce(y: System, e: Event, s: SessionId)
    requires Inv(y) && Enabled(y, e) && !OutOfWork(y) && !AskedNow(y, s) && s in Apply(y, e).sessions
    ensures Apply(y, e).sessions[s].phase.Starting? || Apply(y, e).sessions[s].phase == Pending(Connect)
  {
    hide Inv, EffectOf, InFlight, StartUnderway, Enabled, NoWork;
    if e != Close {
      EventGoes(y, e);
    }
  }

  lemma {:induction false} ServedIffAsked(y: System, es: seq<Event>, z: System, s: SessionId)
    requires Inv(y) && StopsInOrder(y) && !OutOfWork(y) && Leads(y, es, z) && OutOfWork(z) && s in z.sessions
    ensures if AskedInTime(y, es, s) then z.sessions[s].phase == Over && |z.sessions[s].reports| == 1
            else z.sessions[s].reports == []
    decreases |es|
  {
    RunKeepsInv(y, es, z);
    if AskedNow(y, s) {
      assert Served(y.sessions[s].phase);
      RunKeepsServed(y, es, z, s);
      ServedToTheEnd(z, s);
      hide Inv, Leads;
    } else {
      hide Inv, OutOfWork, Enabled, Apply, StopsInOrder, AskedNow;
      var next := Apply(y, es[0]);
      StepKeepsInv(y, es[0]);
      StepStopsInOrder(y, es[0]);
      if OutOfWork(next) {
        StoppingServesNobody(y, es[0], s);
        NeverAskedOnceStopped(next, es[1..], s);
        StoppedForever(next, es[1..], z);
      } else {
        ServedIffAsked(next, es[1..], z, s);
      }
    }
  }

  // ------------------------------------------------------------------ closing

  /** No I/O thread is left, or there never was one. */
  predicate Deserted(y: System) {
    forall t | t in y.threads && y.threads[t].io :: y.threads[t].pc == Exited
  }

  /** `close` has returned: every I/O thread has been joined. */
  predicate Closed(y: System) {
    y.closed && Deserted(y)
  }

  /** Exactly which requests have had their callback when `close` returns, with at least one I/O thread:
      those whose connection was asked for before the event loop had stopped, which it does as soon
      as `close` has been called and no operation is pending and no handler running. Each of them has
      had its callback once and it has returned; the others never had one. */
  lemma {:induction false} CloseServesIff(y: System, es: seq<Event>, z: System, s: SessionId)
    requires Initial(y) && Leads(y, es, z) && Closed(z) && s in z.sessions
    requires exists t | t in z.threads :: z.threads[t].io
    ensures if AskedInTime(y, es, s) then z.sessions[s].phase == Over && |z.sessions[s].reports| == 1
            else z.sessions[s].reports == []
  {
    InitialInv(y);
    ClosedHasStopped(y, es, z);
    ServedIffAsked(y, es, z, s);
  }

  lemma {:induction false} ClosedHasStopped(y: System, es: seq<Event>, z: System)
    requires Initial(y) && Leads(y, es, z) && Closed(z)
    requires exists t | t in z.threads :: z.threads[t].io
    ensures OutOfWork(z)
  {
    InitialInv(y);
    RunStopsInOrder(y, es, z);
    hide Leads, Inv, OutOfWork;
  }

  /** `close` drains exactly if every request was asked for in time: then, and only then, every one
      has had its callback when it returns; and then the map is empty. */
  lemma {:induction false} CloseDrainsIff(y: System, es: seq<Event>, z: System)
    requires Initial(y) && Leads(y, es, z) && Closed(z)
    requires exists t | t in z.threads :: z.threads[t].io
    ensures (forall s | s in z.sessions :: |z.sessions[s].reports| == 1) <==> (forall s | s in z.sessions :: AskedInTime(y, es, s))
    ensures (forall s | s in z.sessions :: |z.sessions[s].reports| == 1) ==> z.active == map[]
  {
    InitialInv(y);
    RunKeepsInv(y, es, z);
    hide Initial, Leads, AskedInTime, Inv;
    forall s | s in z.sessions
      ensures |z.sessions[s].reports| == 1 <==> AskedInTime(y, es, s)
    {
      CloseServesIff(y, es, z, s);
    }
    if forall s | s in z.sessions :: |z.sessions[s].reports| == 1 {
      forall id
        ensures id !in z.active
      {
        FoundFacts(z, id);
        if id in z.active {
          SessionFacts(z, z.active[id]);
          ReportedIsErased(z, z.active[id]);
        }
      }
    }
  }

  lemma {:induction false} ReportedIsErased(y: System, s: SessionId)
    requires Inv(y) && s in y.sessions && y.sessions[s].reports != []
    ensures y.sessions[s].erased
  {
    SessionFacts(y, s);
    hide Inv;
  }

  /** What an event does to the thread that takes it, as far as starting is concerned. */
  lemma {:induction false} StartsOnlyByStart(y: System, e: Event)
    requires Enabled(y, e) && e != Close && OwnFacts(y, e.t)
    ensures var th := EffectOf(y, e).thread;
            && (Starts(th) && !e.Start? ==> Starts(y.threads[e.t]) && th.frame == y.threads[e.t].frame)
            && (e.Start? ==> th.frame == y.threads[e.t].frame)
            && (th.pc == Exited ==> e.Exit?)
  {
    hide InFlight, HoldsGuard, StartOf, HandlingOf;
  }

  /** Without late starts, requests are started only inside callbacks after `close`, and none is
      stranded. */
  predicate NothingLate(y: System) {
    !y.late ==> (y.closed ==> !StartUnderway(y)) && forall s | s in y.sessions :: y.sessions[s].phase != Stranded
  }

  /** A thread that strands a session is starting it from outside a callback. */
  lemma {:induction false} StrandsFromOutside(y: System, e: Event)
    requires Inv(y) && Enabled(y, e) && e != Close && NothingLate(y) && !y.late
    ensures var c := EffectOf(y, e); c.target.Some? ==> c.session.phase != Stranded
  {
    EventGoes(y, e);
    OwnFactsHoldInv(y, e.t);
    AskedOnlyByStarter(y, e);
    hide Inv, EffectOf, InFlight, StepEnabled;
  }

  lemma {:induction false} AskedOnlyByStarter(y: System, e: Event)
    requires Enabled(y, e) && e != Close && OwnFacts(y, e.t)
    ensures var c := EffectOf(y, e);
            (c.target.Some? && c.target.value in y.sessions && y.sessions[c.target.value].phase.Starting? && !c.session.phase.Starting?) ==>
              Starts(y.threads[e.t])
  {
    hide InFlight, HoldsGuard, Asked;
  }

  lemma {:induction false} EventKeepsStartsInside(y: System, e: Event)
    requires Inv(y) && Enabled(y, e) && e != Close && (y.closed && !y.late ==> !StartUnderway(y))
    ensures var z := Apply(y, e); z.closed && !z.late ==> !StartUnderway(z)
  {
    OwnFactsHoldInv(y, e.t);
    StartsOnlyByStart(y, e);
    hide Inv, EffectOf, InFlight, OwnFacts, Starts;
  }

  lemma {:induction false} StepKeepsNothingLate(y: System, e: Event)
    requires Inv(y) && Enabled(y, e) && NothingLate(y)
    ensures NothingLate(Apply(y, e))
  {
    if e == Close {
      hide Inv;
    } else {
      hide Inv, EffectOf, InFlight, StartUnderway, StepEnabled;
      EventKeepsStartsInside(y, e);
      if !y.late {
        StrandsFromOutside(y, e);
      }
    }
  }

  lemma {:induction false} RunKeepsNothingLate(y: System, es: seq<Event>, z: System)
    requires Inv(y) && Leads(y, es, z) && NothingLate(y)
    ensures NothingLate(z)
    decreases |es|
  {
    hide Inv, Apply, Enabled, NothingLate;
    if es != [] {
      StepKeepsInv(y, es[0]);
      StepKeepsNothingLate(y, es[0]);
      RunKeepsNothingLate(Apply(y, es[0]), es[1..], z);
    }
  }

  lemma {:induction false} NothingLateIsServed(y: System, s: SessionId)
    requires Inv(y) && OutOfWork(y) && NothingLate(y) && !y.late && s in y.sessions
    ensures Served(y.sessions[s].phase)
  {
    if y.sessions[s].phase.Starting? {
      OwnFactsHoldInv(y, y.sessions[s].phase.t);
    }
    hide Inv;
  }

  /** A caller's condition for that: no request was started from outside a callback after `close` was
      called, or was being started then. */
  lemma {:induction false} CloseDrains(y: System, es: seq<Event>, z: System)
    requires Initial(y) && Leads(y, es, z) && Closed(z) && !z.late
    requires exists t | t in z.threads :: z.threads[t].io
    ensures z.active == map[]
    ensures forall s | s in z.sessions :: AskedInTime(y, es, s) && |z.sessions[s].reports| == 1 && z.sessions[s].phase == Over
  {
    InitialInv(y);
    RunKeepsInv(y, es, z);
    RunKeepsNothingLate(y, es, z);
    ClosedHasStopped(y, es, z);
    hide Initial, Leads, AskedInTime, Inv, OutOfWork, NothingLate;
    forall s | s in z.sessions
      ensures AskedInTime(y, es, s) && |z.sessions[s].reports| == 1 && z.sessions[s].phase == Over
    {
      NothingLateIsServed(z, s);
      ServedToTheEnd(z, s);
      CloseServesIff(y, es, z, s);
    }
    CloseDrainsIff(y, es, z);
  }

  /** A session in the map is at work: its connection is about to be asked for, an operation is pending,
      or its handler has not reached the erasure; unless it was asked of an event loop that has
      stopped. It is never over, whatever ids are reused. */
  lemma {:induction false} ListedIsAtWork(y: System, s: SessionId)
    requires Reachable(y) && Listed(y, s)
    ensures var x := y.sessions[s];
            && x.reports == []
            && match x.phase
               case Starting(t) => t in y.threads && y.threads[t].pc == StartConnects(s)
               case Pending(op) => x.ops != [] && op == x.ops[|x.ops| - 1]
               case Handling(t) => t in y.threads && y.threads[t].io && y.threads[t].frame == None && !y.threads[t].pc.Reports?
               case Over => false
               case Stranded => OutOfWork(y)
  {
    hide Inv, OutOfWork, Initial, Leads, Reachable;
    ReachableInv(y);
    ReachableStopsInOrder(y);
    ListedIsLive(y, s);
    ListedIsOwned(y, s);
  }

  lemma {:induction false} ReachableStopsInOrder(y: System)
    requires Reachable(y)
    ensures StopsInOrder(y)
  {
    var y0, es :| Initial(y0) && Leads(y0, es, y);
    InitialInv(y0);
    assert StopsInOrder(y0);
    hide Inv, OutOfWork, Initial, Leads, StopsInOrder;
    RunStopsInOrder(y0, es, y);
  }

  lemma {:induction false} ListedIsOwned(y: System, s: SessionId)
    requires Inv(y) && s in y.sessions && y.sessions[s].registered && !y.sessions[s].erased
    ensures var x := y.sessions[s];
            && x.reports == []
            && match x.phase
               case Starting(t) => t in y.threads && y.threads[t].pc == StartConnects(s)
               case Pending(op) => x.ops != [] && op == x.ops[|x.ops| - 1]
               case Handling(t) => t in y.threads && y.threads[t].io && y.threads[t].frame == None && !y.threads[t].pc.Reports?
               case Over => false
               case Stranded => true
  {
    SessionFacts(y, s);
    if y.sessions[s].phase.Starting? || y.sessions[s].phase.Handling? {
      OwnFactsHoldInv(y, y.sessions[s].phase.t);
    }
    hide Inv;
  }

  /** `close` gets there: without a clash, after `close` and until all I/O threads have left, some
      thread or some pending operation can go on. */
  lemma {:induction false} CloseGoesOn(y: System) returns (e: Event)
    requires Reachable(y) && y.closed && !Closed(y)
    requires forall t, u :: !Clash(y, t, u)
    ensures Enabled(y, e) && (e.Step? || e.Complete? || e.Return? || e.Exit?)
  {
    ReachableInv(y);
    hide Reachable, StepEnabled, Inv, Clash;
    if exists t | t in y.threads :: !Resting(y.threads[t].pc) {
      NeverStuck(y);
      var u :| u in y.threads && Enabled(y, Step(u));
      e := Step(u);
    } else if t :| t in y.threads && y.threads[t].frame.Some? {
      ReturnIsEnabled(y, t);
      e := Return(t);
    } else {
      var t :| t in y.threads && y.threads[t].io && y.threads[t].pc != Exited;
      if s :| s in y.sessions && y.sessions[s].phase.Pending? {
        e := Complete(t, s, Success);
      } else {
        e := Exit(t);
      }
    }
  }

  lemma {:induction false} ReturnIsEnabled(y: System, t: ThreadId)
    requires Inv(y) && t in y.threads && Resting(y.threads[t].pc) && y.threads[t].frame.Some?
    ensures Enabled(y, Return(t))
  {
    hide Inv;
    OwnFactsHoldInv(y, t);
    hide HoldsGuard, StartOf, HandlingOf, HoldsMap;
  }

  /** An effect of a thread that is not an I/O thread reports nothing and finishes nothing. */
  predicate ReportsNothing(y: System, t: ThreadId, c: Effect)
    requires t in y.threads
  {
    && !c.thread.io && !y.threads[t].io
    && (c.target.Some? ==>
          if c.target.value in y.sessions then c.session.reports == y.sessions[c.target.value].reports else c.session.reports == [])
  }

  lemma {:induction false} DesertedReportsNothing(y: System, e: Event)
    requires Enabled(y, e) && e != Close && OwnFacts(y, e.t) && Deserted(y)
    ensures ReportsNothing(y, e.t, EffectOf(y, e))
  {
    hide HoldsGuard, StartOf, HandlingOf, InFlight;
  }

  /** Without I/O threads nothing is ever reported again, whatever is started: every session keeps the
      reports it had, and a new one gets none. */
  lemma {:induction false} StrandedForever(y: System, es: seq<Event>, z: System)
    requires Inv(y) && Deserted(y) && Leads(y, es, z)
    ensures Deserted(z) && (y.closed ==> z.closed)
    ensures forall s | s in y.sessions :: s in z.sessions && z.sessions[s].reports == y.sessions[s].reports
    ensures forall s | s in z.sessions && s !in y.sessions :: z.sessions[s].reports == []
    decreases |es|
  {
    hide Inv, Apply, Enabled, Deserted;
    if es != [] {
      StepStrands(y, es[0]);
      StepKeepsInv(y, es[0]);
      StrandedForever(Apply(y, es[0]), es[1..], z);
    }
  }

  lemma {:induction false} StepStrands(y: System, e: Event)
    requires Inv(y) && Enabled(y, e) && Deserted(y)
    ensures var z := Apply(y, e);
            && Deserted(z) && (y.closed ==> z.closed)
            && (forall s | s in y.sessions :: s in z.sessions && z.sessions[s].reports == y.sessions[s].reports)
            && (forall s | s in z.sessions && s !in y.sessions :: z.sessions[s].reports == [])
  {
    hide Inv, EffectOf, InFlight, StartUnderway, OwnFacts, StepEnabled;
    if e != Close {
      OwnFactsHoldInv(y, e.t);
      DesertedReportsNothing(y, e);
    }
  }

  /** A request started after `close` has returned is in the map and never reported, in any
      continuation. */
  lemma {:induction false} LateStartIsStranded() returns (y: System)
    ensures Reachable(y) && Closed(y) && y.late && 0 in y.sessions && y.active == map[7 := 0]
    ensures forall es, z :: Leads(y, es, z) ==> Closed(z) && 0 in z.sessions && z.sessions[0].reports == []
  {
    hide Leads, Inv;
    y := StartedLate();
    ReachableInv(y);
    forall es, z | Leads(y, es, z)
      ensures Closed(z) && 0 in z.sessions && z.sessions[0].reports == []
    {
      StrandedForever(y, es, z);
    }
  }

  lemma {:induction false} StartedLate() returns (y: System)
    ensures Reachable(y) && Closed(y) && y.late
    ensures 0 in y.sessions && y.sessions[0].reports == [] && y.active == map[7 := 0]
  {
    hide Leads, EffectOf;
    var y0 := System(map[0 := Thread(false, Idle, None), 1 := Thread(true, Idle, None)], map[], map[], None, false, false, false);
    LeadsNowhere(y0);
    var y1 := ClosedAtOnce(y0, 1);
    y := StartRun(y0, y1, 0, 0, 7);
    assert Reachable(y);
  }

  /** A client that has done nothing is closed, and an I/O thread leaves. */
  lemma {:induction false} ClosedAtOnce(y0: System, t: ThreadId) returns (z: System)
    requires Reaches(y0, y0) && Initial(y0) && t in y0.threads && y0.threads[t].io
    ensures Reaches(y0, z)
    ensures z == y0.(threads := y0.threads[t := y0.threads[t].(pc := Exited)], closed := true)
  {
    hide Leads, StepEffect;
    OneStep(y0, y0, Close);
    z := Apply(y0, Close);
    OneStep(y0, z, Exit(t));
    z := Apply(z, Exit(t));
  }
}
