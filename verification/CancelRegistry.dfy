/** The map of active sessions: what it holds, exactly as long as ids are not reused too early, and
    what becomes of a session that is not in it. */
module CancelRegistry {
  import opened Streams
  import opened CancelProtocol
  import opened CancelTheorems

  // ------------------------------------------------------------------ the map of active sessions

  /** Sessions in flight have different ids, and those registered are in the map. */
  predicate Unique(y: System) {
    && (forall s, r | s in y.sessions && r in y.sessions && !y.sessions[s].erased && !y.sessions[r].erased ::
          y.sessions[s].id == y.sessions[r].id ==> s == r)
    && (forall s | s in y.sessions && y.sessions[s].registered && !y.sessions[s].erased :: Listed(y, s))
  }

  /** A session becomes registered only by entering the map. */
  predicate Registers(y: System, c: Effect) {
    c.target.Some? ==>
      var s, x := c.target.value, c.session;
      if s in y.sessions then x.registered && !y.sessions[s].registered ==> c.active == y.active[x.id := s]
      else !x.registered && !x.erased && !InFlight(y, x.id)
  }

  lemma {:induction false} PatchKeepsUnique(y: System, t: ThreadId, c: Effect)
    requires Unique(y) && t in y.threads && OwnMapChange(y, t, c) && Registers(y, c)
    ensures Unique(Patch(y, t, c))
  {
    hide HoldsMap;
  }

  lemma {:induction false} StepRegisters(y: System, t: ThreadId)
    requires Enabled(y, Step(t)) && OwnFacts(y, t)
    ensures Registers(y, StepEffect(y, t))
  {
    hide InFlight, HoldsGuard, HandlingOf;
  }

  lemma {:induction false} EventRegisters(y: System, e: Event)
    requires Inv(y) && Enabled(y, e) && e != Close && (e.Start? ==> !InFlight(y, e.id))
    ensures Registers(y, EffectOf(y, e))
  {
    hide Inv, InFlight, OwnFacts, StepEffect;
    if e.Step? {
      OwnFactsHoldInv(y, e.t);
      StepRegisters(y, e.t);
    }
  }

  lemma {:induction false} StepKeepsUnique(y: System, e: Event)
    requires Inv(y) && Enabled(y, e) && (!y.duplicate ==> Unique(y))
    ensures !Apply(y, e).duplicate ==> Unique(Apply(y, e))
  {
    hide EffectOf, Inv, InFlight, StartUnderway, OwnMapChange, Registers, OwnSessionsOk, OwnCancelsOnly;
    if e != Close && !Apply(y, e).duplicate {
      EffectIsOrderly(y, e);
      EventRegisters(y, e);
      PatchKeepsUnique(y, e.t, EffectOf(y, e));
    }
  }

  lemma {:induction false} RunKeepsUnique(y: System, es: seq<Event>, z: System)
    requires Inv(y) && Leads(y, es, z) && (!y.duplicate ==> Unique(y))
    ensures !z.duplicate ==> Unique(z)
    decreases |es|
  {
    hide Inv, Apply, Enabled, Unique;
    if es != [] {
      StepKeepsInv(y, es[0]);
      StepKeepsUnique(y, es[0]);
      RunKeepsUnique(Apply(y, es[0]), es[1..], z);
    }
  }

  /** In every run in which no request was started under the id of one in flight, the map holds
      exactly the registered sessions that completion has not yet erased, each under its id. */
  lemma {:induction false} RegistryExact(y: System, id: int, s: SessionId)
    requires Reachable(y) && !y.duplicate
    ensures (id in y.active && y.active[id] == s) <==>
            (s in y.sessions && y.sessions[s].id == id && y.sessions[s].registered && !y.sessions[s].erased)
  {
    hide Inv;
    var y0, es :| Initial(y0) && Leads(y0, es, y);
    InitialInv(y0);
    RunKeepsUnique(y0, es, y);
    ReachableInv(y);
    hide Reachable, Leads;
    if id in y.active && y.active[id] == s {
      FoundFacts(y, id);
      ListedIsLive(y, s);
    }
  }

  /** With a single I/O thread at most one session at a time has its handler or callback running. */
  lemma {:induction false} OneThreadOneHandler(y: System, c: ThreadId, r: SessionId, s: SessionId)
    requires Reachable(y) && forall t | t in y.threads && y.threads[t].io :: t == c
    requires r in y.sessions && s in y.sessions && y.sessions[r].phase.Handling? && y.sessions[s].phase.Handling?
    ensures r == s && y.sessions[s].phase == Handling(c)
  {
    ReachableInv(y);
    hide Reachable;
    SessionFacts(y, r);
    SessionFacts(y, s);
    OwnFactsHoldInv(y, y.sessions[r].phase.t);
    OwnFactsHoldInv(y, y.sessions[s].phase.t);
    hide Inv;
  }

  /** While a session's callback runs, its id is in flight only through another session: reusing it
      from inside the callback is no duplicate, and the new entry is there once it is registered. */
  lemma {:induction false} CallbackMayReuseId(y: System, t: ThreadId, r: SessionId)
    requires Reachable(y) && t in y.threads && y.threads[t].pc == Idle && y.threads[t].frame.Some? && r !in y.sessions
    requires y.threads[t].frame.value.s in y.sessions
    requires var s := y.threads[t].frame.value.s;
             forall q | q in y.sessions && q != s && y.sessions[q].id == y.sessions[s].id :: y.sessions[q].erased
    ensures var e := Start(t, r, y.sessions[y.threads[t].frame.value.s].id);
            Enabled(y, e) && Apply(y, e).duplicate == y.duplicate && Apply(y, e).late == y.late
  {
    ReachableInv(y);
    hide Reachable;
    OwnSessionsHold(y, t);
    hide Inv;
  }

  // ------------------------------------------------------------------ reused ids

  /** The map holds exactly the registered sessions that completion has not yet erased. */
  ghost predicate Exact(y: System) {
    forall id, s :: (id in y.active && y.active[id] == s) <==>
                    (s in y.sessions && y.sessions[s].id == id && y.sessions[s].registered && !y.sessions[s].erased)
  }

  predicate AllListed(y: System) {
    forall s | s in y.sessions && y.sessions[s].registered && !y.sessions[s].erased :: Listed(y, s)
  }

  lemma {:induction false} ExactIsAllListed(y: System)
    requires Inv(y)
    ensures Exact(y) <==> AllListed(y)
  {
    hide Inv;
    forall id, s | id in y.active && y.active[id] == s
      ensures s in y.sessions && y.sessions[s].id == id && y.sessions[s].registered && !y.sessions[s].erased
    {
      FoundFacts(y, id);
      ListedIsLive(y, s);
    }
  }

  /** The step that registers a session under an id the map already holds. */
  predicate Overwrites(y: System, e: Event)
    requires Enabled(y, e)
  {
    e.Step? && y.threads[e.t].pc.StartInMap? && y.sessions[y.threads[e.t].pc.s].id in y.active
  }

  /** What an effect does to the map: it enters sessions not registered before, under ids that were
      free, and erases only registered ones. It finds only sessions that are in the map. */
  predicate Enters(y: System, c: Effect) {
    && (c.active != y.active && c.target.Some? && c.target.value in y.sessions ==>
          var s, x := c.target.value, y.sessions[c.target.value];
          if c.session.erased && !x.erased then x.registered && c.active == y.active - {x.id}
          else !x.registered && c.session.registered && c.active == y.active[x.id := s])
    && (c.active != y.active ==> c.target.Some? && c.target.value in y.sessions)
    && (c.target.Some? ==>
          var s, u := c.target.value, c.session;
          if s in y.sessions then
            var x := y.sessions[s];
            && u.id == x.id && (x.registered ==> u.registered) && (x.erased ==> u.erased)
            && (u.registered && !x.registered ==> c.active == y.active[x.id := s])
            && (u.erased && !x.erased ==> c.active == y.active - {x.id} && x.registered)
            && (u.found == x.found || Listed(y, s))
          else !u.registered)
  }

  lemma {:induction false} StartStepEnters(y: System, t: ThreadId)
    requires Enabled(y, Step(t)) && OwnFacts(y, t) && OwnSessions(y, t) && Starts(y.threads[t])
    ensures Enters(y, StartEffect(y, t))
  {
    hide HoldsGuard;
  }

  lemma {:induction false} CancelStepEnters(y: System, t: ThreadId)
    requires Enabled(y, Step(t)) && CancelPart(y.threads[t].pc)
    requires y.threads[t].pc.CancelInMap? && y.threads[t].pc.id in y.active ==> y.sessions[y.active[y.threads[t].pc.id]].id == y.threads[t].pc.id
    ensures Enters(y, CancelEffect(y, t))
  {
  }

  lemma {:induction false} HandlerStepEnters(y: System, t: ThreadId)
    requires Enabled(y, Step(t)) && OwnFacts(y, t) && OwnSessions(y, t) && !Starts(y.threads[t]) && !CancelPart(y.threads[t].pc)
    ensures Enters(y, StepEffect(y, t))
  {
    hide HoldsGuard;
  }

  lemma {:induction false} EventEnters(y: System, e: Event)
    requires Inv(y) && Enabled(y, e) && e != Close
    ensures Enters(y, EffectOf(y, e))
  {
    hide Inv, OwnFacts, OwnSessions, StartEffect, CancelEffect, CheckEffect, EraseEffect;
    if !e.Step? {
      hide StepEffect;
    } else {
      OwnFactsHoldInv(y, e.t);
      OwnSessionsHold(y, e.t);
      if Starts(y.threads[e.t]) {
        StartStepEnters(y, e.t);
      } else if CancelPart(y.threads[e.t].pc) {
        if y.threads[e.t].pc.CancelInMap? {
          FoundFacts(y, y.threads[e.t].pc.id);
        }
        CancelStepEnters(y, e.t);
      } else {
        HandlerStepEnters(y, e.t);
      }
    }
  }

  lemma {:induction false} PatchKeepsListed(y: System, t: ThreadId, c: Effect)
    requires AllListed(y) && t in y.threads && Enters(y, c)
    requires (c.target.Some? && c.target.value in y.sessions && !y.sessions[c.target.value].registered && c.session.registered) ==>
               c.session.id !in y.active
    ensures AllListed(Patch(y, t, c))
  {
  }

  /** A registration under an id of the map takes the session that was there out of it. */
  lemma {:induction false} OverwrittenIsHidden(y: System, e: Event) returns (r: SessionId)
    requires Inv(y) && Enabled(y, e) && Overwrites(y, e)
    ensures Listed(y, r) && r in Apply(y, e).sessions && Apply(y, e).sessions[r] == y.sessions[r]
    ensures y.sessions[r].registered && !y.sessions[r].erased && !Listed(Apply(y, e), r)
  {
    OwnFactsHoldInv(y, e.t);
    OwnSessionsHold(y, e.t);
    r := y.active[y.sessions[y.threads[e.t].pc.s].id];
    FoundFacts(y, y.sessions[r].id);
    ListedIsLive(y, r);
    hide Inv, InFlight, HoldsGuard;
  }

  lemma {:induction false} OnlyRegistrationRegisters(y: System, e: Event)
    requires Enabled(y, e) && e != Close
    ensures var c := EffectOf(y, e);
            c.target.Some? && c.target.value in y.sessions && !y.sessions[c.target.value].registered && c.session.registered ==>
              e.Step? && y.threads[e.t].pc.StartInMap? && c.target.value == y.threads[e.t].pc.s
              && c.session.id == y.sessions[c.target.value].id
  {
    hide InFlight;
  }

  /** Exactly which steps break the exactness of the map: registrations under an id it holds. */
  lemma {:induction false} StepKeepsExactIff(y: System, e: Event)
    requires Inv(y) && Enabled(y, e) && Exact(y)
    ensures Exact(Apply(y, e)) <==> !Overwrites(y, e)
  {
    StepKeepsInv(y, e);
    ExactIsAllListed(y);
    ExactIsAllListed(Apply(y, e));
    hide Inv, Exact, EffectOf, InFlight, StartUnderway, Enters;
    if Overwrites(y, e) {
      var r := OverwrittenIsHidden(y, e);
    } else if e != Close {
      EventEnters(y, e);
      OnlyRegistrationRegisters(y, e);
      PatchKeepsListed(y, e.t, EffectOf(y, e));
    }
  }

  ghost predicate AlwaysExact(y: System, es: seq<Event>)
    decreases |es|
  {
    Exact(y) && (es != [] ==> Enabled(y, es[0]) && AlwaysExact(Apply(y, es[0]), es[1..]))
  }

  ghost predicate NeverOverwrites(y: System, es: seq<Event>)
    decreases |es|
  {
    es != [] ==> Enabled(y, es[0]) && !Overwrites(y, es[0]) && NeverOverwrites(Apply(y, es[0]), es[1..])
  }

  /** The map is exact throughout a run if and only if no session of the run is registered under an id
      that the map holds. */
  lemma {:induction false} AlwaysExactIff(y: System, es: seq<Event>, z: System)
    requires Inv(y) && Exact(y) && Leads(y, es, z)
    ensures AlwaysExact(y, es) <==> NeverOverwrites(y, es)
    decreases |es|
  {
    hide Inv, Exact, Apply, Enabled, Overwrites;
    if es != [] {
      StepKeepsExactIff(y, es[0]);
      if !Overwrites(y, es[0]) {
        StepKeepsInv(y, es[0]);
        AlwaysExactIff(Apply(y, es[0]), es[1..], z);
      } else {
        NotAlwaysExact(Apply(y, es[0]), es[1..]);
      }
    }
  }

  /** Hence the map is exact throughout a client's life if and only if no id in the map is reused. */
  lemma {:induction false} RegistryExactIff(y: System, es: seq<Event>, z: System)
    requires Initial(y) && Leads(y, es, z)
    ensures AlwaysExact(y, es) <==> NeverOverwrites(y, es)
  {
    InitialInv(y);
    AlwaysExactIff(y, es, z);
  }

  lemma NotAlwaysExact(y: System, es: seq<Event>)
    ensures AlwaysExact(y, es) ==> Exact(y)
  {
  }

  predicate Hidden(y: System, s: SessionId) {
    s in y.sessions && y.sessions[s].registered && !Listed(y, s)
  }

  lemma {:induction false} PatchKeepsHidden(y: System, t: ThreadId, c: Effect, s: SessionId)
    requires Hidden(y, s) && t in y.threads && Enters(y, c)
    ensures Hidden(Patch(y, t, c), s) && Patch(y, t, c).sessions[s].found == y.sessions[s].found
  {
  }

  /** A registered session that is not in the map never comes back into it, and no cancellation finds
      it any more, in every continuation. */
  lemma {:induction false} HiddenForever(y: System, s: SessionId, es: seq<Event>, z: System)
    requires Inv(y) && Hidden(y, s) && Leads(y, es, z)
    ensures Hidden(z, s) && z.sessions[s].found == y.sessions[s].found
    decreases |es|
  {
    hide Inv, Apply, Enabled, Hidden;
    if es != [] {
      assert s in y.sessions by { HiddenIsKnown(y, s); }
      StepKeepsInv(y, es[0]);
      StepKeepsHidden(y, s, es[0]);
      HiddenForever(Apply(y, es[0]), s, es[1..], z);
    }
    HiddenIsKnown(z, s);
  }

  lemma HiddenIsKnown(y: System, s: SessionId)
    ensures Hidden(y, s) ==> s in y.sessions
  {
  }

  lemma {:induction false} StepKeepsHidden(y: System, s: SessionId, e: Event)
    requires Inv(y) && Enabled(y, e) && Hidden(y, s)
    ensures Hidden(Apply(y, e), s) && Apply(y, e).sessions[s].found == y.sessions[s].found
  {
    hide Inv, EffectOf, InFlight, StartUnderway, Enters;
    if e != Close {
      EventEnters(y, e);
      PatchKeepsHidden(y, e.t, EffectOf(y, e), s);
    }
  }

  /** Such a run exists: a second request under the same id hides the first one, for ever, while its
      connection is still pending. */
  lemma {:induction false} DuplicateHidesSession() returns (y: System)
    ensures Reachable(y) && 0 in y.sessions && y.sessions[0].phase == Pending(Connect) && !y.sessions[0].erased
    ensures Hidden(y, 0) && y.active == map[7 := 1]
    ensures forall es, z :: Leads(y, es, z) ==> Hidden(z, 0) && z.sessions[0].found == 0
  {
    hide Inv, Leads;
    y := TwoUnderOneId();
    ReachableInv(y);
    forall es, z | Leads(y, es, z)
      ensures Hidden(z, 0) && z.sessions[0].found == 0
    {
      HiddenForever(y, 0, es, z);
    }
  }

  lemma {:induction false} TwoUnderOneId() returns (y: System)
    ensures Reachable(y) && 0 in y.sessions && y.sessions[0].phase == Pending(Connect) && !y.sessions[0].erased
    ensures Hidden(y, 0) && y.active == map[7 := 1] && y.sessions[0].found == 0
  {
    hide Leads, InFlight;
    var y0 := System(map[0 := Thread(false, Idle, None)], map[], map[], None, false, false, false);
    LeadsNowhere(y0);
    assert Reaches(y0, y0);
    var y1 := StartRun(y0, y0, 0, 0, 7);
    y := StartRun(y0, y1, 0, 1, 7);
    assert Reachable(y);
  }
}
