/** The multi-threaded client as an object. Each method is one section of the source's code that no
    other thread can interrupt as far as the shared fields are concerned: up to the next acquisition
    of a mutex, or from one to the release. Its effect is one event of the protocol. */
module AsyncTcpClient {
  import opened Streams
  import opened CancelProtocol
  import opened CancelTheorems

  class AsyncTCPClient {
    var threads: map<ThreadId, Thread>
    var sessions: map<SessionId, Session>
    var activeSessions: map<int, SessionId>
    var activeSessionsGuard: Option<ThreadId>
    var closed: bool
    var duplicate: bool
    var late: bool

    function State(): System
      reads this
    {
      System(threads, sessions, activeSessions, activeSessionsGuard, closed, duplicate, late)
    }

    /** `ioThreads` run the event loop, `userThreads` call the client. */
    constructor (ioThreads: set<ThreadId>, userThreads: set<ThreadId>)
      requires ioThreads !! userThreads
      ensures Initial(State()) && Reachable(State())
      ensures State().threads.Keys == ioThreads + userThreads
      ensures forall t | t in State().threads :: State().threads[t].io <==> t in ioThreads
    {
      threads := map t | t in ioThreads + userThreads :: Thread(t in ioThreads, Idle, None);
      sessions, activeSessions, activeSessionsGuard := map[], map[], None;
      closed, duplicate, late := false, false, false;
      new;
      LeadsNowhere(State());
    }

    /** The thread goes on to another program point. */
    method Goto(t: ThreadId, pc: Pc)
      requires t in threads
      modifies this`threads
      ensures threads == old(threads)[t := old(threads)[t].(pc := pc)]
    {
      threads := threads[t := threads[t].(pc := pc)];
    }

    // ---------------------------------------------------------------- starting a request

    method EmulateLongComputationOp(t: ThreadId, s: SessionId, id: int)
      requires Enabled(State(), Start(t, s, id))
      modifies this
      ensures State() == Apply(old(State()), Start(t, s, id))
    {
      duplicate := duplicate || InFlight(State(), id);
      late := late || (closed && threads[t].frame == None);
      sessions := sessions[s := NewSession(id, t)];
      Goto(t, StartWantsMap(s));
    }

    /** Every section begins by taking the mutex it waits for, as soon as that is free. */
    method TakeMap(t: ThreadId)
      requires Enabled(State(), Step(t)) && WantsMap(threads[t].pc)
      modifies this`threads, this`activeSessionsGuard
      ensures State() == Apply(old(State()), Step(t))
    {
      var pc := threads[t].pc;
      activeSessionsGuard := Some(t);
      if pc.StartWantsMap? {
        Goto(t, StartInMap(pc.s));
      } else if pc.CancelWantsMap? {
        Goto(t, CancelInMap(pc.id));
      } else {
        Goto(t, EraseInMap(pc.s, pc.held));
      }
    }

    method TakeSession(t: ThreadId)
      requires Enabled(State(), Step(t)) && WantsGuard(threads[t].pc)
      modifies this`threads, this`sessions
      ensures State() == Apply(old(State()), Step(t))
    {
      var pc := threads[t].pc;
      sessions := sessions[pc.s := sessions[pc.s].(guard := Some(t))];
      if pc.CancelWantsGuard? {
        Goto(t, CancelInGuard(pc.s));
      } else {
        Goto(t, CheckInGuard(pc.s, pc.done));
      }
    }

    method AddSession(t: ThreadId)
      requires Enabled(State(), Step(t)) && threads[t].pc.StartInMap?
      modifies this
      ensures State() == Apply(old(State()), Step(t))
    {
      var s := threads[t].pc.s;
      activeSessions := activeSessions[sessions[s].id := s];
      sessions := sessions[s := sessions[s].(registered := true)];
      activeSessionsGuard := None;
      Goto(t, StartConnects(s));
    }

    method AsyncConnect(t: ThreadId)
      requires Enabled(State(), Step(t)) && threads[t].pc.StartConnects?
      modifies this`threads, this`sessions
      ensures State() == Apply(old(State()), Step(t))
    {
      var s := threads[t].pc.s;
      var phase := if OutOfWork(State()) then Stranded else Pending(Connect);
      sessions := sessions[s := sessions[s].(phase := phase, ops := [Connect])];
      Goto(t, Idle);
    }

    // ---------------------------------------------------------------- cancelling a request

    method CancelRequest(t: ThreadId, id: int)
      requires Enabled(State(), Cancel(t, id))
      modifies this`threads
      ensures State() == Apply(old(State()), Cancel(t, id))
    {
      Goto(t, CancelWantsMap(id));
    }

    method FindSession(t: ThreadId)
      requires Enabled(State(), Step(t)) && threads[t].pc.CancelInMap?
      modifies this`threads, this`sessions
      ensures State() == Apply(old(State()), Step(t))
    {
      var id := threads[t].pc.id;
      if id in activeSessions {
        var s := activeSessions[id];
        sessions := sessions[s := sessions[s].(found := sessions[s].found + 1)];
        Goto(t, CancelWantsGuard(s));
      } else {
        Goto(t, CancelLeaves);
      }
    }

    method SetCancelled(t: ThreadId)
      requires Enabled(State(), Step(t)) && threads[t].pc.CancelInGuard?
      modifies this`threads, this`sessions
      ensures State() == Apply(old(State()), Step(t))
    {
      var s := threads[t].pc.s;
      sessions := sessions[s := sessions[s].(cancelled := true, guard := None)];
      Goto(t, CancelLeaves);
    }

    method LeaveCancelRequest(t: ThreadId)
      requires Enabled(State(), Step(t)) && threads[t].pc.CancelLeaves?
      modifies this`threads, this`activeSessionsGuard
      ensures State() == Apply(old(State()), Step(t))
    {
      activeSessionsGuard := None;
      Goto(t, Idle);
    }

    // ---------------------------------------------------------------- handlers

    /** A pending operation completes on an idle I/O thread, and its handler looks at the error. */
    method OnOperation(t: ThreadId, s: SessionId, ec: ErrorCode)
      requires Enabled(State(), Complete(t, s, ec))
      modifies this`threads, this`sessions
      ensures State() == Apply(old(State()), Complete(t, s, ec))
    {
      var op := sessions[s].phase.op;
      sessions := sessions[s := sessions[s].(phase := Handling(t))];
      if ec.Failed() {
        sessions := sessions[s := sessions[s].(ec := ec)];
        Goto(t, EraseWantsMap(s, false));
      } else if op == Read {
        Goto(t, EraseWantsMap(s, false));
      } else {
        Goto(t, CheckWantsGuard(s, op));
      }
    }

    /** With the session's mutex: give up if it was cancelled, else ask for the next operation. */
    method NextOperation(t: ThreadId)
      requires Enabled(State(), Step(t)) && threads[t].pc.CheckInGuard?
      modifies this`threads, this`sessions
      ensures State() == Apply(old(State()), Step(t))
    {
      var pc := threads[t].pc;
      if sessions[pc.s].cancelled {
        Goto(t, EraseWantsMap(pc.s, true));
        return;
      }
      var op := if pc.done == Connect then Write else Read;
      sessions := sessions[pc.s := sessions[pc.s].(phase := Pending(op), ops := sessions[pc.s].ops + [op])];
      Goto(t, CheckLeaves(pc.s));
    }

    method LeaveHandler(t: ThreadId)
      requires Enabled(State(), Step(t)) && threads[t].pc.CheckLeaves?
      modifies this`threads, this`sessions
      ensures State() == Apply(old(State()), Step(t))
    {
      var s := threads[t].pc.s;
      sessions := sessions[s := sessions[s].(guard := None)];
      Goto(t, Idle);
    }

    // ---------------------------------------------------------------- completing a request

    method EraseSession(t: ThreadId)
      requires Enabled(State(), Step(t)) && threads[t].pc.EraseInMap?
      modifies this
      ensures State() == Apply(old(State()), Step(t))
    {
      var pc := threads[t].pc;
      var id := sessions[pc.s].id;
      if id in activeSessions {
        activeSessions := activeSessions - {id};
      }
      sessions := sessions[pc.s := sessions[pc.s].(erased := true)];
      activeSessionsGuard := None;
      Goto(t, Reports(pc.s, pc.held));
    }

    /** The code is decided, and the user's callback is entered with it. */
    method CallBack(t: ThreadId)
      requires Enabled(State(), Step(t)) && threads[t].pc.Reports?
      modifies this`threads, this`sessions
      ensures State() == Apply(old(State()), Step(t))
    {
      var pc := threads[t].pc;
      var session := sessions[pc.s];
      var ec := session.ec;
      if session.ec == Success && session.cancelled {
        ec := OperationAborted;
      }
      sessions := sessions[pc.s := session.(reports := session.reports + [ec])];
      threads := threads[t := threads[t].(pc := Idle, frame := Some(Frame(pc.s, pc.held)))];
    }

    method ReturnFromCallback(t: ThreadId)
      requires Enabled(State(), Return(t))
      modifies this`threads, this`sessions
      ensures State() == Apply(old(State()), Return(t))
    {
      var frame := threads[t].frame.value;
      var session := sessions[frame.s].(phase := Over);
      if frame.held {
        session := session.(guard := None);
      }
      sessions := sessions[frame.s := session];
      threads := threads[t := threads[t].(frame := None)];
    }

    // ---------------------------------------------------------------- closing

    method Close()
      modifies this`closed, this`late
      ensures State() == Apply(old(State()), Event.Close)
    {
      late := late || StartUnderway(State());
      closed := true;
    }

    method LeaveEventLoop(t: ThreadId)
      requires Enabled(State(), Exit(t))
      modifies this`threads
      ensures State() == Apply(old(State()), Exit(t))
    {
      Goto(t, Exited);
    }
  }
}
