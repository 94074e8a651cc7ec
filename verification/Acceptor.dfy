/** The accept loop and the services it creates, under every interleaving of the handlers of a thread
    pool with a stop: how many accepts are outstanding, how many services there are, and what becomes
    of each. */
module Accepting {
  import opened Streams
  import opened HeaderBlocks
  import opened HttpServer

  // ------------------------------------------------------------------ states and steps

  /** What an accept handler does next: look at the code, look at the stop flag, start the next accept,
      close the acceptor. */
  datatype Pc = Accepted(ec: ErrorCode) | Checks | Rearms | Closes

  datatype Run = Run(op: Operation, ec: ErrorCode)

  /** A service and the handler it is running. The rest is history: handlers begun, handlers begun after
      a deletion, and deletions. */
  datatype Cell = Cell(service: Service, running: Option<Run>, begun: nat, afterlife: nat, deletions: nat)

  const NEW_CELL := Cell(NEW_SERVICE.(pending := Some(ReadRequestLine)), None, 0, 0, 0)

  /** `accepts` operations are outstanding, `handlers` are at work for completed ones, `successes` of
      which had no error. `crashed`: an exception left the shutdown of a socket. */
  datatype Server = Server(
    listening: bool, stopped: bool, open: bool, accepts: nat, handlers: seq<Pc>,
    services: seq<Cell>, successes: nat, crashed: bool)

  const NEW_SERVER := Server(false, false, true, 0, [], [], 0, false)

  datatype Event =
    | Start
    | Stop
    | AcceptCompletes(ec: ErrorCode)
    | AcceptStep(k: nat)
    | Begin(i: nat, ec: ErrorCode, request: string)
    | Handler(i: nat, files: FileSystem)
    | Throw(i: nat, files: FileSystem)

  /** A handler about to send a response, or one after it was sent: it shuts down a side of its socket. */
  predicate ShutsDown(c: Cell, files: FileSystem)
    requires c.running.Some? && Known(c.service.statusCode)
  {
    c.running.value.op.SendResponse? || Responds(Handle(c.service, c.running.value.op, c.running.value.ec, files))
  }

  predicate Enabled(y: Server, e: Event) {
    && !y.crashed
    && match e
       case Start => !y.listening
       case Stop => true
       case AcceptCompletes(_) => y.accepts > 0
       case AcceptStep(k) => k < |y.handlers|
       case Begin(i, _, _) => i < |y.services| && y.services[i].service.pending.Some? && y.services[i].running == None
       case Handler(i, _) => i < |y.services| && y.services[i].running.Some? && Known(y.services[i].service.statusCode)
       case Throw(i, files) =>
         i < |y.services| && y.services[i].running.Some? && Known(y.services[i].service.statusCode) && ShutsDown(y.services[i], files)
  }

  /** An accept handler's next step, and the program point after it, if any. */
  function AcceptEffect(y: Server, pc: Pc): (Server, Option<Pc>) {
    match pc
    case Accepted(ec) => (if ec.Failed() then y else y.(services := y.services + [NEW_CELL]), Some(Checks))
    case Checks => (y, Some(if y.stopped then Closes else Rearms))
    case Rearms => (y.(accepts := y.accepts + 1), None)
    case Closes => (y.(open := false), None)
  }

  function AfterAcceptStep(y: Server, k: nat): Server
    requires k < |y.handlers|
  {
    var (z, next) := AcceptEffect(y, y.handlers[k]);
    z.(handlers := if next.Some? then y.handlers[k := next.value] else y.handlers[..k] + y.handlers[k + 1..])
  }

  /** An operation of a service completes and its handler begins; a read has filled the buffer. */
  function Begun(c: Cell, ec: ErrorCode, request: string): Cell
    requires c.service.pending.Some?
  {
    var op := c.service.pending.value;
    var s := c.service.(pending := None, request := if op.SendResponse? then c.service.request else request);
    c.(service := s, running := Some(Run(op, ec)), begun := c.begun + 1, afterlife := c.afterlife + if c.service.deleted then 1 else 0)
  }

  /** The handler runs. The service it belongs to is its own, so nothing interferes. */
  function Handled(c: Cell, files: FileSystem): Cell
    requires c.running.Some? && Known(c.service.statusCode)
  {
    var s := Handle(c.service, c.running.value.op, c.running.value.ec, files);
    c.(service := s, running := None, deletions := c.deletions + if s.deleted then 1 else 0)
  }

  function Apply(y: Server, e: Event): Server
    requires Enabled(y, e)
  {
    match e
    case Start => y.(listening := true, accepts := y.accepts + 1)
    case Stop => y.(stopped := true)
    case AcceptCompletes(ec) =>
      y.(accepts := y.accepts - 1, handlers := y.handlers + [Accepted(ec)], successes := y.successes + if ec.Failed() then 0 else 1)
    case AcceptStep(k) => AfterAcceptStep(y, k)
    case Begin(i, ec, request) => y.(services := y.services[i := Begun(y.services[i], ec, request)])
    case Handler(i, files) => y.(services := y.services[i := Handled(y.services[i], files)])
    case Throw(_, _) => y.(crashed := true)
  }

  ghost predicate Leads(y: Server, es: seq<Event>, z: Server)
    decreases |es|
  {
    if es == [] then y == z
    else Enabled(y, es[0]) && Leads(Apply(y, es[0]), es[1..], z)
  }

  ghost predicate Reachable(y: Server) {
    exists es :: Leads(NEW_SERVER, es, y)
  }

  // ------------------------------------------------------------------ the invariant

  function Spawning(y: Server): nat {
    if |y.handlers| == 1 && y.handlers[0].Accepted? && !y.handlers[0].ec.Failed() then 1 else 0
  }

  predicate LoopOk(y: Server) {
    && y.accepts + |y.handlers| == (if y.listening && y.open then 1 else 0)
    && (!y.open || y.handlers == [Closes] ==> y.stopped && y.listening)
    && y.successes == |y.services| + Spawning(y)
  }

  /** How many handlers of a service can still begin. */
  function Left(c: Cell): nat {
    match c.service.pending
    case Some(ReadRequestLine) => 3
    case Some(ReadRequestHeaders) => 2
    case Some(SendResponse(_)) => 1
    case None =>
      match c.running
      case Some(Run(ReadRequestLine, _)) => 2
      case Some(Run(ReadRequestHeaders, _)) => 1
      case _ => 0
  }

  /** A service has exactly one of: a pending operation, a running handler, its deletion. */
  predicate CellOk(c: Cell) {
    && Known(c.service.statusCode)
    && (c.service.pending.Some? ==> c.running == None && !c.service.deleted)
    && (c.service.pending == None ==> (c.running == None <==> c.service.deleted))
    && c.deletions == (if c.service.deleted then 1 else 0)
    && c.afterlife == 0
    && c.begun + Left(c) <= 3
  }

  predicate Inv(y: Server) {
    LoopOk(y) && forall i | 0 <= i < |y.services| :: CellOk(y.services[i])
  }

  // ------------------------------------------------------------------ its preservation

  lemma {:induction false} HandleKeepsCodes(s: Service, op: Operation, ec: ErrorCode, files: FileSystem)
    requires Known(s.statusCode) && !s.deleted
    ensures var r := Handle(s, op, ec, files);
            && Known(r.statusCode)
            && (r.pending == None <==> r.deleted)
            && (match r.pending
                case None => true
                case Some(ReadRequestLine) => false
                case Some(ReadRequestHeaders) => op == ReadRequestLine
                case Some(SendResponse(_)) => !op.SendResponse?)
  {
    hide IStream.Extract, IStream.Getline, IStream.Get, StatusEntry, ServerScan, LengthLine;
  }

  lemma {:induction false} HandledIsOk(c: Cell, files: FileSystem)
    requires CellOk(c) && c.running.Some?
    ensures CellOk(Handled(c, files)) && Left(Handled(c, files)) <= Left(c)
  {
    HandleKeepsCodes(c.service, c.running.value.op, c.running.value.ec, files);
    hide Handle;
  }

  lemma {:induction false} BegunIsOk(c: Cell, ec: ErrorCode, request: string)
    requires CellOk(c) && c.service.pending.Some? && c.running == None
    ensures CellOk(Begun(c, ec, request)) && Left(Begun(c, ec, request)) < Left(c)
  {
  }

  lemma {:induction false} AcceptStepKeepsInv(y: Server, k: nat)
    requires Inv(y) && k < |y.handlers|
    ensures Inv(AfterAcceptStep(y, k))
  {
    hide Handle;
    assert k == 0 && y.handlers == [y.handlers[0]];
  }

  /** Every step keeps the invariant. */
  lemma {:induction false} StepKeepsInv(y: Server, e: Event)
    requires Inv(y) && Enabled(y, e)
    ensures Inv(Apply(y, e))
  {
    match e {
      case AcceptCompletes(ec) => assert y.handlers + [Accepted(ec)] == [Accepted(ec)];
      case AcceptStep(k) => AcceptStepKeepsInv(y, k);
      case Begin(i, ec, request) => BegunIsOk(y.services[i], ec, request);
      case Handler(i, files) => HandledIsOk(y.services[i], files);
      case _ =>
    }
    hide AfterAcceptStep, Begun, Handled, CellOk;
  }

  lemma {:induction false} RunKeepsInv(y: Server, es: seq<Event>, z: Server)
    requires Inv(y) && Leads(y, es, z)
    ensures Inv(z)
    decreases |es|
  {
    hide Inv, Apply, Enabled;
    if es != [] {
      StepKeepsInv(y, es[0]);
      RunKeepsInv(Apply(y, es[0]), es[1..], z);
    }
  }

  lemma {:induction false} ReachableInv(y: Server)
    requires Reachable(y)
    ensures Inv(y)
  {
    hide CellOk;
    var es :| Leads(NEW_SERVER, es, y);
    RunKeepsInv(NEW_SERVER, es, y);
  }

  // ------------------------------------------------------------------ the accept loop

  /** Between handlers exactly one accept is outstanding from the start until the acceptor is closed,
      none before and none afterwards; it is closed only by a handler that saw the stop flag. */
  lemma {:induction false} OneOutstandingAccept(y: Server)
    requires Reachable(y)
    ensures y.handlers == [] ==> y.accepts == if y.listening && y.open then 1 else 0
    ensures |y.handlers| <= 1 && (y.handlers != [] ==> y.accepts == 0)
    ensures !y.open ==> y.stopped && y.accepts == 0 && y.handlers == []
  {
    ReachableInv(y);
    hide Reachable;
  }

  /** Between handlers there are as many services as successful accepts. */
  lemma {:induction false} ServicesMatchAccepts(y: Server)
    requires Reachable(y)
    ensures y.handlers == [] ==> |y.services| == y.successes
    ensures |y.services| <= y.successes <= |y.services| + 1
  {
    ReachableInv(y);
    hide Reachable;
  }

  /** Services that can still be created once the flag is set. */
  function Coming(y: Server): nat {
    if !y.open then 0
    else if !y.listening || y.accepts > 0 || Rearms in y.handlers then 1
    else Spawning(y)
  }

  lemma {:induction false} StepAfterStop(y: Server, e: Event)
    requires Inv(y) && y.stopped && Enabled(y, e)
    ensures var z := Apply(y, e);
            z.stopped && (!y.open ==> !z.open) && |y.services| <= |z.services| && |z.services| + Coming(z) <= |y.services| + Coming(y)
  {
    hide CellOk, Begun, Handled;
    if e.AcceptStep? {
      assert y.handlers == [y.handlers[0]];
    }
  }

  /** After a stop at most one more service is created, whatever is under way; none once the acceptor
      has been closed, and it stays closed. */
  lemma {:induction false} StopIsFinal(y: Server, es: seq<Event>, z: Server)
    requires Inv(y) && y.stopped && Leads(y, es, z)
    ensures |z.services| + Coming(z) <= |y.services| + Coming(y) <= |y.services| + 1
    ensures !y.open ==> !z.open && |z.services| == |y.services| && z.accepts == 0
    decreases |es|
  {
    hide Inv, Apply, Enabled, Coming;
    assert Coming(y) <= 1 && (!y.open ==> Coming(y) == 0) by { ComingAtMostOne(y); }
    if es == [] {
      ClosedFacts(y);
    } else {
      StepAfterStop(y, es[0]);
      StepKeepsInv(y, es[0]);
      StopIsFinal(Apply(y, es[0]), es[1..], z);
    }
  }

  lemma ComingAtMostOne(y: Server)
    ensures Coming(y) <= 1 && (!y.open ==> Coming(y) == 0)
  {
  }

  lemma ClosedFacts(y: Server)
    requires Inv(y)
    ensures !y.open ==> y.accepts == 0
  {
  }

  // ------------------------------------------------------------------ the services

  /** A service is deleted at most once; none of its handlers begins after that; as long as it is not
      deleted it has exactly one of a pending operation and a running handler; and at most three
      handlers begin in all. */
  lemma {:induction false} ServiceLifetime(y: Server, i: nat)
    requires Reachable(y) && i < |y.services|
    ensures var c := y.services[i];
            && c.deletions <= 1 && c.afterlife == 0 && c.begun <= 3
            && (c.service.deleted <==> c.deletions == 1)
            && (c.service.deleted ==> c.service.pending == None && c.running == None)
            && (!c.service.deleted ==> (c.service.pending.Some? <==> c.running == None))
  {
    ReachableInv(y);
    hide Reachable;
    assert CellOk(y.services[i]);
  }

  /** Every service is freed in the end: its handlers always can go on, they descend, and where none is
      left the service has been deleted. */
  lemma {:induction false} ServiceIsFreed(y: Server, i: nat)
    requires Reachable(y) && i < |y.services| && !y.crashed && !y.services[i].service.deleted
    ensures y.services[i].running == None ==> forall ec, request :: Enabled(y, Begin(i, ec, request))
                                                                    && Left(Apply(y, Begin(i, ec, request)).services[i]) < Left(y.services[i])
    ensures y.services[i].running.Some? ==> forall files :: Enabled(y, Handler(i, files))
                                                            && Left(Apply(y, Handler(i, files)).services[i]) <= Left(y.services[i])
    ensures y.services[i].running.Some? && Left(y.services[i]) == 0 ==>
              forall files :: Enabled(y, Handler(i, files)) && Apply(y, Handler(i, files)).services[i].service.deleted
  {
    ReachableInv(y);
    hide Reachable;
    var c := y.services[i];
    assert CellOk(c);
    if c.running.Some? {
      forall files
        ensures Left(Handled(c, files)) <= Left(c) && (Left(c) == 0 ==> Handled(c, files).service.deleted)
      {
        HandledIsOk(c, files);
        if Left(c) == 0 {
          LastHandlerDeletes(c, files);
        }
      }
    } else {
      forall ec, request
        ensures Left(Begun(c, ec, request)) < Left(c)
      {
        BegunIsOk(c, ec, request);
      }
    }
    hide Begun, Handled, CellOk;
  }

  lemma {:induction false} LastHandlerDeletes(c: Cell, files: FileSystem)
    requires CellOk(c) && c.running.Some? && Left(c) == 0
    ensures Handled(c, files).service.deleted
  {
  }

  /** A service created by an accept, whose reads the network completes one after the other, is the
      service against that network: it replies to the bytes it is sent. */
  lemma {:induction false} CellServes(wire: string, end: ErrorCode, files: FileSystem, pick: Chunking) returns (c: Cell)
    ensures CellOk(NEW_CELL) && NEW_CELL.service.pending.Some?
    ensures var r := ReadUntil("", wire, CRLF, AtMost(BUFFER_SIZE), end, pick);
            var b := Begun(NEW_CELL, r.ec, r.buf);
            && b.running.Some? && CellOk(b) && c == Handled(b, files) && CellOk(c)
            && (c.service.pending != Some(ReadRequestHeaders) ==> c.service == Serve(wire, end, files, pick))
            && (c.service.pending == Some(ReadRequestHeaders) ==>
                  var r2 := ReadUntil(c.service.request, r.wire, BLANK, AtMost(BUFFER_SIZE), end, pick);
                  var b2 := Begun(c, r2.ec, r2.buf);
                  b2.running.Some? && CellOk(b2) && Handled(b2, files).service == Serve(wire, end, files, pick))
  {
    hide ReadUntil, OnRequestLine, OnHeaders;
    var r := ReadUntil("", wire, CRLF, AtMost(BUFFER_SIZE), end, pick);
    BegunIsOk(NEW_CELL, r.ec, r.buf);
    var b := Begun(NEW_CELL, r.ec, r.buf);
    HandledIsOk(b, files);
    c := Handled(b, files);
    if c.service.pending == Some(ReadRequestHeaders) {
      var r2 := ReadUntil(c.service.request, r.wire, BLANK, AtMost(BUFFER_SIZE), end, pick);
      BegunIsOk(c, r2.ec, r2.buf);
    }
  }

  // ------------------------------------------------------------------ the object

  /** What an acceptor shows: its flags, the accepts outstanding and the services created. */
  datatype View = View(listening: bool, stopped: bool, open: bool, accepts: nat, created: nat)

  function Shown(y: Server): View {
    View(y.listening, y.stopped, y.open, y.accepts, |y.services|)
  }

  /** An accept handler run from end to end. */
  function AfterAccept(v: View, ec: ErrorCode): View
    requires v.accepts > 0
  {
    var w := v.(created := v.created + if ec.Failed() then 0 else 1);
    if v.stopped then w.(accepts := v.accepts - 1, open := false) else w
  }

  /** Run without interference, the handler's steps have the effect of the object's method. */
  lemma {:induction false} AcceptHandlerIsSteps(y: Server, ec: ErrorCode) returns (z: Server)
    requires Inv(y) && !y.crashed && y.accepts > 0
    ensures Leads(y, [AcceptCompletes(ec), AcceptStep(0), AcceptStep(0), AcceptStep(0)], z)
    ensures Shown(z) == AfterAccept(Shown(y), ec) && z.handlers == []
    ensures z.services == if ec.Failed() then y.services else y.services + [NEW_CELL]
  {
    hide CellOk, Begun, Handled;
    assert y.handlers == [];
    var y1 := Apply(y, AcceptCompletes(ec));
    var y2 := Apply(y1, AcceptStep(0));
    var y3 := Apply(y2, AcceptStep(0));
    z := Apply(y3, AcceptStep(0));
    assert Leads(z, [], z);
    assert Leads(y3, [AcceptStep(0)], z);
    assert Leads(y2, [AcceptStep(0), AcceptStep(0)], z);
    assert Leads(y1, [AcceptStep(0), AcceptStep(0), AcceptStep(0)], z);
  }

  class Acceptor {
    var isListening: bool
    var isStopped: bool
    var isOpen: bool
    var accepts: nat
    var services: seq<HTTPService>

    function Value(): View
      reads this
    {
      View(isListening, isStopped, isOpen, accepts, |services|)
    }

    constructor ()
      ensures Value() == Shown(NEW_SERVER) && services == []
    {
      isListening, isStopped, isOpen, accepts, services := false, false, true, 0, [];
    }

    method Start()
      requires !isListening
      modifies this`isListening, this`accepts
      ensures Value() == old(Value()).(listening := true, accepts := old(accepts) + 1)
    {
      isListening := true;
      InitAccept();
    }

    method Stop()
      modifies this`isStopped
      ensures Value() == old(Value()).(stopped := true)
    {
      isStopped := true;
    }

    method InitAccept()
      modifies this`accepts
      ensures accepts == old(accepts) + 1
    {
      accepts := accepts + 1;
    }

    /** The handler of a completed accept: a new service starts to read, and the loop renews itself
        or ends. */
    method OnAccept(ec: ErrorCode)
      requires accepts > 0
      modifies this`accepts, this`isOpen, this`services
      ensures Value() == AfterAccept(old(Value()), ec)
      ensures if ec.Failed() then services == old(services)
              else services[..|services| - 1] == old(services) && fresh(services[|services| - 1])
                   && services[|services| - 1].Value() == NEW_CELL.service
    {
      accepts := accepts - 1;
      if !ec.Failed() {
        var service := new HTTPService();
        service.StartHandling();
        services := services + [service];
      }
      if !isStopped {
        InitAccept();
      } else {
        isOpen := false;
      }
    }
  }
}
