/** One HTTP request under every interleaving of its handlers with concurrent cancellations.

    The steps are those between which another thread can run: the part of a handler before the
    cancel lock, taking the lock, the check under it, leaving, the callback, and the three steps of
    `cancel`. The network completes pending operations with arbitrary codes and bytes. */
module RequestMachine {
  import opened Streams
  import opened HttpClient
  import opened ClientRuns

  // ------------------------------------------------------------------ states and steps

  /** Owner of the cancel lock: nobody, the running `execute` or handler before its check, the thread
      that has started an operation and is about to return (from `execute` or from a handler), or a
      canceller before or after setting the flag. */
  datatype Lock = Free | Flow | Starter(fromExecute: bool) | Canceller(marked: bool)

  /** Where the request is. `Thrown` is an exception out of the socket's shutdown. */
  datatype Pc =
    | NotExecuted
    | Waiting                    // an operation is pending, no code of the request runs
    | WantsLock(next: Stage)
    | InLock(next: Stage)
    | Finishing(ec: ErrorCode)
    | InCallback(ec: ErrorCode)
    | Done
    | Spinning
    | Thrown

  /** `inExecute` says that the code running is still `execute` itself, on the user's thread. */
  datatype World = World(req: Request, lock: Lock, pc: Pc, started: seq<Stage>, inExecute: bool, cancelReturned: bool)

  datatype Event =
    | Execute
    | Complete(ec: ErrorCode, bytes: string)
    | Throw
    | Acquire
    | Check
    | Leave
    | Call
    | Return
    | CancelAcquire
    | CancelMark
    | CancelRelease
  {
    /** Steps of the request itself, as opposed to those of cancellers and of a returning starter. */
    predicate OfFlow() {
      !Leave? && !CancelAcquire? && !CancelMark? && !CancelRelease?
    }
  }

  predicate Enabled(w: World, e: Event) {
    match e
    case Execute => w.pc == NotExecuted
    case Complete(_, _) => w.pc == Waiting && w.req.pending.Some? && w.lock != Starter(false)
    case Throw => w.pc == Waiting && w.req.pending == Some(SendRequest) && w.lock != Starter(false)
    case Acquire => w.pc.WantsLock? && w.lock == Free
    case Check => w.pc.InLock?
    case Leave => w.lock.Starter?
    case Call => w.pc.Finishing?
    case Return => w.pc.InCallback?
    case CancelAcquire => w.lock == Free
    case CancelMark => w.lock == Canceller(false)
    case CancelRelease => w.lock == Canceller(true)
  }

  /** The bytes a completed read adds to the response buffer. */
  function Fill(q: Request, bytes: string): Request {
    if q.pending in {Some(ReadStatus), Some(ReadHeaders), Some(ReadBody)}
    then q.(response := q.response.(buf := q.response.buf + bytes))
    else q
  }

  function Apply(w: World, e: Event): World
    requires Enabled(w, e)
  {
    match e
    case Execute => w.(pc := WantsLock(Resolve), inExecute := true)
    case Complete(ec, bytes) =>
      (match BeforeLock(Fill(w.req, bytes).(pending := None), w.req.pending.value, ec)
       case Proceeds(r, next) => w.(req := r, pc := WantsLock(next), inExecute := false)
       case Finishes(r, code) => w.(req := r, pc := Finishing(code), inExecute := false)
       case Loops(r) => w.(req := r.(spinning := true), pc := Spinning, inExecute := false))
    case Throw => w.(req := w.req.(pending := None), pc := Thrown, inExecute := false)
    case Acquire => w.(lock := Flow, pc := InLock(w.pc.next))
    case Check =>
      if w.req.cancelled then w.(lock := Free, pc := Finishing(OperationAborted))
      else w.(req := w.req.(pending := Some(w.pc.next)), lock := Starter(w.inExecute), pc := Waiting,
              started := w.started + [w.pc.next])
    case Leave => w.(lock := Free)
    case Call => w.(req := Finish(w.req, w.pc.ec), pc := InCallback(w.pc.ec))
    case Return => w.(pc := Done)
    case CancelAcquire => w.(lock := Canceller(false))
    case CancelMark => w.(req := w.req.(cancelled := true), lock := Canceller(true))
    case CancelRelease => w.(lock := Free, cancelReturned := true)
  }

  /** A new request, before `execute`. */
  predicate Initial(w: World) {
    && w.req.pending == None && w.req.finished == [] && !w.req.spinning && !w.req.cancelled
    && w.lock == Free && w.pc == NotExecuted && w.started == [] && !w.inExecute && !w.cancelReturned
  }

  /** The events lead from one state to the other. */
  ghost predicate Leads(w: World, es: seq<Event>, v: World)
    decreases |es|
  {
    if es == [] then w == v
    else Enabled(w, es[0]) && Leads(Apply(w, es[0]), es[1..], v)
  }

  ghost predicate Reachable(w: World) {
    exists w0, es :: Initial(w0) && Leads(w0, es, w)
  }

  lemma {:induction false} LeadsThenStep(w: World, es: seq<Event>, v: World, e: Event)
    requires Leads(w, es, v) && Enabled(v, e)
    ensures Leads(w, es + [e], Apply(v, e))
    decreases |es|
  {
    if es == [] {
      assert ([] + [e])[1..] == [];
    } else {
      assert (es + [e])[1..] == es[1..] + [e];
      LeadsThenStep(Apply(w, es[0]), es[1..], v, e);
    }
  }

  // ------------------------------------------------------------------ the invariant

  const STAGES: seq<Stage> := [Resolve, Connect, SendRequest, ReadStatus, ReadHeaders, ReadBody]

  function Index(stage: Stage): (i: nat)
    ensures i < 6 && STAGES[i] == stage
  {
    match stage
    case Resolve => 0
    case Connect => 1
    case SendRequest => 2
    case ReadStatus => 3
    case ReadHeaders => 4
    case ReadBody => 5
  }

  lemma StagesDistinct(i: nat)
    requires i < 6
    ensures Index(STAGES[i]) == i
  {
  }

  predicate Terminal(pc: Pc) {
    pc == Done || pc == Spinning || pc == Thrown
  }

  /** The operations started so far are the first ones of the fixed order, and the next one is due. */
  predicate InOrder(w: World) {
    && |w.started| <= 6 && w.started == STAGES[..|w.started|]
    && (w.pc == NotExecuted ==> w.started == [])
    && (w.pc.WantsLock? || w.pc.InLock? ==> |w.started| < 6 && w.pc.next == STAGES[|w.started|])
    && (w.req.pending.Some? ==> w.started != [] && w.req.pending.value == w.started[|w.started| - 1])
  }

  /** Exactly one of: nothing yet, a pending operation, running code, the end. */
  predicate OneActivity(w: World) {
    && (w.req.pending.Some? <==> w.pc == Waiting)
    && (w.req.spinning <==> w.pc == Spinning)
    && (w.pc.InCallback? ==> w.req.finished == [w.pc.ec])
    && (w.pc == Done ==> |w.req.finished| == 1)
    && (!w.pc.InCallback? && w.pc != Done ==> w.req.finished == [])
  }

  /** Success is only ever reported after the body read was started. */
  predicate SuccessAfterBody(w: World) {
    && (w.pc == Finishing(Success) || w.pc == InCallback(Success) ==> ReadBody in w.started)
    && (Success in w.req.finished ==> ReadBody in w.started)
  }

  predicate LockDiscipline(w: World) {
    && (w.lock == Flow <==> w.pc.InLock?)
    && (w.lock == Starter(false) ==> w.pc == Waiting)
    && (w.lock.Starter? ==> w.started != [])
    && (w.inExecute && w.pc != Waiting ==> w.started == [])
    && (w.lock == Canceller(true) || w.cancelReturned ==> w.req.cancelled)
  }

  predicate Inv(w: World) {
    InOrder(w) && OneActivity(w) && SuccessAfterBody(w) && LockDiscipline(w)
  }

  /** What the part of a handler before the lock may change and where it may lead. */
  lemma {:induction false} PreludeFacts(q: Request, stage: Stage, ec: ErrorCode)
    ensures match BeforeLock(q, stage, ec)
            case Proceeds(r, next) =>
              && r == q.(requestBuf := r.requestBuf, response := r.response)
              && stage != ReadBody && next == STAGES[Index(stage) + 1]
            case Finishes(r, code) =>
              r == q.(response := r.response) && (code == Success ==> stage == ReadBody)
            case Loops(r) => r == q.(response := r.response)
  {
    hide StatusLines.ParseStatusLine, HeaderBlocks.ScanBlock;
  }

  lemma {:induction false} CompleteFacts(w: World, ec: ErrorCode, bytes: string)
    requires Inv(w) && Enabled(w, Complete(ec, bytes))
    ensures var v := Apply(w, Complete(ec, bytes));
            && v.started == w.started && v.lock == w.lock && !v.inExecute && v.cancelReturned == w.cancelReturned
            && v.req.pending == None && v.req.finished == [] && v.req.cancelled == w.req.cancelled
            && (v.req.spinning <==> v.pc == Spinning)
            && (v.pc.WantsLock? || v.pc.Finishing? || v.pc == Spinning)
            && (v.pc.WantsLock? ==> w.req.pending != Some(ReadBody) && v.pc.next == STAGES[Index(w.req.pending.value) + 1])
            && (v.pc == Finishing(Success) ==> w.req.pending == Some(ReadBody))
  {
    PreludeFacts(Fill(w.req, bytes).(pending := None), w.req.pending.value, ec);
    hide BeforeLock, Index;
  }

  lemma {:induction false} CompleteKeepsInv(w: World, ec: ErrorCode, bytes: string)
    requires Inv(w) && Enabled(w, Complete(ec, bytes))
    ensures Inv(Apply(w, Complete(ec, bytes)))
  {
    hide Apply, Index, OneActivity;
    CompleteFacts(w, ec, bytes);
    StagesDistinct(|w.started| - 1);
    StagesDistinct(5);
    CompleteKeepsActivity(w, ec, bytes);
  }

  lemma {:induction false} CompleteKeepsActivity(w: World, ec: ErrorCode, bytes: string)
    requires Inv(w) && Enabled(w, Complete(ec, bytes))
    ensures OneActivity(Apply(w, Complete(ec, bytes)))
  {
    hide Apply, Index, Inv, Enabled;
    CompleteFacts(w, ec, bytes);
  }

  lemma {:induction false} CheckKeepsInv(w: World)
    requires Inv(w) && Enabled(w, Check)
    ensures Inv(Apply(w, Check))
  {
    assert STAGES[..|w.started|] + [w.pc.next] == STAGES[..|w.started| + 1];
  }

  /** Every step keeps the invariant. */
  lemma {:induction false} StepKeepsInv(w: World, e: Event)
    requires Inv(w) && Enabled(w, e)
    ensures Inv(Apply(w, e))
  {
    hide BeforeLock, Fill;
    if e.Complete? {
      CompleteKeepsInv(w, e.ec, e.bytes);
    } else if e.Check? {
      CheckKeepsInv(w);
    }
  }

  lemma {:induction false} RunKeepsInv(w: World, es: seq<Event>, v: World)
    requires Inv(w) && Leads(w, es, v)
    ensures Inv(v)
    decreases |es|
  {
    if es != [] {
      StepKeepsInv(w, es[0]);
      RunKeepsInv(Apply(w, es[0]), es[1..], v);
    }
  }

  lemma {:induction false} ReachableInv(w: World)
    requires Reachable(w)
    ensures Inv(w)
  {
    var w0, es :| Initial(w0) && Leads(w0, es, w);
    RunKeepsInv(w0, es, w);
  }

  // ------------------------------------------------------------------ what cancel guarantees

  lemma {:induction false} StepAfterCancel(w: World, e: Event)
    requires Enabled(w, e) && w.req.cancelled
    ensures Apply(w, e).started == w.started && Apply(w, e).req.cancelled
  {
    hide BeforeLock;
    if e.Complete? {
      PreludeFacts(Fill(w.req, e.bytes).(pending := None), w.req.pending.value, e.ec);
    }
  }

  lemma {:induction false} RunAfterCancel(w: World, es: seq<Event>, v: World)
    requires Leads(w, es, v) && w.req.cancelled
    ensures v.started == w.started && v.req.cancelled
    decreases |es|
  {
    if es != [] {
      StepAfterCancel(w, es[0]);
      RunAfterCancel(Apply(w, es[0]), es[1..], v);
    }
  }

  /** Once `cancel` has returned, no further operation is ever started; and if it returned before the
      body read was started, whatever the callback is told is an error. */
  lemma {:induction false} CancelGuarantee(w: World, es: seq<Event>, v: World)
    requires Reachable(w) && Leads(w, es, v) && w.cancelReturned
    ensures v.started == w.started
    ensures ReadBody !in w.started ==> forall ec | ec in v.req.finished :: ec.Failed()
  {
    ReachableInv(w);
    RunKeepsInv(w, es, v);
    RunAfterCancel(w, es, v);
  }

  ghost predicate ErrorForSure(w: World) {
    forall es, v | Leads(w, es, v) :: Success !in v.req.finished
  }

  /** The guarantee is exact: of a cancelled request whose operation is still pending, the callback is
      certain to get an error if and only if that operation is not the body read. */
  lemma {:induction false} CancelIsExact(w: World)
    requires Reachable(w) && w.req.cancelled && w.pc == Waiting
    ensures ErrorForSure(w) <==> w.req.pending != Some(ReadBody)
  {
    ReachableInv(w);
    if w.req.pending == Some(ReadBody) {
      var u := if w.lock.Starter? then Apply(w, Leave) else w;
      var es: seq<Event> := if w.lock.Starter? then [Leave] else [];
      assert Leads(w, es, u);
      LeadsThenStep(w, es, u, Complete(Eof, ""));
      var x := Apply(u, Complete(Eof, ""));
      LeadsThenStep(w, es + [Complete(Eof, "")], x, Call);
      assert Success in Apply(x, Call).req.finished;
    } else {
      var last := |w.started| - 1;
      assert w.started[last] == STAGES[last] != ReadBody;
      assert STAGES[5] == ReadBody && ReadBody !in w.started;
      forall es, v | Leads(w, es, v)
        ensures Success !in v.req.finished
      {
        RunKeepsInv(w, es, v);
        RunAfterCancel(w, es, v);
      }
    }
  }

  /** The thread that runs the callback does not hold the cancel lock, so the callback may cancel. */
  lemma {:induction false} CallbackWithoutLock(w: World)
    requires Reachable(w) && w.pc.InCallback?
    ensures w.lock != Flow && w.lock != Starter(w.inExecute)
  {
    ReachableInv(w);
  }

  // ------------------------------------------------------------------ exactly once

  /** Steps of the request still possible, at most. */
  function Rank(w: World): nat
    requires |w.started| <= 6
  {
    match w.pc
    case NotExecuted => 60
    case WantsLock(_) => 8 * (6 - |w.started|) + 5
    case InLock(_) => 8 * (6 - |w.started|) + 4
    case Waiting => 8 * (6 - |w.started|) + 6
    case Finishing(_) => 2
    case InCallback(_) => 1
    case _ => 0
  }

  lemma {:induction false} StepDescends(w: World, e: Event)
    requires Inv(w) && Enabled(w, e)
    ensures Inv(Apply(w, e))
    ensures if e.OfFlow() then Rank(Apply(w, e)) < Rank(w) else Rank(Apply(w, e)) == Rank(w)
  {
    hide BeforeLock, Fill;
    StepKeepsInv(w, e);
    if e.Complete? {
      CompleteFacts(w, e.ec, e.bytes);
    }
  }

  function FlowSteps(es: seq<Event>): nat {
    if es == [] then 0 else (if es[0].OfFlow() then 1 else 0) + FlowSteps(es[1..])
  }

  /** Every run contains at most `Rank` steps of the request: it cannot go round in circles. */
  lemma {:induction false} RunIsBounded(w: World, es: seq<Event>, v: World)
    requires Inv(w) && Leads(w, es, v)
    ensures Inv(v) && Rank(v) + FlowSteps(es) <= Rank(w)
    decreases |es|
  {
    if es != [] {
      StepDescends(w, es[0]);
      RunIsBounded(Apply(w, es[0]), es[1..], v);
    }
  }

  /** A request is never stuck: unless it has ended, some step other than a new cancellation is possible. */
  lemma {:induction false} NeverStuck(w: World) returns (e: Event)
    requires Reachable(w) && !Terminal(w.pc)
    ensures Enabled(w, e) && e != CancelAcquire
  {
    ReachableInv(w);
    match w.pc {
      case NotExecuted => e := Execute;
      case Waiting => e := if w.lock == Starter(false) then Leave else Complete(Eof, "");
      case WantsLock(_) =>
        e := match w.lock
             case Free => Acquire
             case Starter(_) => Leave
             case Canceller(marked) => if marked then CancelRelease else CancelMark
             case Flow => Check;
      case InLock(_) => e := Check;
      case Finishing(_) => e := Call;
      case InCallback(_) => e := Return;
      case _ =>
    }
  }

  /** Nothing can happen any more but a new cancellation. */
  ghost predicate Quiet(w: World) {
    forall e: Event :: Enabled(w, e) ==> e == CancelAcquire
  }

  /** The callback is called at most once in every run; in one that has come to its end it was called
      exactly once if and only if that end is no endless header loop and no exception. */
  lemma {:induction false} CallbackExactlyOnce(w: World)
    requires Reachable(w)
    ensures |w.req.finished| <= 1
    ensures Quiet(w) ==> (|w.req.finished| == 1 <==> w.pc != Spinning && w.pc != Thrown)
  {
    ReachableInv(w);
    if Quiet(w) && !Terminal(w.pc) {
      var e := NeverStuck(w);
      assert false;
    }
  }

  // ------------------------------------------------------------------ what the callback is told

  /** The request is on its way to reporting this code, or has reported it. */
  predicate EndsWith(w: World, ec: ErrorCode) {
    || (w.pc == Finishing(ec) && w.req.finished == [])
    || (w.pc == InCallback(ec) && w.req.finished == [ec])
    || (w.pc == Done && w.req.finished == [ec])
  }

  lemma {:induction false} StepEndsWith(w: World, ec: ErrorCode, e: Event)
    requires Inv(w) && Enabled(w, e) && EndsWith(w, ec)
    ensures EndsWith(Apply(w, e), ec)
  {
    hide BeforeLock, Fill, InOrder, SuccessAfterBody, LockDiscipline;
  }

  lemma {:induction false} RunEndsWith(w: World, ec: ErrorCode, es: seq<Event>, v: World)
    requires Inv(w) && Leads(w, es, v) && EndsWith(w, ec)
    ensures EndsWith(v, ec)
    decreases |es|
  {
    hide Apply, Enabled, Inv, EndsWith;
    if es != [] {
      StepKeepsInv(w, es[0]);
      StepEndsWith(w, ec, es[0]);
      RunEndsWith(Apply(w, es[0]), ec, es[1..], v);
    }
  }

  /** A failed operation ends the request with that operation's own code, in every continuation:
      whichever operation it was, and whether or not the request is cancelled meanwhile. */
  lemma {:induction false} FailureIsReported(w: World, ec: ErrorCode, bytes: string, es: seq<Event>, v: World)
    requires Reachable(w) && Enabled(w, Complete(ec, bytes)) && ec.Failed()
    requires !(w.req.pending == Some(ReadBody) && ec == Eof)
    requires Leads(Apply(w, Complete(ec, bytes)), es, v)
    ensures v.req.finished == [] || v.req.finished == [ec]
    ensures v.pc == Done ==> v.req.finished == [ec]
    ensures v.pc == Finishing(ec) || v.pc == InCallback(ec) || v.pc == Done
  {
    ReachableInv(w);
    StepKeepsInv(w, Complete(ec, bytes));
    RunEndsWith(Apply(w, Complete(ec, bytes)), ec, es, v);
  }

  /** The end of the connection during the body ends it with success. */
  lemma {:induction false} BodyEndIsSuccess(w: World, bytes: string, es: seq<Event>, v: World)
    requires Reachable(w) && Enabled(w, Complete(Eof, bytes)) && w.req.pending == Some(ReadBody)
    requires Leads(Apply(w, Complete(Eof, bytes)), es, v)
    ensures v.req.finished == [] || v.req.finished == [Success]
    ensures v.pc == Done ==> v.req.finished == [Success]
  {
    ReachableInv(w);
    StepKeepsInv(w, Complete(Eof, bytes));
    RunEndsWith(Apply(w, Complete(Eof, bytes)), Success, es, v);
  }

  /** Cancelled before its next operation is started, or before the first. */
  predicate Aborting(w: World) {
    w.req.cancelled && (w.pc == NotExecuted || w.pc.WantsLock? || w.pc.InLock?)
  }

  lemma {:induction false} RunAborts(w: World, es: seq<Event>, v: World)
    requires Inv(w) && Leads(w, es, v) && Aborting(w)
    ensures Aborting(v) || EndsWith(v, OperationAborted)
    decreases |es|
  {
    hide BeforeLock, Fill;
    if es != [] {
      var next := Apply(w, es[0]);
      StepKeepsInv(w, es[0]);
      if Aborting(next) {
        RunAborts(next, es[1..], v);
      } else {
        RunEndsWith(next, OperationAborted, es[1..], v);
      }
    }
  }

  /** A request that is cancelled while no operation is pending and the next one is still to be started
      ends with operation_aborted, in every continuation. */
  lemma {:induction false} CancelIsReported(w: World, es: seq<Event>, v: World)
    requires Reachable(w) && Aborting(w) && Leads(w, es, v)
    ensures v.req.finished == [] || v.req.finished == [OperationAborted]
    ensures v.pc == Done ==> v.req.finished == [OperationAborted]
    ensures v.started == w.started
  {
    ReachableInv(w);
    RunAborts(w, es, v);
    RunKeepsInv(w, es, v);
    RunAfterCancel(w, es, v);
  }

  /** Operations are started in one order, and success needs them all. */
  lemma {:induction false} StartedInOrder(w: World)
    requires Reachable(w)
    ensures var order := [Resolve, Connect, SendRequest, ReadStatus, ReadHeaders, ReadBody];
            && |w.started| <= 6 && w.started == order[..|w.started|]
            && (w.req.pending.Some? ==> w.started != [] && w.req.pending.value == order[|w.started| - 1])
            && (Success in w.req.finished ==> w.started == order)
  {
    ReachableInv(w);
    if Success in w.req.finished {
      var i :| 0 <= i < |w.started| && w.started[i] == ReadBody;
      assert STAGES[i] == ReadBody;
      StagesDistinct(i);
      assert STAGES[..6] == STAGES;
    }
  }

  // ------------------------------------------------------------------ the handlers of the object

  /** A request with more bytes in its response buffer. */
  function Filled(q: Request, bytes: string): Request {
    q.(response := q.response.(buf := q.response.buf + bytes))
  }

  /** Run without interference, the steps of a completion are the handler of the object, on the buffer
      that the completed operation has filled. */
  lemma {:induction false} HandlerIsSteps(w: World, ec: ErrorCode, bytes: string) returns (es: seq<Event>, v: World)
    requires Inv(w) && w.pc == Waiting && w.lock == Free
    requires bytes != "" ==> w.req.pending in {Some(ReadStatus), Some(ReadHeaders), Some(ReadBody)}
    ensures Leads(w, es, v) && v.req == Handle(Filled(w.req, bytes), w.req.pending.value, ec) && v.lock == Free
    ensures v.req.pending.Some? ==> v.pc == Waiting
  {
    var stage := w.req.pending.value;
    assert bytes == "" ==> w.req.response.buf + bytes == w.req.response.buf;
    assert Fill(w.req, bytes) == Filled(w.req, bytes);
    var c := Complete(ec, bytes);
    var x := Apply(w, c);
    PreludeFacts(Fill(w.req, bytes).(pending := None), stage, ec);
    hide BeforeLock;
    assert Leads(w, [], w);
    LeadsThenStep(w, [], w, c);
    es, v := [] + [c], x;
    if x.pc.WantsLock? {
      LeadsThenStep(w, es, x, Acquire);
      var y := Apply(x, Acquire);
      LeadsThenStep(w, es + [Acquire], y, Check);
      var z := Apply(y, Check);
      es := es + [Acquire] + [Check];
      if z.lock.Starter? {
        LeadsThenStep(w, es, z, Leave);
        es, v := es + [Leave], Apply(z, Leave);
      } else {
        LeadsThenStep(w, es, z, Call);
        es, v := es + [Call], Apply(z, Call);
      }
    } else if x.pc.Finishing? {
      LeadsThenStep(w, es, x, Call);
      es, v := es + [Call], Apply(x, Call);
    }
  }

  lemma {:induction false} LeadsOn(w: World, es: seq<Event>, u: World, fs: seq<Event>, v: World)
    requires Leads(w, es, u) && Leads(u, fs, v)
    ensures Leads(w, es + fs, v)
    decreases |es|
  {
    hide Enabled, Apply;
    if es == [] {
      assert es + fs == fs;
    } else {
      LeadsOn(Apply(w, es[0]), es[1..], u, fs, v);
      assert (es + fs)[1..] == es[1..] + fs && (es + fs)[0] == es[0];
    }
  }

  /** A whole response: an exchange with the network, read by read, is a run of the machine. */
  lemma {:induction false} ReceiveIsRun(w: World, wire: string, end: ErrorCode, pick: Chunking) returns (es: seq<Event>, v: World)
    requires Inv(w) && w.pc == Waiting && w.lock == Free && w.req.pending == Some(ReadStatus)
    ensures Leads(w, es, v) && v.req == Receive(w.req, wire, end, pick)
  {
    hide Inv, Leads, Handle, ReceiveHeaders;
    var r := ReadUntil(w.req.response.buf, wire, CRLF, Unbounded, end, pick);
    var bytes := BytesRead(w.req.response.buf, wire, CRLF, end, pick);
    es, v := HandlerIsSteps(w, r.ec, bytes);
    if v.req.pending == Some(ReadHeaders) {
      RunKeepsInv(w, es, v);
      var fs, u := ReceiveHeadersIsRun(v, r.wire, end, pick);
      LeadsOn(w, es, v, fs, u);
      es, v := es + fs, u;
    }
  }

  lemma {:induction false} ReceiveHeadersIsRun(w: World, wire: string, end: ErrorCode, pick: Chunking) returns (es: seq<Event>, v: World)
    requires Inv(w) && w.pc == Waiting && w.lock == Free && w.req.pending == Some(ReadHeaders)
    ensures Leads(w, es, v) && v.req == ReceiveHeaders(w.req, wire, end, pick)
  {
    hide Inv, Leads, Handle;
    var r := ReadUntil(w.req.response.buf, wire, BLANK, Unbounded, end, pick);
    var bytes := BytesRead(w.req.response.buf, wire, BLANK, end, pick);
    es, v := HandlerIsSteps(w, r.ec, bytes);
    if v.req.pending == Some(ReadBody) {
      RunKeepsInv(w, es, v);
      ReadAllOutcome(v.req.response.buf, r.wire, end, pick);
      var fs, u := HandlerIsSteps(v, end, r.wire);
      LeadsOn(w, es, v, fs, u);
      es, v := es + fs, u;
    }
  }

  lemma {:induction false} BytesRead(buf: string, wire: string, delim: string, end: ErrorCode, pick: Chunking) returns (bytes: string)
    ensures ReadUntil(buf, wire, delim, Unbounded, end, pick).buf == buf + bytes
  {
    ReadUntilConserves(buf, wire, delim, Unbounded, end, pick);
    var r := ReadUntil(buf, wire, delim, Unbounded, end, pick);
    bytes := r.buf[|buf|..];
    assert buf == (buf + wire)[..|buf|] == (r.buf + r.wire)[..|buf|] == r.buf[..|buf|];
  }
}
