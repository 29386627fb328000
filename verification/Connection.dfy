// The request/response protocol the LSP and the DAP client share: requesters,
// one reader and any number of `stop`s over a `pending` table, an id counter
// and a `stopped` flag. Every lock region and every atomic access is one step;
// the properties hold for every interleaving of the steps.
module Connections {
  import opened Sequences

  // Names a call of `request_within`, and the channel it made.
  type Request = nat

  // -- What the threads share ---------------------------------------------------

  datatype Shared = Shared(nextId: int, pending: map<int, Request>, stopped: bool) {
    function Counted(): Shared { this.(nextId := nextId + 1) }
    function Inserted(id: int, r: Request): Shared { this.(pending := pending[id := r]) }
    function Removed(id: int): Shared { this.(pending := pending - {id}) }
    function Flagged(): Shared { this.(stopped := true) }
    function Cleared(): Shared { this.(pending := map[]) }
  }

  // One connection's fields; each method is one lock region or atomic access.
  class Connection {
    var nextId: int
    var pending: map<int, Request>
    var stopped: bool

    function Snapshot(): Shared
      reads this
    {
      Shared(nextId, pending, stopped)
    }

    constructor ()
      ensures Snapshot() == Shared(1, map[], false)
    {
      nextId, pending, stopped := 1, map[], false;
    }

    method FetchAdd() returns (id: int)
      modifies this
      ensures id == old(nextId) && Snapshot() == old(Snapshot()).Counted()
    {
      id := nextId;
      nextId := nextId + 1;
    }

    method Insert(id: int, r: Request)
      modifies this
      ensures Snapshot() == old(Snapshot()).Inserted(id, r)
    {
      pending := pending[id := r];
    }

    // The channel that waited for `id`, if one did.
    method Remove(id: int) returns (waiting: Option<Request>)
      modifies this
      ensures Snapshot() == old(Snapshot()).Removed(id)
      ensures waiting == if id in old(pending) then Some(old(pending)[id]) else None
    {
      waiting := if id in pending then Some(pending[id]) else None;
      pending := pending - {id};
    }

    method StoreStopped()
      modifies this
      ensures Snapshot() == old(Snapshot()).Flagged()
    {
      stopped := true;
    }

    method ClearPending()
      modifies this
      ensures Snapshot() == old(Snapshot()).Cleared()
    {
      pending := map[];
    }
  }

  // -- What each thread is doing --------------------------------------------------

  datatype Error = Stopped | Failed

  datatype Outcome =
    | Answered(response: nat)  // which of the responses read
    | Refused(error: Error)
    | TimedOut

  // Where a `request_within` call is: what it does next.
  datatype Phase =
    | Registering       // has its id and its channel
    | Checking          // in `pending`; loads `stopped`
    | Writing           // saw `stopped` false
    | Waiting           // wrote its frame; `recv_timeout`
    | Withdrawing(error: Error)  // the send failed; leaves `pending`
    | Expiring          // the wait timed out; leaves `pending`
    | Cancelling        // timed out and left; `$/cancelRequest` loads `stopped`
    | WritingCancel     // saw `stopped` false
    | Done(outcome: Outcome)

  // A call: its id, its phase and the responses sent to its channel so far.
  datatype Call = Call(id: int, phase: Phase, channel: seq<nat>)

  datatype Reader =
    | Reading
    | Delivering(response: nat, waiting: Request)  // took the sender out of `pending`
    | Replying(number: Option<int>, request: int)  // answers a request of the other side
    | WritingReply(number: Option<int>, request: int)
    | Ended

  // Frames written. A request and (in DAP) a reply carry this side's number; a reply
  // names the request of the other side that it answers.
  datatype Frame =
    | RequestFrame(number: int)
    | ReplyFrame(own: Option<int>, request: int)
    | CancelFrame(id: int)

  datatype Protocol = Lsp | Dap

  datatype State = State(
    shared: Shared,
    calls: map<Request, Call>,
    reader: Reader,
    responses: seq<int>,  // the ids that the responses read so far name
    sent: seq<Frame>,
    stopping: nat,        // `stop`s between their store and their clear
    stopFinished: bool    // some `stop` has returned
  ) {
    function To(r: Request, phase: Phase): State
      requires r in calls
    {
      this.(calls := calls[r := calls[r].(phase := phase)])
    }
  }

  const INITIAL := State(Shared(1, map[], false), map[], Reading, [], [], 0, false)

  // -- The steps ------------------------------------------------------------------

  // A step of one call after its first.
  datatype CallStep =
    | Register
    | Check
    | Write(succeeds: bool)
    | Receive
    | Disconnect
    | Expire
    | Withdraw
    | Leave
    | CheckCancel
    | WriteCancel(succeeds: bool)

  datatype ReaderStep =
    | ReadResponse(id: int)
    | Deliver
    | ReadRequest(id: int)
    | CheckReply
    | WriteReply(succeeds: bool)
    | ReadEnd

  datatype Step =
    | Begin(r: Request)
    | Own(r: Request, move: CallStep)
    | Read(read: ReaderStep)
    | Stop
    | Clear

  predicate InPhase(s: State, r: Request, phase: Phase) {
    r in s.calls && s.calls[r].phase == phase
  }

  // Every sender of `r`'s channel is gone: neither the table nor the reader has it.
  predicate Disconnected(s: State, r: Request) {
    && (forall id :: id in s.shared.pending ==> s.shared.pending[id] != r)
    && !(s.reader.Delivering? && s.reader.waiting == r)
  }

  predicate CallEnabled(s: State, r: Request, move: CallStep) {
    match move
    case Register => InPhase(s, r, Registering)
    case Check => InPhase(s, r, Checking)
    case Write(_) => InPhase(s, r, Writing)
    case Receive => InPhase(s, r, Waiting) && s.calls[r].channel != []
    case Disconnect => InPhase(s, r, Waiting) && s.calls[r].channel == [] && Disconnected(s, r)
    case Expire => InPhase(s, r, Waiting) && s.calls[r].channel == []
    case Withdraw => r in s.calls && s.calls[r].phase.Withdrawing?
    case Leave => InPhase(s, r, Expiring)
    case CheckCancel => InPhase(s, r, Cancelling)
    case WriteCancel(_) => InPhase(s, r, WritingCancel)
  }

  predicate ReaderEnabled(s: State, read: ReaderStep) {
    match read
    case Deliver => s.reader.Delivering?
    case CheckReply => s.reader.Replying?
    case WriteReply(_) => s.reader.WritingReply?
    case _ => s.reader == Reading
  }

  predicate Enabled(s: State, step: Step) {
    match step
    case Begin(r) => r !in s.calls
    case Own(r, move) => CallEnabled(s, r, move)
    case Read(read) => ReaderEnabled(s, read)
    case Stop => true
    case Clear => s.stopping > 0
  }

  // A response reaches the channel unless its call has returned.
  function Delivered(s: State, response: nat, r: Request): State {
    if r in s.calls && !s.calls[r].phase.Done?
    then s.(reader := Reading, calls := s.calls[r := s.calls[r].(channel := s.calls[r].channel + [response])])
    else s.(reader := Reading)
  }

  function CallNext(p: Protocol, s: State, r: Request, move: CallStep): State
    requires CallEnabled(s, r, move)
  {
    var call := s.calls[r];
    match move
    case Register => s.To(r, Checking).(shared := s.shared.Inserted(call.id, r))
    case Check => s.To(r, if s.shared.stopped then Withdrawing(Stopped) else Writing)
    case Write(succeeds) =>
      if succeeds
      then s.To(r, Waiting).(sent := s.sent + [RequestFrame(call.id)])
      else s.To(r, Withdrawing(Failed))
    case Receive => s.To(r, Done(Answered(call.channel[0])))
    case Disconnect => s.To(r, Done(Refused(Stopped)))
    case Expire => s.To(r, Expiring)
    case Withdraw => s.To(r, Done(Refused(call.phase.error))).(shared := s.shared.Removed(call.id))
    case Leave =>
      s.To(r, if p.Lsp? then Cancelling else Done(TimedOut)).(shared := s.shared.Removed(call.id))
    case CheckCancel => s.To(r, if s.shared.stopped then Done(TimedOut) else WritingCancel)
    case WriteCancel(succeeds) =>
      s.To(r, Done(TimedOut)).(sent := if succeeds then s.sent + [CancelFrame(call.id)] else s.sent)
  }

  function ReaderNext(p: Protocol, s: State, read: ReaderStep): State
    requires ReaderEnabled(s, read)
  {
    match read
    case ReadResponse(id) =>
      s.(responses := s.responses + [id],
         shared := s.shared.Removed(id),
         reader := if id in s.shared.pending
                   then Delivering(|s.responses|, s.shared.pending[id])
                   else Reading)
    case Deliver => Delivered(s, s.reader.response, s.reader.waiting)
    case ReadRequest(id) =>
      if p.Dap?
      then s.(reader := Replying(Some(s.shared.nextId), id), shared := s.shared.Counted())
      else s.(reader := Replying(None, id))
    case CheckReply =>
      s.(reader := if s.shared.stopped then Reading else WritingReply(s.reader.number, s.reader.request))
    case WriteReply(succeeds) =>
      s.(reader := Reading,
         sent := if succeeds then s.sent + [ReplyFrame(s.reader.number, s.reader.request)] else s.sent)
    case ReadEnd => s.(reader := Ended, shared := s.shared.Flagged(), stopping := s.stopping + 1)
  }

  function Next(p: Protocol, s: State, step: Step): State
    requires Enabled(s, step)
  {
    match step
    case Begin(r) =>
      s.(shared := s.shared.Counted(), calls := s.calls[r := Call(s.shared.nextId, Registering, [])])
    case Own(r, move) => CallNext(p, s, r, move)
    case Read(read) => ReaderNext(p, s, read)
    case Stop => s.(shared := s.shared.Flagged(), stopping := s.stopping + 1)
    case Clear => s.(shared := s.shared.Cleared(), stopping := s.stopping - 1, stopFinished := true)
  }

  // Every interleaving: the states some run of steps goes through.
  ghost predicate IsRun(p: Protocol, states: seq<State>, steps: seq<Step>) {
    && |states| == |steps| + 1
    && states[0] == INITIAL
    && forall i :: 0 <= i < |steps| ==>
         Enabled(states[i], steps[i]) && states[i + 1] == Next(p, states[i], steps[i])
  }

  ghost predicate Reachable(p: Protocol, s: State) {
    exists states, steps :: IsRun(p, states, steps) && states[|steps|] == s
  }

  // The state after some events, passing over what can't come next.
  function After(p: Protocol, events: seq<Step>): State {
    if events == [] then INITIAL
    else
      var before, last := After(p, events[..|events| - 1]), events[|events| - 1];
      if Enabled(before, last) then Next(p, before, last) else before
  }

  // Such a state is reachable.
  lemma {:induction false} AfterIsReachable(p: Protocol, events: seq<Step>)
    ensures Reachable(p, After(p, events))
  {
    if events == [] {
      assert IsRun(p, [INITIAL], []);
    } else {
      AfterIsReachable(p, events[..|events| - 1]);
      var before, last := After(p, events[..|events| - 1]), events[|events| - 1];
      if Enabled(before, last) {
        ReachesNext(p, before, last);
      }
    }
  }

  lemma ReachesNext(p: Protocol, s: State, step: Step)
    requires Reachable(p, s) && Enabled(s, step)
    ensures Reachable(p, Next(p, s, step))
  {
    var states, steps :| IsRun(p, states, steps) && states[|steps|] == s;
    var longer, more := states + [Next(p, s, step)], steps + [step];
    assert IsRun(p, longer, more) && longer[|more|] == Next(p, s, step);
  }

  // -- The code of the threads ------------------------------------------------------

  // What the threads keep for themselves beside the connection they share. Each
  // method is what one thread does up to its next wait.
  class Threads {
    const connection: Connection
    var calls: map<Request, Call>
    var reader: Reader
    var responses: seq<int>
    var sent: seq<Frame>
    var stopping: nat
    var stopFinished: bool

    function Snapshot(): State
      reads this, connection
    {
      State(connection.Snapshot(), calls, reader, responses, sent, stopping, stopFinished)
    }

    constructor ()
      ensures fresh(connection) && Snapshot() == INITIAL
    {
      connection := new Connection();
      calls, reader, responses, sent, stopping, stopFinished := map[], Reading, [], [], 0, false;
    }

    method Begin(p: Protocol, r: Request)
      requires r !in calls
      modifies this, connection
      ensures Snapshot() == Next(p, old(Snapshot()), Step.Begin(r))
    {
      var id := connection.FetchAdd();
      calls := calls[r := Call(id, Registering, [])];
    }

    // `r` goes on to `phase`.
    method To(r: Request, phase: Phase)
      requires r in calls
      modifies this`calls
      ensures calls == old(calls)[r := old(calls)[r].(phase := phase)]
    {
      calls := calls[r := calls[r].(phase := phase)];
    }

    // A call up to its wait for the response.
    method TakeSending(p: Protocol, r: Request, move: CallStep)
      requires CallEnabled(Snapshot(), r, move)
      requires move.Register? || move.Check? || move.Write? || move.Withdraw?
      modifies this, connection
      ensures Snapshot() == CallNext(p, old(Snapshot()), r, move)
    {
      var call := calls[r];
      match move
      case Register =>
        connection.Insert(call.id, r);
        To(r, Checking);
      case Check => To(r, if connection.stopped then Withdrawing(Stopped) else Writing);
      case Write(succeeds) =>
        if succeeds {
          sent := sent + [RequestFrame(call.id)];
          To(r, Waiting);
        } else {
          To(r, Withdrawing(Failed));
        }
      case Withdraw =>
        var waiting := connection.Remove(call.id);
        To(r, Done(Refused(call.phase.error)));
    }

    // A call from that wait on.
    method TakeWaiting(p: Protocol, r: Request, move: CallStep)
      requires CallEnabled(Snapshot(), r, move)
      requires !(move.Register? || move.Check? || move.Write? || move.Withdraw?)
      modifies this, connection
      ensures Snapshot() == CallNext(p, old(Snapshot()), r, move)
    {
      var call := calls[r];
      match move
      case Receive => To(r, Done(Answered(call.channel[0])));
      case Disconnect => To(r, Done(Refused(Stopped)));
      case Expire => To(r, Expiring);
      case Leave =>
        var waiting := connection.Remove(call.id);
        To(r, if p.Lsp? then Cancelling else Done(TimedOut));
      case CheckCancel => To(r, if connection.stopped then Done(TimedOut) else WritingCancel);
      case WriteCancel(succeeds) =>
        if succeeds {
          sent := sent + [CancelFrame(call.id)];
        }
        To(r, Done(TimedOut));
    }

    // The reader: a response handed over, a request of the other side answered.
    method TakeReading(p: Protocol, read: ReaderStep)
      requires ReaderEnabled(Snapshot(), read)
      modifies this, connection
      ensures Snapshot() == ReaderNext(p, old(Snapshot()), read)
    {
      match read
      case ReadResponse(id) =>
        var waiting := connection.Remove(id);
        reader := if waiting.Some? then Delivering(|responses|, waiting.value) else Reading;
        responses := responses + [id];
      case Deliver => HandOver(reader.response, reader.waiting);
      case ReadRequest(id) =>
        if p.Dap? {
          var number := connection.FetchAdd();
          reader := Replying(Some(number), id);
        } else {
          reader := Replying(None, id);
        }
      case CheckReply =>
        reader := if connection.stopped then Reading else WritingReply(reader.number, reader.request);
      case WriteReply(succeeds) =>
        if succeeds {
          sent := sent + [ReplyFrame(reader.number, reader.request)];
        }
        reader := Reading;
      case ReadEnd =>
        reader := Ended;
        BeginStop();
    }

    method HandOver(response: nat, r: Request)
      modifies this
      ensures Snapshot() == Delivered(old(Snapshot()), response, r)
    {
      reader := Reading;
      if r in calls && !calls[r].phase.Done? {
        calls := calls[r := calls[r].(channel := calls[r].channel + [response])];
      }
    }

    // The two halves of a stop.
    method BeginStop()
      modifies this`stopping, connection
      ensures connection.Snapshot() == old(connection.Snapshot()).Flagged() && stopping == old(stopping) + 1
    {
      connection.StoreStopped();
      stopping := stopping + 1;
    }

    method FinishStop()
      requires stopping > 0
      modifies this, connection
      ensures Snapshot() ==
              old(Snapshot()).(shared := old(Snapshot()).shared.Cleared(),
                               stopping := old(stopping) - 1, stopFinished := true)
    {
      connection.ClearPending();
      stopping := stopping - 1;
      stopFinished := true;
    }

    method Take(p: Protocol, step: Step)
      requires Enabled(Snapshot(), step)
      modifies this, connection
      ensures Snapshot() == Next(p, old(Snapshot()), step)
    {
      match step
      case Begin(r) => Begin(p, r);
      case Own(r, move) =>
        if move.Register? || move.Check? || move.Write? || move.Withdraw? {
          TakeSending(p, r, move);
        } else {
          TakeWaiting(p, r, move);
        }
      case Read(read) => TakeReading(p, read);
      case Stop => BeginStop();
      case Clear => FinishStop();
    }
  }

  // Any interleaving of the code: what can't come next is passed over.
  method RunThreads(p: Protocol, events: seq<Step>) returns (threads: Threads)
    ensures fresh(threads) && threads.Snapshot() == After(p, events)
    ensures Reachable(p, threads.Snapshot())
  {
    threads := new Threads();
    for i := 0 to |events|
      invariant fresh(threads) && fresh(threads.connection)
      invariant threads.Snapshot() == After(p, events[..i])
    {
      assert events[..i + 1][..i] == events[..i];
      if Enabled(threads.Snapshot(), events[i]) {
        threads.Take(p, events[i]);
      }
    }
    assert events[..|events|] == events;
    AfterIsReachable(p, events);
  }

  // -- What every step keeps --------------------------------------------------------

  // Every number given out belongs to one call or one reply.
  ghost predicate IdsUnique(s: State) {
    && (forall r :: r in s.calls ==> s.calls[r].id < s.shared.nextId)
    && (forall r, q :: r in s.calls && q in s.calls && s.calls[r].id == s.calls[q].id ==> r == q)
  }

  // A call that may still be in the table.
  predicate MayBePending(phase: Phase) {
    phase.Checking? || phase.Writing? || phase.Waiting? || phase.Withdrawing? || phase.Expiring?
  }

  ghost predicate PendingNamesCalls(s: State) {
    forall id :: id in s.shared.pending ==>
      var r := s.shared.pending[id];
      && r in s.calls && s.calls[r].id == id && MayBePending(s.calls[r].phase)
      && s.calls[r].channel == [] && !(s.reader.Delivering? && s.reader.waiting == r)
  }

  // What was sent to a call's channel answers its own id, and is at most one.
  ghost predicate ChannelNamesCall(s: State, r: Request)
    requires r in s.calls
  {
    var call := s.calls[r];
    && |call.channel| <= 1
    && (call.phase == Registering ==> call.channel == [])
    && (forall k :: k in call.channel ==> k < |s.responses| && s.responses[k] == call.id)
    && (call.phase.Done? && call.phase.outcome.Answered? ==> call.channel == [call.phase.outcome.response])
  }

  ghost predicate ReaderNamesCall(s: State) {
    s.reader.Delivering? ==>
      var r := s.reader.waiting;
      && r in s.calls && s.calls[r].phase != Registering && s.calls[r].channel == []
      && s.reader.response < |s.responses|
      && s.responses[s.reader.response] == s.calls[r].id
  }

  ghost predicate ResponsesNameCalls(s: State) {
    && (forall r :: r in s.calls ==> ChannelNamesCall(s, r))
    && ReaderNamesCall(s)
  }

  function OwnNumber(frame: Frame): Option<int> {
    match frame
    case RequestFrame(number) => Some(number)
    case ReplyFrame(own, _) => own
    case CancelFrame(_) => None
  }

  // A call whose frame is on the wire.
  predicate IsOnTheWire(phase: Phase) {
    match phase
    case Waiting => true
    case Expiring => true
    case Cancelling => true
    case WritingCancel => true
    case Done(outcome) => !outcome.Refused?
    case _ => false
  }

  // A call told "stopped" may have written its frame or not.
  predicate HasWritten(phase: Phase) {
    IsOnTheWire(phase) || phase == Done(Refused(Stopped))
  }

  ghost predicate BelongsToNoCall(s: State, number: int) {
    number < s.shared.nextId && forall r :: r in s.calls ==> s.calls[r].id != number
  }

  predicate ReaderHolds(s: State, number: int) {
    (s.reader.Replying? || s.reader.WritingReply?) && s.reader.number == Some(number)
  }

  ghost predicate FrameAccounted(s: State, frame: Frame) {
    match frame
    case RequestFrame(number) =>
      exists r :: r in s.calls && s.calls[r].id == number && HasWritten(s.calls[r].phase)
    case ReplyFrame(Some(number), _) => BelongsToNoCall(s, number) && !ReaderHolds(s, number)
    case _ => true
  }

  // No two frames on the wire carry the same number of this side.
  ghost predicate SentNumbersUnique(s: State) {
    && (forall number :: ReaderHolds(s, number) ==> BelongsToNoCall(s, number))
    && (forall i :: 0 <= i < |s.sent| ==> FrameAccounted(s, s.sent[i]))
    && (forall i, j :: 0 <= i < j < |s.sent| && OwnNumber(s.sent[i]).Some? ==>
          OwnNumber(s.sent[i]) != OwnNumber(s.sent[j]))
  }

  // The frame of every call that is past writing it.
  ghost predicate RequestsAreSent(s: State) {
    forall r :: r in s.calls && IsOnTheWire(s.calls[r].phase) ==> RequestFrame(s.calls[r].id) in s.sent
  }

  // A cancellation names a call that timed out, and comes after its request.
  ghost predicate CancelsTimedOut(s: State, i: nat)
    requires i < |s.sent| && s.sent[i].CancelFrame?
  {
    && (exists r :: r in s.calls && s.calls[r].id == s.sent[i].id && s.calls[r].phase == Done(TimedOut))
    && RequestFrame(s.sent[i].id) in s.sent[..i]
  }

  ghost predicate CancelsAreOfCalls(s: State) {
    && (forall i: nat :: i < |s.sent| && s.sent[i].CancelFrame? ==> CancelsTimedOut(s, i))
    && (forall i, j :: 0 <= i < j < |s.sent| && s.sent[i].CancelFrame? ==> s.sent[i] != s.sent[j])
  }

  // Only a language server hears cancellations; only to a debug adapter do replies
  // carry a number.
  predicate IsOf(p: Protocol, frame: Frame) {
    match frame
    case RequestFrame(_) => true
    case ReplyFrame(own, _) => own.Some? <==> p.Dap?
    case CancelFrame(_) => p.Lsp?
  }

  ghost predicate FramesAreOf(p: Protocol, s: State) {
    && (forall i :: 0 <= i < |s.sent| ==> IsOf(p, s.sent[i]))
    && (s.reader.Replying? || s.reader.WritingReply? ==> (s.reader.number.Some? <==> p.Dap?))
    && (forall r :: r in s.calls && (s.calls[r].phase == Cancelling || s.calls[r].phase == WritingCancel) ==> p.Lsp?)
  }

  // No response came and none is on its way: the table forgot the call.
  ghost predicate Lost(s: State, r: Request)
    requires r in s.calls
  {
    && s.calls[r].channel == []
    && s.calls[r].id !in s.shared.pending
    && !(s.reader.Delivering? && s.reader.waiting == r)
  }

  predicate SaysStopped(phase: Phase) {
    phase == Withdrawing(Stopped) || phase == Done(Refused(Stopped))
  }

  ghost predicate NotForgotten(s: State, r: Request)
    requires r in s.calls
  {
    var phase := s.calls[r].phase;
    && (phase.Checking? || phase.Writing? || phase.Waiting? ==> !Lost(s, r))
    && !SaysStopped(phase)
  }

  // Only a `stop` makes the table forget a call, and only then is one told so.
  ghost predicate LostOnlyByStop(s: State) {
    && (s.stopFinished || s.stopping > 0 ==> s.shared.stopped)
    && (s.reader == Ended ==> s.stopFinished || s.stopping > 0)
    && (forall r :: r in s.calls && !s.shared.stopped ==> NotForgotten(s, r))
  }

  // After a `stop` has returned, what is in the table is about to leave it.
  ghost predicate OnlyLeaversAfterStop(s: State) {
    s.stopFinished ==>
      forall id :: id in s.shared.pending ==>
        var r := s.shared.pending[id];
        r in s.calls && (s.calls[r].phase == Checking || s.calls[r].phase.Withdrawing?)
  }

  ghost predicate Inv(p: Protocol, s: State) {
    && IdsUnique(s)
    && PendingNamesCalls(s)
    && ResponsesNameCalls(s)
    && SentNumbersUnique(s)
    && LostOnlyByStop(s)
    && OnlyLeaversAfterStop(s)
    && RequestsAreSent(s)
    && CancelsAreOfCalls(s)
    && FramesAreOf(p, s)
  }

  // How many of its own steps a call has left at most.
  function StepsLeft(phase: Phase): nat {
    match phase
    case Registering => 8
    case Checking => 7
    case Writing => 6
    case Waiting => 5
    case Expiring => 4
    case Cancelling => 3
    case WritingCancel => 2
    case Withdrawing(_) => 1
    case Done(_) => 0
  }

  // A step of one call's changes no other call, nor its own number.
  lemma CallMoves(p: Protocol, s: State, r: Request, move: CallStep)
    requires CallEnabled(s, r, move)
    ensures var next := CallNext(p, s, r, move);
            && r in s.calls && r in next.calls
            && next.calls == s.calls[r := s.calls[r].(phase := next.calls[r].phase)]
            && next.shared.nextId == s.shared.nextId && next.shared.stopped == s.shared.stopped
            && next.reader == s.reader && next.stopFinished == s.stopFinished
            && (HasWritten(s.calls[r].phase) ==> HasWritten(next.calls[r].phase))
            && StepsLeft(next.calls[r].phase) < StepsLeft(s.calls[r].phase)
  {
  }

  // The reader changes no call's number or phase, and takes only new numbers.
  lemma ReaderMoves(p: Protocol, s: State, read: ReaderStep)
    requires ReaderEnabled(s, read)
    ensures var next := ReaderNext(p, s, read);
            && next.calls.Keys == s.calls.Keys
            && (forall r :: r in s.calls ==>
                  next.calls[r] == s.calls[r].(channel := next.calls[r].channel))
            && s.shared.nextId <= next.shared.nextId && (s.shared.stopped ==> next.shared.stopped)
            && next.shared.pending.Keys <= s.shared.pending.Keys
            && next.stopFinished == s.stopFinished
            && (forall number :: ReaderHolds(next, number) ==>
                  ReaderHolds(s, number) || number == s.shared.nextId < next.shared.nextId)
  {
  }

  lemma CallKeepsIds(p: Protocol, s: State, r: Request, move: CallStep)
    requires IdsUnique(s) && CallEnabled(s, r, move)
    ensures IdsUnique(CallNext(p, s, r, move))
  {
  }

  lemma ReaderKeepsIds(p: Protocol, s: State, read: ReaderStep)
    requires IdsUnique(s) && ReaderEnabled(s, read)
    ensures IdsUnique(ReaderNext(p, s, read))
  {
  }

  lemma StepKeepsIds(p: Protocol, s: State, step: Step)
    requires IdsUnique(s) && Enabled(s, step)
    ensures IdsUnique(Next(p, s, step))
  {
    match step
    case Own(r, move) => CallKeepsIds(p, s, r, move);
    case Read(read) => ReaderKeepsIds(p, s, read);
    case _ =>
  }

  lemma CallKeepsPending(p: Protocol, s: State, r: Request, move: CallStep)
    requires IdsUnique(s) && PendingNamesCalls(s) && CallEnabled(s, r, move)
    requires ResponsesNameCalls(s)
    ensures PendingNamesCalls(CallNext(p, s, r, move))
  {
  }

  lemma ReaderKeepsPending(p: Protocol, s: State, read: ReaderStep)
    requires IdsUnique(s) && PendingNamesCalls(s) && ReaderEnabled(s, read)
    ensures PendingNamesCalls(ReaderNext(p, s, read))
  {
  }

  lemma StepKeepsPending(p: Protocol, s: State, step: Step)
    requires IdsUnique(s) && PendingNamesCalls(s) && ResponsesNameCalls(s) && Enabled(s, step)
    ensures PendingNamesCalls(Next(p, s, step))
  {
    match step
    case Own(r, move) => CallKeepsPending(p, s, r, move);
    case Read(read) => ReaderKeepsPending(p, s, read);
    case _ =>
  }

  lemma CallKeepsChannel(p: Protocol, s: State, q: Request, move: CallStep, r: Request)
    requires CallEnabled(s, q, move) && r in s.calls && ChannelNamesCall(s, r)
    ensures ChannelNamesCall(CallNext(p, s, q, move), r)
  {
  }

  lemma ReaderKeepsChannel(p: Protocol, s: State, read: ReaderStep, r: Request)
    requires ReaderEnabled(s, read) && r in s.calls && ChannelNamesCall(s, r)
    requires ReaderNamesCall(s)
    ensures ChannelNamesCall(ReaderNext(p, s, read), r)
  {
  }

  lemma StepKeepsChannel(p: Protocol, s: State, step: Step, r: Request)
    requires Enabled(s, step) && r in Next(p, s, step).calls
    requires r in s.calls ==> ChannelNamesCall(s, r)
    requires ReaderNamesCall(s)
    ensures ChannelNamesCall(Next(p, s, step), r)
  {
    match step
    case Own(q, move) => CallKeepsChannel(p, s, q, move, r);
    case Read(read) => ReaderKeepsChannel(p, s, read, r);
    case _ =>
  }

  lemma StepKeepsResponses(p: Protocol, s: State, step: Step)
    requires Inv(p, s) && Enabled(s, step)
    ensures ResponsesNameCalls(Next(p, s, step))
  {
    forall r | r in Next(p, s, step).calls
      ensures ChannelNamesCall(Next(p, s, step), r)
    {
      if r in s.calls {
        assert ChannelNamesCall(s, r);
      }
      StepKeepsChannel(p, s, step, r);
    }
    StepKeepsReader(p, s, step);
  }

  lemma CallKeepsReader(p: Protocol, s: State, r: Request, move: CallStep)
    requires ReaderNamesCall(s) && CallEnabled(s, r, move)
    ensures ReaderNamesCall(CallNext(p, s, r, move))
  {
  }

  lemma ReaderKeepsReader(p: Protocol, s: State, read: ReaderStep)
    requires PendingNamesCalls(s) && ReaderEnabled(s, read)
    ensures ReaderNamesCall(ReaderNext(p, s, read))
  {
  }

  lemma StepKeepsReader(p: Protocol, s: State, step: Step)
    requires ReaderNamesCall(s) && PendingNamesCalls(s) && Enabled(s, step)
    ensures ReaderNamesCall(Next(p, s, step))
  {
    match step
    case Own(r, move) => CallKeepsReader(p, s, r, move);
    case Read(read) => ReaderKeepsReader(p, s, read);
    case _ =>
  }

  // A call keeps its number and what it has written, and so do the others.
  lemma StepKeepsWriters(p: Protocol, s: State, step: Step, r: Request)
    requires r in s.calls && Enabled(s, step)
    ensures var next := Next(p, s, step);
            && r in next.calls && next.calls[r].id == s.calls[r].id
            && (HasWritten(s.calls[r].phase) ==> HasWritten(next.calls[r].phase))
  {
    match step
    case Own(q, move) => CallMoves(p, s, q, move);
    case Read(read) => ReaderMoves(p, s, read);
    case _ =>
  }

  // A number that is no call's and that the reader does not hold stays so.
  lemma StepKeepsForeign(p: Protocol, s: State, step: Step, number: int)
    requires BelongsToNoCall(s, number) && Enabled(s, step)
    ensures BelongsToNoCall(Next(p, s, step), number)
    ensures !ReaderHolds(s, number) ==> !ReaderHolds(Next(p, s, step), number)
  {
    match step
    case Own(q, move) => CallMoves(p, s, q, move);
    case Read(read) => ReaderMoves(p, s, read);
    case _ =>
  }

  lemma StepKeepsFrame(p: Protocol, s: State, step: Step, frame: Frame)
    requires Enabled(s, step) && FrameAccounted(s, frame)
    ensures FrameAccounted(Next(p, s, step), frame)
  {
    match frame
    case RequestFrame(number) =>
      var r :| r in s.calls && s.calls[r].id == number && HasWritten(s.calls[r].phase);
      StepKeepsWriters(p, s, step, r);
    case ReplyFrame(Some(number), _) => StepKeepsForeign(p, s, step, number);
    case _ =>
  }

  // The one frame a step may add carries a number no earlier frame carries.
  lemma StepAddsNewNumber(p: Protocol, s: State, step: Step)
    requires IdsUnique(s) && SentNumbersUnique(s) && Enabled(s, step)
    ensures var next := Next(p, s, step);
            || next.sent == s.sent
            || exists frame ::
                 && next.sent == s.sent + [frame]
                 && FrameAccounted(next, frame)
                 && forall i :: 0 <= i < |s.sent| && OwnNumber(s.sent[i]).Some? ==>
                      OwnNumber(s.sent[i]) != OwnNumber(frame)
  {
    var next := Next(p, s, step);
    if step.Own? && step.move.Write? && step.move.succeeds {
      var frame := RequestFrame(s.calls[step.r].id);
      assert next.calls[step.r].id == frame.number && HasWritten(next.calls[step.r].phase);
      forall i | 0 <= i < |s.sent| && OwnNumber(s.sent[i]).Some?
        ensures OwnNumber(s.sent[i]) != OwnNumber(frame)
      {
        assert FrameAccounted(s, s.sent[i]);
      }
      assert next.sent == s.sent + [frame];
    } else if step.Read? && step.read.WriteReply? && step.read.succeeds {
      var frame := ReplyFrame(s.reader.number, s.reader.request);
      if s.reader.number.Some? {
        assert ReaderHolds(s, s.reader.number.value);
      }
      forall i | 0 <= i < |s.sent| && OwnNumber(s.sent[i]).Some?
        ensures OwnNumber(s.sent[i]) != OwnNumber(frame)
      {
        assert FrameAccounted(s, s.sent[i]);
      }
      assert next.sent == s.sent + [frame];
    } else if step.Own? && step.move.WriteCancel? && step.move.succeeds {
      assert next.sent == s.sent + [CancelFrame(s.calls[step.r].id)];
    }
  }

  lemma StepHoldsForeign(p: Protocol, s: State, step: Step, number: int)
    requires IdsUnique(s) && SentNumbersUnique(s) && Enabled(s, step)
    requires ReaderHolds(Next(p, s, step), number)
    ensures BelongsToNoCall(Next(p, s, step), number)
  {
    if ReaderHolds(s, number) {
      StepKeepsForeign(p, s, step, number);
    } else if step.Own? {
      CallMoves(p, s, step.r, step.move);
    } else if step.Read? {
      ReaderMoves(p, s, step.read);
    }
  }

  lemma StepKeepsSent(p: Protocol, s: State, step: Step)
    requires IdsUnique(s) && SentNumbersUnique(s) && Enabled(s, step)
    ensures SentNumbersUnique(Next(p, s, step))
  {
    var next := Next(p, s, step);
    forall i | 0 <= i < |s.sent|
      ensures FrameAccounted(next, s.sent[i])
    {
      StepKeepsFrame(p, s, step, s.sent[i]);
    }
    StepAddsNewNumber(p, s, step);
    forall number | ReaderHolds(next, number)
      ensures BelongsToNoCall(next, number)
    {
      StepHoldsForeign(p, s, step, number);
    }
  }

  lemma StepKeepsLost(p: Protocol, s: State, step: Step)
    requires IdsUnique(s) && PendingNamesCalls(s) && LostOnlyByStop(s) && Enabled(s, step)
    ensures LostOnlyByStop(Next(p, s, step))
  {
    var next := Next(p, s, step);
    if !next.shared.stopped {
      forall r | r in next.calls
        ensures NotForgotten(next, r)
      {
        StepForgetsNone(p, s, step, r);
      }
    }
  }

  lemma CallForgetsNone(p: Protocol, s: State, q: Request, move: CallStep, r: Request)
    requires IdsUnique(s) && PendingNamesCalls(s) && CallEnabled(s, q, move)
    requires r in s.calls && NotForgotten(s, r) && !s.shared.stopped
    ensures NotForgotten(CallNext(p, s, q, move), r)
  {
  }

  lemma ReaderForgetsNone(p: Protocol, s: State, read: ReaderStep, r: Request)
    requires IdsUnique(s) && PendingNamesCalls(s) && ReaderEnabled(s, read)
    requires r in s.calls && NotForgotten(s, r) && !ReaderNext(p, s, read).shared.stopped
    ensures NotForgotten(ReaderNext(p, s, read), r)
  {
  }

  lemma StepForgetsNone(p: Protocol, s: State, step: Step, r: Request)
    requires IdsUnique(s) && PendingNamesCalls(s) && Enabled(s, step)
    requires s.stopping == 0 && (r in s.calls ==> NotForgotten(s, r)) && !s.shared.stopped
    requires r in Next(p, s, step).calls && !Next(p, s, step).shared.stopped
    ensures NotForgotten(Next(p, s, step), r)
  {
    match step
    case Own(q, move) => CallForgetsNone(p, s, q, move, r);
    case Read(read) => ReaderForgetsNone(p, s, read, r);
    case _ =>
  }

  lemma CallKeepsLeavers(p: Protocol, s: State, r: Request, move: CallStep)
    requires LostOnlyByStop(s) && OnlyLeaversAfterStop(s) && CallEnabled(s, r, move)
    requires PendingNamesCalls(s)
    ensures OnlyLeaversAfterStop(CallNext(p, s, r, move))
  {
  }

  lemma ReaderKeepsLeavers(p: Protocol, s: State, read: ReaderStep)
    requires OnlyLeaversAfterStop(s) && ReaderEnabled(s, read)
    ensures OnlyLeaversAfterStop(ReaderNext(p, s, read))
  {
  }

  lemma StepKeepsLeavers(p: Protocol, s: State, step: Step)
    requires LostOnlyByStop(s) && OnlyLeaversAfterStop(s) && Enabled(s, step)
    requires PendingNamesCalls(s)
    ensures OnlyLeaversAfterStop(Next(p, s, step))
  {
    match step
    case Own(r, move) => CallKeepsLeavers(p, s, r, move);
    case Read(read) => ReaderKeepsLeavers(p, s, read);
    case _ =>
  }

  // A step adds at most one frame at the end, and ends no wait of another call.
  lemma StepKeepsSentCalls(p: Protocol, s: State, step: Step)
    requires RequestsAreSent(s) && Enabled(s, step)
    ensures s.sent <= Next(p, s, step).sent
    ensures RequestsAreSent(Next(p, s, step))
  {
    var next := Next(p, s, step);
    match step
    case Own(q, move) =>
      CallMoves(p, s, q, move);
      if move.Write? && move.succeeds {
        assert next.sent[|s.sent|] == RequestFrame(s.calls[q].id);
      }
    case Read(read) => ReaderMoves(p, s, read);
    case _ =>
  }

  lemma StepKeepsTimedOut(p: Protocol, s: State, step: Step, r: Request)
    requires r in s.calls && s.calls[r].phase.Done? && Enabled(s, step)
    ensures var next := Next(p, s, step);
            r in next.calls && next.calls[r].id == s.calls[r].id && next.calls[r].phase == s.calls[r].phase
  {
    match step
    case Own(q, move) => CallMoves(p, s, q, move);
    case Read(read) => ReaderMoves(p, s, read);
    case _ =>
  }

  lemma StepKeepsCancel(p: Protocol, s: State, step: Step, i: nat)
    requires Inv(p, s) && Enabled(s, step)
    requires i < |s.sent| && s.sent[i].CancelFrame?
    ensures var next := Next(p, s, step);
            s.sent <= next.sent && next.sent[i] == s.sent[i] && CancelsTimedOut(next, i)
  {
    StepKeepsSentCalls(p, s, step);
    assert CancelsTimedOut(s, i);
    var r :| r in s.calls && s.calls[r].id == s.sent[i].id && s.calls[r].phase == Done(TimedOut);
    StepKeepsTimedOut(p, s, step, r);
    assert Next(p, s, step).sent[..i] == s.sent[..i];
  }

  lemma StepKeepsCancels(p: Protocol, s: State, step: Step)
    requires Inv(p, s) && Enabled(s, step)
    ensures CancelsAreOfCalls(Next(p, s, step))
  {
    var next := Next(p, s, step);
    StepKeepsSentCalls(p, s, step);
    forall i: nat | i < |next.sent| && next.sent[i].CancelFrame?
      ensures CancelsTimedOut(next, i)
    {
      if i < |s.sent| {
        StepKeepsCancel(p, s, step, i);
      } else {
        AddedCancel(p, s, step, i);
      }
    }
    StepAddsOneCancel(p, s, step);
  }

  lemma AddedCancel(p: Protocol, s: State, step: Step, i: nat)
    requires Inv(p, s) && Enabled(s, step)
    requires |s.sent| <= i < |Next(p, s, step).sent| && Next(p, s, step).sent[i].CancelFrame?
    ensures step.Own? && step.move == WriteCancel(true) && CancelsTimedOut(Next(p, s, step), i)
  {
    if step.Own? && step.move == WriteCancel(true) {
      NewCancel(p, s, step.r);
    } else {
      AddsNoCancel(p, s, step);
    }
  }

  lemma StepAddsOneCancel(p: Protocol, s: State, step: Step)
    requires Inv(p, s) && Enabled(s, step)
    ensures var sent := Next(p, s, step).sent;
            forall i, j :: 0 <= i < j < |sent| && sent[i].CancelFrame? ==> sent[i] != sent[j]
  {
    StepKeepsSentCalls(p, s, step);
    if step.Own? && step.move == WriteCancel(true) {
      NewCancel(p, s, step.r);
      OneMoreCancel(s.sent, Next(p, s, step).sent);
    } else {
      AddsNoCancel(p, s, step);
    }
  }

  lemma OneMoreCancel(sent: seq<Frame>, next: seq<Frame>)
    requires |next| == |sent| + 1 && next[..|sent|] == sent && next[|sent|].CancelFrame?
    requires forall i, j :: 0 <= i < j < |sent| && sent[i].CancelFrame? ==> sent[i] != sent[j]
    requires forall i :: 0 <= i < |sent| && sent[i].CancelFrame? ==> sent[i] != next[|sent|]
    ensures forall i, j :: 0 <= i < j < |next| && next[i].CancelFrame? ==> next[i] != next[j]
  {
    assert forall i :: 0 <= i < |sent| ==> next[i] == sent[i];
  }

  lemma NewCancel(p: Protocol, s: State, r: Request)
    requires Inv(p, s) && CallEnabled(s, r, WriteCancel(true))
    ensures var next, frame := CallNext(p, s, r, WriteCancel(true)), CancelFrame(s.calls[r].id);
            && next.sent == s.sent + [frame] && CancelsTimedOut(next, |s.sent|)
            && forall i :: 0 <= i < |s.sent| && s.sent[i].CancelFrame? ==> s.sent[i] != frame
  {
    var next, frame := CallNext(p, s, r, WriteCancel(true)), CancelFrame(s.calls[r].id);
    assert next.sent[..|s.sent|] == s.sent;
    assert next.calls[r].id == s.calls[r].id && next.calls[r].phase == Done(TimedOut);
    forall i: nat | i < |s.sent| && s.sent[i].CancelFrame?
      ensures s.sent[i] != frame
    {
      assert CancelsTimedOut(s, i);
    }
  }

  lemma AddsNoCancel(p: Protocol, s: State, step: Step)
    requires Enabled(s, step) && !(step.Own? && step.move == WriteCancel(true))
    ensures var next := Next(p, s, step);
            && |next.sent| <= |s.sent| + 1
            && (|next.sent| > |s.sent| ==> !next.sent[|s.sent|].CancelFrame?)
  {
  }

  lemma StepKeepsKinds(p: Protocol, s: State, step: Step)
    requires FramesAreOf(p, s) && Enabled(s, step)
    ensures FramesAreOf(p, Next(p, s, step))
  {
    match step
    case Own(q, move) => CallMoves(p, s, q, move);
    case Read(read) => ReaderMoves(p, s, read);
    case _ =>
  }

  lemma StepKeepsInv(p: Protocol, s: State, step: Step)
    requires Inv(p, s) && Enabled(s, step)
    ensures Inv(p, Next(p, s, step))
  {
    StepKeepsIds(p, s, step);
    StepKeepsPending(p, s, step);
    StepKeepsResponses(p, s, step);
    StepKeepsSent(p, s, step);
    StepKeepsLost(p, s, step);
    StepKeepsLeavers(p, s, step);
    StepKeepsSentCalls(p, s, step);
    StepKeepsCancels(p, s, step);
    StepKeepsKinds(p, s, step);
  }

  lemma {:induction false} RunKeepsInv(p: Protocol, states: seq<State>, steps: seq<Step>, i: nat)
    requires IsRun(p, states, steps) && i <= |steps|
    ensures Inv(p, states[i])
  {
    if i > 0 {
      RunKeepsInv(p, states, steps, i - 1);
      StepKeepsInv(p, states[i - 1], steps[i - 1]);
    }
  }

  lemma ReachableInv(p: Protocol, s: State)
    requires Reachable(p, s)
    ensures Inv(p, s)
  {
    var states, steps :| IsRun(p, states, steps) && states[|steps|] == s;
    RunKeepsInv(p, states, steps, |steps|);
  }

  // -- What the protocol promises, in every reachable state ---------------------------

  // Ids are unique, among the calls and among the frames written.
  lemma IdsAreUnique(p: Protocol, s: State)
    requires Reachable(p, s)
    ensures forall r, q :: r in s.calls && q in s.calls && r != q ==> s.calls[r].id != s.calls[q].id
    ensures forall i, j :: 0 <= i < j < |s.sent| && OwnNumber(s.sent[i]).Some? ==>
              OwnNumber(s.sent[i]) != OwnNumber(s.sent[j])
  {
    ReachableInv(p, s);
  }

  predicate AnsweredBy(s: State, r: Request, response: nat) {
    r in s.calls && s.calls[r].phase == Done(Answered(response))
  }

  // A call that succeeds got a response naming its own id, and no two calls got
  // the same response.
  lemma AnswersMatch(p: Protocol, s: State, r: Request, q: Request, k: nat)
    requires Reachable(p, s) && AnsweredBy(s, r, k)
    ensures k < |s.responses| && s.responses[k] == s.calls[r].id
    ensures AnsweredBy(s, q, k) ==> q == r
  {
    ReachableInv(p, s);
    assert ChannelNamesCall(s, r);
    assert k in s.calls[r].channel;
    if AnsweredBy(s, q, k) {
      assert ChannelNamesCall(s, q);
      assert k in s.calls[q].channel;
    }
  }

  // "Stopped" is only ever said of a connection that stopped.
  lemma StoppedIsTrue(p: Protocol, s: State, r: Request)
    requires Reachable(p, s) && r in s.calls && s.calls[r].phase == Done(Refused(Stopped))
    ensures s.shared.stopped
  {
    ReachableInv(p, s);
  }

  // Once a `stop` has returned, the table holds only calls that have yet to
  // load `stopped`, or that did and are leaving.
  lemma AfterStopOnlyLeavers(p: Protocol, s: State, id: int)
    requires Reachable(p, s) && s.stopFinished && id in s.shared.pending
    ensures var r := s.shared.pending[id];
            && r in s.calls && s.calls[r].id == id
            && (s.calls[r].phase == Checking || s.calls[r].phase.Withdrawing?)
    ensures var r := s.shared.pending[id];
            s.calls[r].phase == Checking ==>
              Next(p, s, Own(r, Check)).calls[r].phase == Withdrawing(Stopped)
  {
    ReachableInv(p, s);
  }

  // The table leaks nothing: when every call has returned, it is empty.
  lemma PendingEndsEmpty(p: Protocol, s: State)
    requires Reachable(p, s)
    requires forall r :: r in s.calls ==> s.calls[r].phase.Done?
    ensures s.shared.pending == map[]
  {
    ReachableInv(p, s);
    forall id
      ensures id !in s.shared.pending
    {
      if id in s.shared.pending {
        assert false;
      }
    }
  }

  // -- No call waits on a dead connection ----------------------------------------------

  // The step that `r` itself takes next, other than giving up waiting.
  function OwnStep(s: State, r: Request): CallStep
    requires r in s.calls && !s.calls[r].phase.Done?
  {
    match s.calls[r].phase
    case Registering => Register
    case Checking => Check
    case Writing => Write(true)
    case Waiting => if s.calls[r].channel != [] then Receive else Disconnect
    case Withdrawing(_) => Withdraw
    case Expiring => Leave
    case Cancelling => CheckCancel
    case WritingCancel => WriteCancel(true)
  }

  // A call takes finitely many steps of its own, and no other thread adds any.
  lemma CallsAdvance(p: Protocol, s: State, step: Step, r: Request)
    requires Enabled(s, step) && r in s.calls
    ensures var next := Next(p, s, step);
            && r in next.calls
            && (step.Own? && step.r == r ==> StepsLeft(next.calls[r].phase) < StepsLeft(s.calls[r].phase))
            && (!(step.Own? && step.r == r) ==> next.calls[r].phase == s.calls[r].phase)
  {
    match step
    case Own(q, move) => CallMoves(p, s, q, move);
    case Read(read) => ReaderMoves(p, s, read);
    case _ =>
  }

  // After a `stop` has returned, every call that has not returned can go on
  // without its timeout: at once, or once the reader has handed over the
  // response it is holding for it.
  lemma NoneWaitsOnTheDead(p: Protocol, s: State, r: Request)
    requires Reachable(p, s) && s.stopFinished && r in s.calls && !s.calls[r].phase.Done?
    ensures || CallEnabled(s, r, OwnStep(s, r))
            || (&& ReaderEnabled(s, Deliver)
                && s.reader.waiting == r
                && var next := ReaderNext(p, s, Deliver);
                   CallEnabled(next, r, OwnStep(next, r)))
  {
    ReachableInv(p, s);
  }

  // -- Calls begun after the stream ended ------------------------------------------------

  predicate NeverWrites(s: State, r: Request) {
    r in s.calls ==>
      && s.calls[r].phase in {Registering, Checking, Withdrawing(Stopped), Done(Refused(Stopped))}
      && RequestFrame(s.calls[r].id) !in s.sent
  }

  lemma StepKeepsNeverWrites(p: Protocol, s: State, step: Step, r: Request)
    requires IdsUnique(s) && SentNumbersUnique(s) && Enabled(s, step)
    requires s.shared.stopped && NeverWrites(s, r)
    ensures NeverWrites(Next(p, s, step), r) && Next(p, s, step).shared.stopped
  {
    match step
    case Begin(q) =>
      forall i | q == r && 0 <= i < |s.sent|
        ensures s.sent[i] != RequestFrame(s.shared.nextId)
      {
        assert FrameAccounted(s, s.sent[i]);
      }
    case Own(q, move) => CallNeverWrites(p, s, q, move, r);
    case Read(read) => ReaderMoves(p, s, read);
    case _ =>
  }

  lemma CallNeverWrites(p: Protocol, s: State, q: Request, move: CallStep, r: Request)
    requires IdsUnique(s) && CallEnabled(s, q, move)
    requires s.shared.stopped && NeverWrites(s, r)
    ensures NeverWrites(CallNext(p, s, q, move), r) && CallNext(p, s, q, move).shared.stopped
  {
  }

  // A call begun once the flag is set fails as stopped, and nothing of it is
  // ever written.
  lemma {:induction false} CallsAfterStopAreRefused(
    p: Protocol, states: seq<State>, steps: seq<Step>, i: nat, j: nat, r: Request)
    requires IsRun(p, states, steps) && i <= j <= |steps|
    requires states[i].shared.stopped && r !in states[i].calls
    ensures NeverWrites(states[j], r) && states[j].shared.stopped
  {
    if i < j {
      CallsAfterStopAreRefused(p, states, steps, i, j - 1, r);
      RunKeepsInv(p, states, steps, j - 1);
      StepKeepsNeverWrites(p, states[j - 1], steps[j - 1], r);
    }
  }

  // -- What is on the wire ---------------------------------------------------------------

  // A call's frame was written exactly when the call got so far; one told "stopped"
  // may have written it or not.
  lemma RequestIsSentIff(p: Protocol, s: State, r: Request)
    requires Reachable(p, s) && r in s.calls && s.calls[r].phase != Done(Refused(Stopped))
    ensures RequestFrame(s.calls[r].id) in s.sent <==> IsOnTheWire(s.calls[r].phase)
  {
    ReachableInv(p, s);
    if RequestFrame(s.calls[r].id) in s.sent {
      var i :| 0 <= i < |s.sent| && s.sent[i] == RequestFrame(s.calls[r].id);
      assert FrameAccounted(s, s.sent[i]);
    }
  }

  // A cancellation is of a language server's request that timed out, written before
  // it, and there is at most one of each.
  lemma CancellationIsOfTimedOut(p: Protocol, s: State, i: nat)
    requires Reachable(p, s) && i < |s.sent| && s.sent[i].CancelFrame?
    ensures p.Lsp?
    ensures exists r :: r in s.calls && s.calls[r].id == s.sent[i].id && s.calls[r].phase == Done(TimedOut)
    ensures RequestFrame(s.sent[i].id) in s.sent[..i]
    ensures forall j :: 0 <= j < |s.sent| && j != i ==> s.sent[j] != s.sent[i]
  {
    ReachableInv(p, s);
    assert CancelsTimedOut(s, i);
    assert IsOf(p, s.sent[i]);
  }

  // The end of the stream is a stop, whose table is empty or about to be.
  lemma TheEndStops(p: Protocol, s: State)
    requires Reachable(p, s) && s.reader == Ended
    ensures s.shared.stopped && (s.stopFinished || Enabled(s, Clear))
  {
    ReachableInv(p, s);
  }

  // How often a step, or its like, was taken before `j`.
  function Stops(steps: seq<Step>, j: nat): nat
    requires j <= |steps|
  {
    if j == 0 then 0
    else Stops(steps, j - 1) + if steps[j - 1] == Stop || steps[j - 1] == Read(ReadEnd) then 1 else 0
  }

  function Clears(steps: seq<Step>, j: nat): nat
    requires j <= |steps|
  {
    if j == 0 then 0 else Clears(steps, j - 1) + if steps[j - 1] == Clear then 1 else 0
  }

  lemma StepStops(p: Protocol, s: State, step: Step)
    requires Enabled(s, step)
    ensures var next, begins := Next(p, s, step), step == Stop || step == Read(ReadEnd);
            && next.stopping + (if step == Clear then 1 else 0) == s.stopping + (if begins then 1 else 0)
            && (next.stopFinished <==> s.stopFinished || step == Clear)
            && (next.shared.stopped <==> s.shared.stopped || begins)
  {
    if step.Own? {
      CallMoves(p, s, step.r, step.move);
    }
  }

  // Every stop, of the reader or another thread, clears the table once after it set
  // the flag, and has returned then.
  lemma {:induction false} StopsAreCleared(p: Protocol, states: seq<State>, steps: seq<Step>, j: nat)
    requires IsRun(p, states, steps) && j <= |steps|
    ensures states[j].stopping + Clears(steps, j) == Stops(steps, j)
    ensures states[j].stopFinished <==> Clears(steps, j) > 0
    ensures states[j].shared.stopped <==> Stops(steps, j) > 0
  {
    if j > 0 {
      StopsAreCleared(p, states, steps, j - 1);
      StepStops(p, states[j - 1], steps[j - 1]);
    }
  }

  // Nothing is read after it.
  lemma {:induction false} NothingReadAfterTheEnd(
    p: Protocol, states: seq<State>, steps: seq<Step>, i: nat, j: nat)
    requires IsRun(p, states, steps) && i < j <= |steps| && steps[i] == Read(ReadEnd)
    ensures states[j].reader == Ended
    ensures j < |steps| ==> !steps[j].Read?
    decreases j
  {
    if i + 1 < j {
      NothingReadAfterTheEnd(p, states, steps, i, j - 1);
      if steps[j - 1].Own? {
        CallMoves(p, states[j - 1], steps[j - 1].r, steps[j - 1].move);
      }
    }
  }

  lemma TakesOne(steps: seq<Step>, j: nat, step: Step)
    requires 0 < j <= |steps|
    ensures step in steps[..j] <==> step in steps[..j - 1] || step == steps[j - 1]
  {
    assert steps[..j] == steps[..j - 1] + [steps[j - 1]];
  }

  predicate HasExpired(phase: Phase) {
    phase == Expiring || phase == Cancelling || phase == WritingCancel || phase == Done(TimedOut)
  }

  predicate HasFailed(phase: Phase) {
    phase == Withdrawing(Failed) || phase == Done(Refused(Failed))
  }

  predicate HasAnswer(phase: Phase) {
    phase.Done? && phase.outcome.Answered?
  }

  lemma OwnStepTells(p: Protocol, s: State, r: Request, move: CallStep)
    requires CallEnabled(s, r, move)
    ensures var phase := CallNext(p, s, r, move).calls[r].phase;
            && (HasExpired(phase) <==> HasExpired(s.calls[r].phase) || move == Expire)
            && (HasFailed(phase) <==> HasFailed(s.calls[r].phase) || move == Write(false))
            && (HasAnswer(phase) <==> HasAnswer(s.calls[r].phase) || move == Receive)
  {
  }

  lemma StepTells(p: Protocol, s: State, step: Step, r: Request)
    requires Enabled(s, step)
    ensures r !in Next(p, s, step).calls ==> r !in s.calls && !(step.Own? && step.r == r)
    ensures r in Next(p, s, step).calls && r !in s.calls ==>
              Next(p, s, step).calls[r].phase == Registering && !(step.Own? && step.r == r)
    ensures r in s.calls ==> r in Next(p, s, step).calls
    ensures r in s.calls && !(step.Own? && step.r == r) ==> Next(p, s, step).calls[r].phase == s.calls[r].phase
  {
    match step
    case Own(q, move) => CallMoves(p, s, q, move);
    case Read(read) => ReaderMoves(p, s, read);
    case _ =>
  }

  // The steps `r` took so far.
  ghost predicate Took(steps: seq<Step>, j: nat, r: Request, move: CallStep)
    requires j <= |steps|
  {
    Own(r, move) in steps[..j]
  }

  lemma TookGrows(steps: seq<Step>, j: nat, r: Request, move: CallStep)
    requires 0 < j <= |steps|
    ensures Took(steps, j, r, move) <==> Took(steps, j - 1, r, move) || steps[j - 1] == Own(r, move)
  {
    TakesOne(steps, j, Own(r, move));
  }

  lemma {:induction false} TookNothing(
    p: Protocol, states: seq<State>, steps: seq<Step>, j: nat, r: Request, move: CallStep)
    requires IsRun(p, states, steps) && j <= |steps| && r !in states[j].calls
    ensures !Took(steps, j, r, move)
  {
    if j > 0 {
      StepTells(p, states[j - 1], steps[j - 1], r);
      TookNothing(p, states, steps, j - 1, r, move);
      TookGrows(steps, j, r, move);
    }
  }

  lemma {:induction false} PhaseTells(p: Protocol, states: seq<State>, steps: seq<Step>, j: nat, r: Request)
    requires IsRun(p, states, steps) && j <= |steps| && r in states[j].calls
    ensures var phase := states[j].calls[r].phase;
            && (Took(steps, j, r, Expire) <==> HasExpired(phase))
            && (Took(steps, j, r, Write(false)) <==> HasFailed(phase))
            && (Took(steps, j, r, Receive) <==> HasAnswer(phase))
  {
    assert j > 0;
    var before, step := states[j - 1], steps[j - 1];
    StepTells(p, before, step, r);
    TookGrows(steps, j, r, Expire);
    TookGrows(steps, j, r, Write(false));
    TookGrows(steps, j, r, Receive);
    if r !in before.calls {
      TookNothing(p, states, steps, j - 1, r, Expire);
      TookNothing(p, states, steps, j - 1, r, Write(false));
      TookNothing(p, states, steps, j - 1, r, Receive);
    } else {
      PhaseTells(p, states, steps, j - 1, r);
      if step.Own? && step.r == r {
        OwnStepTells(p, before, r, step.move);
      }
    }
  }

  // What a call returned tells what happened to it: it timed out when its wait did,
  // failed when its frame could not be written, was answered when it took a
  // response, and else was told that the connection stopped.
  lemma OutcomeTells(p: Protocol, states: seq<State>, steps: seq<Step>, j: nat, r: Request)
    requires IsRun(p, states, steps) && j <= |steps|
    requires r in states[j].calls && states[j].calls[r].phase.Done?
    ensures var outcome := states[j].calls[r].phase.outcome;
            && (outcome == TimedOut <==> Took(steps, j, r, Expire))
            && (outcome == Refused(Failed) <==> Took(steps, j, r, Write(false)))
            && (outcome.Answered? <==> Took(steps, j, r, Receive))
            && (outcome == Refused(Stopped) <==>
                  !Took(steps, j, r, Expire) && !Took(steps, j, r, Write(false)) && !Took(steps, j, r, Receive))
  {
    PhaseTells(p, states, steps, j, r);
    var phase := states[j].calls[r].phase;
    assert phase == Done(phase.outcome);
    if phase.outcome.Refused? {
      match phase.outcome.error
      case Stopped =>
      case Failed =>
    }
  }

  // -- Which calls are cancelled --------------------------------------------------------------

  // The look at the flag before a cancellation found the connection stopped.
  ghost predicate FoundStopped(states: seq<State>, steps: seq<Step>, j: nat, r: Request)
    requires |states| > |steps| >= j
  {
    exists k :: 0 <= k < j && steps[k] == Own(r, CheckCancel) && states[k].shared.stopped
  }

  lemma {:induction false} CancelTells(p: Protocol, states: seq<State>, steps: seq<Step>, j: nat, r: Request)
    requires IsRun(p, states, steps) && j <= |steps| && p.Lsp?
    ensures var written, refused, found :=
              Took(steps, j, r, WriteCancel(true)), Took(steps, j, r, WriteCancel(false)),
              FoundStopped(states, steps, j, r);
            if r in states[j].calls && states[j].calls[r].phase == Done(TimedOut)
            then written <==> !refused && !found
            else !written && !refused && !found
  {
    if j > 0 {
      CancelTells(p, states, steps, j - 1, r);
      TookGrows(steps, j, r, WriteCancel(true));
      TookGrows(steps, j, r, WriteCancel(false));
      FoundStoppedGrows(states, steps, j, r);
      StepTells(p, states[j - 1], steps[j - 1], r);
    }
  }

  lemma FoundStoppedGrows(states: seq<State>, steps: seq<Step>, j: nat, r: Request)
    requires |states| > |steps| >= j > 0
    ensures FoundStopped(states, steps, j, r) <==>
            FoundStopped(states, steps, j - 1, r)
            || (steps[j - 1] == Own(r, CheckCancel) && states[j - 1].shared.stopped)
  {
    if FoundStopped(states, steps, j - 1, r) {
      var k :| 0 <= k < j - 1 && steps[k] == Own(r, CheckCancel) && states[k].shared.stopped;
      assert FoundStopped(states, steps, j, r);
    }
  }

  // A call's cancellation is on the wire when that call wrote it.
  lemma {:induction false} CancelIsOwn(p: Protocol, states: seq<State>, steps: seq<Step>, j: nat, r: Request)
    requires IsRun(p, states, steps) && j <= |steps| && r in states[j].calls
    ensures CancelFrame(states[j].calls[r].id) in states[j].sent <==> Took(steps, j, r, WriteCancel(true))
  {
    assert j > 0;
    var before, step := states[j - 1], steps[j - 1];
    RunKeepsInv(p, states, steps, j - 1);
    TookGrows(steps, j, r, WriteCancel(true));
    StepTells(p, before, step, r);
    if r in before.calls {
      CancelIsOwn(p, states, steps, j - 1, r);
      StepCancels(p, before, step, r);
    } else {
      TookNothing(p, states, steps, j - 1, r, WriteCancel(true));
      NewHasNoCancel(p, before, step, r);
    }
  }

  lemma StepCancels(p: Protocol, s: State, step: Step, r: Request)
    requires Inv(p, s) && Enabled(s, step) && r in s.calls
    ensures var next := Next(p, s, step);
            && r in next.calls && next.calls[r].id == s.calls[r].id
            && (CancelFrame(s.calls[r].id) in next.sent <==>
                  CancelFrame(s.calls[r].id) in s.sent || step == Own(r, WriteCancel(true)))
  {
    var next := Next(p, s, step);
    StepKeepsWriters(p, s, step, r);
    StepKeepsSentCalls(p, s, step);
    if step.Own? && step.move == WriteCancel(true) {
      NewCancel(p, s, step.r);
      assert next.sent[|s.sent|] == CancelFrame(s.calls[step.r].id);
    } else {
      AddsNoCancel(p, s, step);
    }
  }

  lemma NewHasNoCancel(p: Protocol, s: State, step: Step, r: Request)
    requires Inv(p, s) && Enabled(s, step) && r !in s.calls && r in Next(p, s, step).calls
    ensures CancelFrame(Next(p, s, step).calls[r].id) !in Next(p, s, step).sent
  {
    StepTells(p, s, step, r);
    var next := Next(p, s, step);
    match step
    case Begin(q) =>
      forall i: nat | i < |s.sent| && s.sent[i].CancelFrame?
        ensures s.sent[i].id < s.shared.nextId
      {
        assert CancelsTimedOut(s, i);
      }
    case Own(q, move) => CallMoves(p, s, q, move);
    case Read(read) => ReaderMoves(p, s, read);
    case _ =>
  }

  // A language server is told to drop a request that timed out if and only if the
  // connection was not found stopped then and the frame could be written.
  lemma CancelledIff(p: Protocol, states: seq<State>, steps: seq<Step>, j: nat, r: Request)
    requires IsRun(p, states, steps) && j <= |steps| && p.Lsp?
    requires r in states[j].calls && states[j].calls[r].phase == Done(TimedOut)
    ensures CancelFrame(states[j].calls[r].id) in states[j].sent <==>
            !FoundStopped(states, steps, j, r) && !Took(steps, j, r, WriteCancel(false))
  {
    CancelTells(p, states, steps, j, r);
    CancelIsOwn(p, states, steps, j, r);
  }

  // -- Requests of the other side ----------------------------------------------------------------

  // Which requests of the other side were answered, in turn.
  function Replies(sent: seq<Frame>): seq<int> {
    if sent == [] then []
    else
      var front, last := sent[..|sent| - 1], sent[|sent| - 1];
      Replies(front) + if last.ReplyFrame? then [last.request] else []
  }

  predicate IsReplying(reader: Reader) {
    reader.Replying? || reader.WritingReply?
  }

  // The look at the flag before a reply finds the connection stopped, or the reply
  // can't be written.
  predicate ReplyFails(s: State, step: Step) {
    step == Read(WriteReply(false)) || (step == Read(CheckReply) && s.shared.stopped)
  }

  ghost predicate ReplyFailed(states: seq<State>, steps: seq<Step>, i: nat, j: nat)
    requires |states| > |steps| >= j
  {
    exists k :: i < k < j && ReplyFails(states[k], steps[k])
  }

  lemma ReplyFailedGrows(states: seq<State>, steps: seq<Step>, i: nat, j: nat)
    requires |states| > |steps| >= j > i + 1
    ensures ReplyFailed(states, steps, i, j) <==>
            ReplyFailed(states, steps, i, j - 1) || ReplyFails(states[j - 1], steps[j - 1])
  {
    if ReplyFailed(states, steps, i, j - 1) {
      var k :| i < k < j - 1 && ReplyFails(states[k], steps[k]);
      assert ReplyFailed(states, steps, i, j);
    }
  }

  lemma StepReplies(p: Protocol, s: State, step: Step)
    requires Enabled(s, step)
    ensures Replies(Next(p, s, step).sent) ==
            if step == Read(WriteReply(true)) then Replies(s.sent) + [s.reader.request] else Replies(s.sent)
  {
    var next := Next(p, s, step);
    if |next.sent| > |s.sent| {
      assert next.sent[..|s.sent|] == s.sent;
      assert Replies(s.sent) + [] == Replies(s.sent);
    }
  }

  // The reader still has `request` to answer, or did answer it unless that failed;
  // `before` were answered before.
  predicate IsAnswering(s: State, before: seq<int>, request: int, failed: bool) {
    if IsReplying(s.reader) then Replies(s.sent) == before && s.reader.request == request && !failed
    else Replies(s.sent) == if failed then before else before + [request]
  }

  lemma StepAnswers(p: Protocol, s: State, step: Step, before: seq<int>, request: int, failed: bool)
    requires Enabled(s, step) && !(step.Read? && step.read.ReadRequest?)
    requires IsAnswering(s, before, request, failed)
    ensures IsAnswering(Next(p, s, step), before, request, failed || ReplyFails(s, step))
  {
    StepReplies(p, s, step);
    if step.Own? {
      CallMoves(p, s, step.r, step.move);
    }
  }

  // Between a request of the other side and the next one: it is answered, by its own
  // name and once, if and only if the connection was not found stopped and the reply
  // could be written; until then nothing else is answered.
  lemma {:induction false} RequestIsAnsweredIff(
    p: Protocol, states: seq<State>, steps: seq<Step>, i: nat, j: nat)
    requires IsRun(p, states, steps) && i < j <= |steps|
    requires steps[i].Read? && steps[i].read.ReadRequest?
    requires forall k :: i < k < j ==> !(steps[k].Read? && steps[k].read.ReadRequest?)
    ensures IsAnswering(states[j], Replies(states[i].sent), steps[i].read.id, ReplyFailed(states, steps, i, j))
    decreases j
  {
    if i + 1 < j {
      RequestIsAnsweredIff(p, states, steps, i, j - 1);
      ReplyFailedGrows(states, steps, i, j);
      StepAnswers(p, states[j - 1], steps[j - 1], Replies(states[i].sent), steps[i].read.id,
                  ReplyFailed(states, steps, i, j - 1));
    }
  }
}
