/** The asynchronous connection as a state machine: any number of callers, one reader loop that runs request handlers
  * inline, a table of pending calls, a channel of capacity one per call and one write lock.
  */
module AsyncConns {
  import opened Arithmetic
  import opened Decimals
  import opened Options
  import opened Replies

  // ---- ids ----

  /** A JSON-RPC id: a string, or an integer when the string is empty. */
  datatype Id = Id(str: string, num: int)

  const TWO_63 := 0x8000_0000_0000_0000

  /** The signed 64-bit counter wraps. */
  function WrapI64(n: int): int {
    (n + TWO_63) % TWO_64 - TWO_63
  }

  /** The id of the call that took the counter's `i`-th value. */
  function CallId(i: nat): Id {
    Id("api" + Decimal(WrapI64(i + 1)), 0)
  }

  /** Until the counter goes round, ids are "api1", "api2" and so on. */
  lemma CallIdShown(i: nat)
    requires i + 1 < TWO_63
    ensures CallId(i) == Id("api" + Decimal(i + 1), 0)
  {
    hide Decimal;
    assert WrapI64(i + 1) == i + 1;
  }

  /** Two calls share an id exactly when the counter went round between them. */
  lemma CallIdsCollide(i: nat, j: nat)
    ensures CallId(i) == CallId(j) <==> (i - j) % TWO_64 == 0
  {
    var m, n := WrapI64(i + 1), WrapI64(j + 1);
    if CallId(i) == CallId(j) {
      assert CallId(i).str[3..] == Decimal(m) && CallId(j).str[3..] == Decimal(n);
      DecimalInjective(m, n);
    }
    var a, b := i + 1 + TWO_63, j + 1 + TWO_63;
    assert m == n <==> a % TWO_64 == b % TWO_64;
    SameRemainder(a, b, TWO_64);
    assert a - b == i - j;
  }

  // ---- states ----

  /** A message is a response if it has an id and no method, a request if it has both, a notification without id. */
  datatype Message = Message(id: Option<Id>, methodName: string, error: Option<string>, result: string)

  predicate IsResponse(m: Message) {
    m.id.Some? && m.methodName == ""
  }

  predicate IsRequest(m: Message) {
    m.id.Some? && m.methodName != ""
  }

  /** What is written, message by message. A reply is to message `number` of those read. */
  datatype Frame =
    | CallFrame(call: nat, id: Id)
    | ReplyFrame(number: nat, to: Option<Id>, body: Body)
    | NotificationFrame

  /** How a call ends. */
  datatype Outcome = Answered(response: Message) | WriteFailed | Cancelled | ConnClosed

  /** Where a caller stands; from Pending to Finishing its cleanup guard is alive. */
  datatype Phase = Started | Pending | Writing | Waiting | Finishing(outcome: Outcome) | Done(outcome: Outcome)

  /** `buffer` is the channel; `sent` remembers which message read from the peer went into it. */
  datatype Call = Call(phase: Phase, inline: bool, buffer: Option<Message>, sent: Option<nat>)

  datatype Holder = Caller(call: nat) | ReaderReply | Notifier

  datatype Reader =
    | Ready
    | Got(msg: Message)
    | Delivering(msg: Message, to: nat)
    | Handling(msg: Message)
    | Replying(msg: Message, attempt: nat, body: Body)
    | WritingReply(msg: Message, attempt: nat, body: Body)
    | Stopped(orderly: bool)

  /** `read` are the messages the reader has taken, the last one being the one it works on; `ends` says how the handlers
    * of these messages ended, and `broken` for which of them the first reply could not be written.
    */
  datatype State = State(
    calls: seq<Call>, pending: map<Id, nat>, lock: Option<Holder>, reader: Reader, read: seq<Message>,
    wire: seq<Frame>, ends: map<nat, HandlerEnd>, broken: set<nat>)

  const INITIAL := State([], map[], None, Ready, [], [], map[], {})

  /** The number of the message the reader works on. */
  function Current(s: State): nat {
    if s.read == [] then 0 else |s.read| - 1
  }

  // ---- steps ----

  datatype Action =
    | Start(inline: bool)
    | Register(call: nat)
    | LockForWrite(call: nat)
    | WriteOk(call: nat)
    | WriteError(call: nat)
    | ContextError(call: nat)
    | Timeout(call: nat)
    | Receive(call: nat)
    | Disconnected(call: nat)
    | Cleanup(call: nat)
    | Read(msg: Message)
    | StopReading
    | Dispatch
    | Send
    | HandlerEnds(end: HandlerEnd)
    | LockForReply
    | ReplyWritten
    | ReplyFailed(reason: string)
    | LockForNotify
    | NotifyDone(ok: bool)

  /** A sender for the channel of call `i` exists in the pending table or in the reader's hand. */
  predicate SenderAlive(s: State, i: nat) {
    Owns(s, i) || IsDelivering(s, i)
  }

  predicate Owns(s: State, i: nat) {
    CallId(i) in s.pending && s.pending[CallId(i)] == i
  }

  predicate IsDelivering(s: State, i: nat) {
    s.reader.Delivering? && s.reader.to == i
  }

  predicate AtPhase(s: State, i: nat, p: Phase) {
    i < |s.calls| && s.calls[i].phase == p
  }

  /** No call that the running handler waits for is still under way. */
  predicate NoInlineCall(s: State) {
    forall i | 0 <= i < |s.calls| && s.calls[i].inline :: s.calls[i].phase.Done?
  }

  /** Which steps the program and its surroundings can take. `send` needs room in the channel of a live receiver; an
    * inline call is started by the handler the reader is running, which goes on only when the call is over. A panic is
    * caught for a request and answered, and ends the loop for a notification.
    */
  predicate Enabled(s: State, a: Action) {
    match a
    case Start(inline) => inline ==> s.reader.Handling?
    case Register(i) => AtPhase(s, i, Started)
    case LockForWrite(i) => AtPhase(s, i, Pending) && s.lock.None?
    case WriteOk(i) => AtPhase(s, i, Writing)
    case WriteError(i) => AtPhase(s, i, Writing)
    case ContextError(i) => AtPhase(s, i, Waiting)
    case Timeout(i) => AtPhase(s, i, Waiting) && s.calls[i].buffer.None? && SenderAlive(s, i)
    case Receive(i) => AtPhase(s, i, Waiting) && s.calls[i].buffer.Some?
    case Disconnected(i) => AtPhase(s, i, Waiting) && s.calls[i].buffer.None? && !SenderAlive(s, i)
    case Cleanup(i) => i < |s.calls| && s.calls[i].phase.Finishing?
    case Read(_) => s.reader.Ready?
    case StopReading => s.reader.Ready?
    case Dispatch => s.reader.Got?
    case Send =>
      && s.reader.Delivering? && s.reader.to < |s.calls|
      && (s.calls[s.reader.to].phase.Done? || s.calls[s.reader.to].buffer.None?)
    case HandlerEnds(_) => s.reader.Handling? && NoInlineCall(s)
    case LockForReply => s.reader.Replying? && s.lock.None?
    case ReplyWritten => s.reader.WritingReply?
    case ReplyFailed(_) => s.reader.WritingReply?
    case LockForNotify => s.lock.None?
    case NotifyDone(_) => s.lock == Some(Notifier)
  }

  function SetCall(s: State, i: nat, c: Call): State
    requires i < |s.calls|
  {
    s.(calls := s.calls[i := c])
  }

  function SetPhase(s: State, i: nat, p: Phase): State
    requires i < |s.calls|
  {
    SetCall(s, i, s.calls[i].(phase := p))
  }

  /** The response handler takes the sender out of the table, whoever it belongs to, before it sends. */
  function Dispatched(s: State): State
    requires s.reader.Got?
  {
    var m := s.reader.msg;
    if IsResponse(m) then
      if m.id.value in s.pending then
        s.(pending := s.pending - {m.id.value}, reader := Delivering(m, s.pending[m.id.value]))
      else
        s.(reader := Ready)
    else if m.methodName != "" then s.(reader := Handling(m))
    else s.(reader := Ready)
  }

  function Sent(s: State): State
    requires Enabled(s, Send)
  {
    var i := s.reader.to;
    var s' := s.(reader := Ready);
    if s.calls[i].phase.Done? then s'
    else SetCall(s', i, s.calls[i].(buffer := Some(s.reader.msg), sent := Some(Current(s))))
  }

  /** A request is answered whatever its handler did; a notification is not, and its handler's panic ends the loop. */
  function Ended(s: State, e: HandlerEnd): State
    requires s.reader.Handling?
  {
    var m := s.reader.msg;
    var next := if IsRequest(m) then Replying(m, if e.Panicked? then 2 else 1, BodyOf(e))
                else if e.Panicked? then Stopped(false)
                else Ready;
    s.(reader := next, ends := s.ends[Current(s) := e])
  }

  function Apply(s: State, a: Action): State
    requires Enabled(s, a)
  {
    match a
    case Start(inline) => s.(calls := s.calls + [Call(Started, inline, None, None)])
    case Register(i) => SetPhase(s, i, Pending).(pending := s.pending[CallId(i) := i])
    case LockForWrite(i) => SetPhase(s, i, Writing).(lock := Some(Caller(i)))
    case WriteOk(i) => SetPhase(s, i, Waiting).(lock := None, wire := s.wire + [CallFrame(i, CallId(i))])
    case WriteError(i) => SetPhase(s, i, Finishing(WriteFailed)).(lock := None)
    case ContextError(i) => SetPhase(s, i, Finishing(Cancelled))
    case Timeout(i) => s
    case Receive(i) =>
      SetCall(s, i, s.calls[i].(phase := Finishing(Answered(s.calls[i].buffer.value)), buffer := None))
    case Disconnected(i) => SetPhase(s, i, Finishing(ConnClosed))
    case Cleanup(i) => SetPhase(s, i, Done(s.calls[i].phase.outcome)).(pending := s.pending - {CallId(i)})
    case Read(m) => s.(reader := Got(m), read := s.read + [m])
    case StopReading => s.(reader := Stopped(true))
    case Dispatch => Dispatched(s)
    case Send => Sent(s)
    case HandlerEnds(e) => Ended(s, e)
    case LockForReply =>
      s.(reader := WritingReply(s.reader.msg, s.reader.attempt, s.reader.body), lock := Some(ReaderReply))
    case ReplyWritten =>
      s.(reader := Ready, lock := None, wire := s.wire + [ReplyFrame(Current(s), s.reader.msg.id, s.reader.body)])
    case ReplyFailed(reason) =>
      if s.reader.attempt == 1 then
        s.(reader := Replying(s.reader.msg, 2, BodyAfterFailure(reason)), lock := None,
           broken := s.broken + {Current(s)})
      else s.(reader := Stopped(false), lock := None)
    case LockForNotify => s.(lock := Some(Notifier))
    case NotifyDone(ok) => s.(lock := None, wire := s.wire + if ok then [NotificationFrame] else [])
  }

  predicate ValidRun(s: State, run: seq<Action>)
    decreases |run|
  {
    run == [] || (Enabled(s, run[0]) && ValidRun(Apply(s, run[0]), run[1..]))
  }

  function Run(s: State, run: seq<Action>): State
    requires ValidRun(s, run)
    decreases |run|
  {
    if run == [] then s else Run(Apply(s, run[0]), run[1..])
  }

  // ---- the invariant ----

  predicate InFlight(p: Phase) {
    p.Pending? || p.Writing? || p.Waiting? || p.Finishing?
  }

  predicate HasOutcome(p: Phase) {
    p.Finishing? || p.Done?
  }

  predicate ReaderBusy(s: State) {
    s.reader.Got? || s.reader.Delivering?
  }

  /** Where the one message of a call is: still to come through the table, in the reader's hand, or sent. */
  predicate CallOk(s: State, i: nat)
    requires i < |s.calls|
  {
    var c := s.calls[i];
    && (Owns(s, i) ==> InFlight(c.phase) && c.sent.None? && !IsDelivering(s, i))
    && (IsDelivering(s, i) ==> !c.phase.Started? && c.sent.None?)
    && (InFlight(c.phase) && c.sent.None? ==> SenderAlive(s, i))
    && (c.phase.Started? ==> c.sent.None?)
    && (c.sent.Some? ==> if ReaderBusy(s) then c.sent.value + 1 < |s.read| else c.sent.value < |s.read|)
    && (c.buffer.Some? ==>
          c.sent.Some? && c.buffer.value.id == Some(CallId(i)) && c.buffer.value == s.read[c.sent.value])
    && (c.sent.Some? && InFlight(c.phase) && !c.phase.Finishing? ==> c.buffer.Some?)
    && (c.phase.Writing? <==> s.lock == Some(Caller(i)))
    && (HasOutcome(c.phase) && c.phase.outcome.Answered? ==>
          && c.sent.Some? && c.phase.outcome.response.id == Some(CallId(i))
          && c.phase.outcome.response == s.read[c.sent.value])
    && (HasOutcome(c.phase) ==> !c.phase.outcome.ConnClosed?)
    && (c.inline ==> c.sent.None? && !IsDelivering(s, i) && (c.phase.Done? || s.reader.Handling?))
  }

  predicate Inv(s: State) {
    && (forall i | 0 <= i < |s.calls| :: CallOk(s, i))
    && (forall id | id in s.pending :: s.pending[id] < |s.calls| && CallId(s.pending[id]) == id)
    && (s.reader.Delivering? ==> s.reader.to < |s.calls| && s.reader.msg.id == Some(CallId(s.reader.to)))
    && (s.reader.WritingReply? <==> s.lock == Some(ReaderReply))
    && (s.lock.Some? && s.lock.value.Caller? ==> s.lock.value.call < |s.calls|)
    && (ReaderBusy(s) ==> s.read != [] && s.read[|s.read| - 1] == s.reader.msg)
    && OncePerRead(s)
  }

  /** No message that was read went into two channels. */
  predicate OncePerRead(s: State) {
    forall i, j | 0 <= i < j < |s.calls| && s.calls[i].sent.Some? && s.calls[j].sent.Some? ::
      s.calls[i].sent != s.calls[j].sent
  }

  // ---- every step keeps the invariant ----

  lemma {:induction false} InitialInv()
    ensures Inv(INITIAL)
  {
  }

  /** Ids in flight are distinct as long as the counter has not gone round. */
  lemma {:induction false} DistinctIds(s: State, i: nat, j: nat)
    requires |s.calls| <= TWO_64 && i < |s.calls| && j < |s.calls| && CallId(i) == CallId(j)
    ensures i == j
  {
    CallIdsCollide(i, j);
    var d := i - j;
    assert -TWO_64 < d < TWO_64 && d % TWO_64 == 0;
  }

  lemma {:induction false} StepInv(s: State, a: Action)
    requires Inv(s) && Enabled(s, a) && |s.calls| < TWO_64
    ensures Inv(Apply(s, a))
  {
    hide CallId;
    match a {
      case Start(_) => StartInv(s, a);
      case Register(i) => RegisterInv(s, a);
      case Dispatch => DispatchInv(s);
      case Send => SendInv(s);
      case Cleanup(i) => CleanupInv(s, i);
      case LockForWrite(_) => WritingInv(s, a);
      case WriteOk(_) => WritingInv(s, a);
      case WriteError(_) => WritingInv(s, a);
      case ContextError(_) => WaitingInv(s, a);
      case Timeout(_) =>
      case Receive(_) => WaitingInv(s, a);
      case Disconnected(i) => NeverDisconnected(s, i);
      case _ => ReaderInv(s, a);
    }
  }

  /** A waiting call always has a sender for its channel or a message in it, so it is never told that the connection
    * is closed.
    */
  lemma {:induction false} NeverDisconnected(s: State, i: nat)
    requires Inv(s)
    ensures !Enabled(s, Disconnected(i))
  {
    hide CallId;
    if i < |s.calls| {
      assert CallOk(s, i);
    }
  }

  lemma {:induction false} StartInv(s: State, a: Action)
    requires Inv(s) && a.Start? && Enabled(s, a)
    ensures Inv(Apply(s, a))
  {
    hide CallId;
    var s' := Apply(s, a);
    forall i | 0 <= i < |s'.calls| ensures CallOk(s', i) {
      assert i < |s.calls| ==> CallOk(s, i);
    }
  }

  lemma {:induction false} RegisterInv(s: State, a: Action)
    requires Inv(s) && a.Register? && Enabled(s, a) && |s.calls| <= TWO_64
    ensures Inv(Apply(s, a))
  {
    hide CallId;
    var s' := Apply(s, a);
    forall i | 0 <= i < |s'.calls| ensures CallOk(s', i) {
      assert CallOk(s, i);
      if CallId(i) == CallId(a.call) {
        DistinctIds(s, i, a.call);
      }
    }
  }

  lemma {:induction false} WritingInv(s: State, a: Action)
    requires Inv(s) && Enabled(s, a) && (a.LockForWrite? || a.WriteOk? || a.WriteError?)
    ensures Inv(Apply(s, a))
  {
    hide CallId;
    var s' := Apply(s, a);
    assert CallOk(s, a.call);
    forall i | 0 <= i < |s'.calls| ensures CallOk(s', i) {
      assert CallOk(s, i);
    }
    SentKept(s, s');
  }

  lemma {:induction false} WaitingInv(s: State, a: Action)
    requires Inv(s) && Enabled(s, a) && (a.ContextError? || a.Receive?)
    ensures Inv(Apply(s, a))
  {
    hide CallId;
    var s' := Apply(s, a);
    assert CallOk(s, a.call);
    forall i | 0 <= i < |s'.calls| ensures CallOk(s', i) {
      assert CallOk(s, i);
    }
    SentKept(s, s');
  }

  lemma {:induction false} SentKept(s: State, s': State)
    requires OncePerRead(s) && |s'.calls| == |s.calls|
    requires forall i | 0 <= i < |s.calls| :: s'.calls[i].sent == s.calls[i].sent
    ensures OncePerRead(s')
  {
  }

  lemma {:induction false} CleanupInv(s: State, i: nat)
    requires Inv(s) && Enabled(s, Cleanup(i)) && |s.calls| <= TWO_64
    ensures Inv(Apply(s, Cleanup(i)))
  {
    hide CallId;
    var s' := Apply(s, Cleanup(i));
    forall j | 0 <= j < |s'.calls| ensures CallOk(s', j) {
      assert CallOk(s, j) && CallOk(s, i);
      if CallId(i) == CallId(j) {
        DistinctIds(s, i, j);
      }
    }
  }

  lemma {:induction false} DispatchInv(s: State)
    requires Inv(s) && Enabled(s, Dispatch) && |s.calls| <= TWO_64
    ensures Inv(Apply(s, Dispatch))
  {
    hide CallId;
    var s' := Apply(s, Dispatch);
    forall j | 0 <= j < |s'.calls| ensures CallOk(s', j) {
      assert CallOk(s, j);
      if s'.reader.Delivering? && CallId(j) == s.reader.msg.id.value {
        DistinctIds(s, s'.reader.to, j);
      }
    }
  }

  lemma {:induction false} SendInv(s: State)
    requires Inv(s) && Enabled(s, Send)
    ensures Inv(Apply(s, Send))
  {
    hide CallId;
    var s' := Apply(s, Send);
    forall j | 0 <= j < |s'.calls| ensures CallOk(s', j) {
      assert CallOk(s, j) && CallOk(s, s.reader.to);
    }
    forall i, j | 0 <= i < j < |s'.calls| && s'.calls[i].sent.Some? && s'.calls[j].sent.Some?
      ensures s'.calls[i].sent != s'.calls[j].sent
    {
      assert CallOk(s, i) && CallOk(s, j);
    }
  }

  /** What a step of the reader that concerns no call leaves as it was for a call. */
  lemma {:induction false} CallKept(s: State, s': State, j: nat)
    requires j < |s.calls| && CallOk(s, j)
    requires s'.calls == s.calls && s'.pending == s.pending && s.read <= s'.read
    requires !s.reader.Delivering? && !s'.reader.Delivering? && !ReaderBusy(s)
    requires s'.lock == Some(Caller(j)) <==> s.lock == Some(Caller(j))
    requires ReaderBusy(s') ==> |s'.read| == |s.read| + 1
    requires s.calls[j].inline && !s.calls[j].phase.Done? ==> s'.reader.Handling?
    ensures CallOk(s', j)
  {
    hide CallId;
  }

  lemma {:induction false} ReaderInv(s: State, a: Action)
    requires Inv(s) && Enabled(s, a)
    requires a.Read? || a.StopReading? || a.HandlerEnds? || a.LockForReply? || a.ReplyWritten?
             || a.ReplyFailed? || a.LockForNotify? || a.NotifyDone?
    ensures Inv(Apply(s, a))
  {
    hide CallId, BodyOf;
    var s' := Apply(s, a);
    if a.LockForNotify? || a.NotifyDone? {
      NotifyInv(s, a);
    } else {
      forall j | 0 <= j < |s'.calls| ensures CallOk(s', j) {
        assert CallOk(s, j);
        CallKept(s, s', j);
      }
    }
  }

  lemma {:induction false} NotifyInv(s: State, a: Action)
    requires Inv(s) && Enabled(s, a) && (a.LockForNotify? || a.NotifyDone?)
    ensures Inv(Apply(s, a))
  {
    hide CallId;
    var s' := Apply(s, a);
    forall j | 0 <= j < |s'.calls| ensures CallOk(s', j) {
      assert CallOk(s, j);
    }
  }

  // ---- whole runs ----

  lemma {:induction false} CallsGrow(s: State, run: seq<Action>)
    requires ValidRun(s, run)
    ensures |s.calls| <= |Run(s, run).calls|
    decreases |run|
  {
    if run != [] {
      CallsGrow(Apply(s, run[0]), run[1..]);
    }
  }

  /** Every state a run of at most 2^64 calls can reach is as it should be. */
  lemma {:induction false} RunInv(s: State, run: seq<Action>)
    requires Inv(s) && ValidRun(s, run) && |Run(s, run).calls| < TWO_64
    ensures Inv(Run(s, run))
    decreases |run|
  {
    if run != [] {
      CallsGrow(s, run);
      StepInv(s, run[0]);
      RunInv(Apply(s, run[0]), run[1..]);
    }
  }

  /** The safety of a whole run, in the caller's terms. */
  lemma {:induction false} CallsAreSafe(run: seq<Action>, i: nat)
    requires ValidRun(INITIAL, run) && |Run(INITIAL, run).calls| < TWO_64 && i < |Run(INITIAL, run).calls|
    ensures var s := Run(INITIAL, run);
            var c := s.calls[i];
            // The id is its own, and while it is in the table it leads to its own channel.
            && (forall j: nat | j < |s.calls| && j != i :: CallId(j) != CallId(i))
            && (CallId(i) in s.pending ==> s.pending[CallId(i)] == i && InFlight(c.phase))
            // It returns only a response with its own id.
            && (c.phase.Done? && c.phase.outcome.Answered? ==>
                  && c.phase.outcome.response.id == Some(CallId(i))
                  && c.sent.Some? && c.sent.value < |s.read| && c.phase.outcome.response == s.read[c.sent.value])
            // It never reports a closed connection.
            && (c.phase.Done? ==> c.phase.outcome != ConnClosed)
            // A call that is over is out of the table.
            && (c.phase.Done? ==> CallId(i) !in s.pending)
            // One that the running handler waits for gets no response: only an error ends it.
            && (c.phase.Done? && c.inline ==> c.phase.outcome == WriteFailed || c.phase.outcome == Cancelled)
  {
    hide CallId;
    InitialInv();
    RunInv(INITIAL, run);
    var s := Run(INITIAL, run);
    assert CallOk(s, i);
    forall j: nat | j < |s.calls| && j != i ensures CallId(j) != CallId(i) {
      if CallId(j) == CallId(i) {
        DistinctIds(s, i, j);
      }
    }
    if CallId(i) in s.pending {
      DistinctIds(s, i, s.pending[CallId(i)]);
    }
  }

  /** What the reader holds always fits into the channel it is meant for: the loop is never blocked by a caller. */
  lemma {:induction false} SendNeverBlocks(run: seq<Action>)
    requires ValidRun(INITIAL, run) && |Run(INITIAL, run).calls| < TWO_64
    ensures Run(INITIAL, run).reader.Delivering? ==> Enabled(Run(INITIAL, run), Send)
  {
    hide CallId;
    InitialInv();
    RunInv(INITIAL, run);
    var s := Run(INITIAL, run);
    if s.reader.Delivering? {
      assert CallOk(s, s.reader.to);
    }
  }

  /** Messages read from the peer are never put into two channels, nor twice into one. */
  lemma {:induction false} DeliveredOnce(run: seq<Action>, i: nat, j: nat)
    requires ValidRun(INITIAL, run) && |Run(INITIAL, run).calls| < TWO_64
    requires var s := Run(INITIAL, run); i < |s.calls| && j < |s.calls| && i != j
    ensures var s := Run(INITIAL, run);
            && (s.calls[i].sent.Some? && s.calls[j].sent.Some? ==> s.calls[i].sent != s.calls[j].sent)
            && (s.calls[i].sent.Some? ==> !SenderAlive(s, i))
  {
    hide CallId;
    InitialInv();
    RunInv(INITIAL, run);
    var s := Run(INITIAL, run);
    assert CallOk(s, i) && CallOk(s, j);
  }

  /** After any run a response that was read leaves calls, table and lock alone exactly if it answers no call, or a call
    * that was not sent, has its response or is over.
    */
  lemma {:induction false} UnknownResponseIgnored(run: seq<Action>)
    requires ValidRun(INITIAL, run) && |Run(INITIAL, run).calls| < TWO_64
    requires var s := Run(INITIAL, run); s.reader.Got? && IsResponse(s.reader.msg)
    ensures var s := Run(INITIAL, run);
            Apply(s, Dispatch) == s.(reader := Ready) <==>
              forall i: nat | i < |s.calls| && CallId(i) == s.reader.msg.id.value ::
                !InFlight(s.calls[i].phase) || s.calls[i].sent.Some?
  {
    hide CallId;
    InitialInv();
    RunInv(INITIAL, run);
    var s := Run(INITIAL, run);
    var id := s.reader.msg.id.value;
    if id in s.pending {
      var i := s.pending[id];
      assert CallOk(s, i) && CallId(i) == id;
      assert InFlight(s.calls[i].phase) && s.calls[i].sent.None?;
    } else {
      forall i: nat | i < |s.calls| && CallId(i) == id ensures !InFlight(s.calls[i].phase) || s.calls[i].sent.Some? {
        assert CallOk(s, i);
      }
    }
  }

  lemma {:induction false} StepHeld(s: State, a: Action)
    requires s.reader.Handling? && !NoInlineCall(s) && Enabled(s, a)
    ensures var s' := Apply(s, a);
            && s'.reader == s.reader && s'.read == s.read && |s.calls| <= |s'.calls|
            && (forall j | 0 <= j < |s.calls| :: s'.calls[j].sent == s.calls[j].sent)
            && (forall j | |s.calls| <= j < |s'.calls| :: s'.calls[j].sent.None?)
  {
  }

  lemma StepStaysDone(s: State, a: Action, i: nat)
    requires Enabled(s, a) && i < |s.calls| && s.calls[i].phase.Done?
    ensures i < |Apply(s, a).calls| && Apply(s, a).calls[i].phase.Done?
  {
    hide CallId;
  }

  /** A call that is over stays over. */
  lemma {:induction false} StaysDone(s: State, run: seq<Action>, i: nat)
    requires ValidRun(s, run) && i < |s.calls| && s.calls[i].phase.Done?
    ensures i < |Run(s, run).calls| && Run(s, run).calls[i].phase.Done?
    decreases |run|
  {
    hide Apply, Enabled;
    if run != [] {
      StepStaysDone(s, run[0], i);
      StaysDone(Apply(s, run[0]), run[1..], i);
    }
  }

  lemma {:induction false} RunHeld(s: State, run: seq<Action>, i: nat)
    requires Inv(s) && ValidRun(s, run) && |Run(s, run).calls| < TWO_64
    requires i < |s.calls| && s.calls[i].inline
    requires i < |Run(s, run).calls| && !Run(s, run).calls[i].phase.Done?
    ensures var s' := Run(s, run);
            && s'.reader == s.reader && s'.read == s.read && |s.calls| <= |s'.calls|
            && (forall j | 0 <= j < |s.calls| :: s'.calls[j].sent == s.calls[j].sent)
            && (forall j | |s.calls| <= j < |s'.calls| :: s'.calls[j].sent.None?)
    decreases |run|
  {
    hide CallId;
    if run != [] {
      if s.calls[i].phase.Done? {
        StaysDone(s, run, i);
      }
      assert CallOk(s, i);
      CallsGrow(s, run);
      StepInv(s, run[0]);
      StepHeld(s, run[0]);
      hide Inv, CallOk, Enabled;
      StepInline(s, run[0], i);
      RunHeld(Apply(s, run[0]), run[1..], i);
    }
  }

  lemma StepInline(s: State, a: Action, i: nat)
    requires Enabled(s, a) && i < |s.calls|
    ensures i < |Apply(s, a).calls| && Apply(s, a).calls[i].inline == s.calls[i].inline
  {
  }

  /** From any point of a run on, as long as a call that a handler waits for is not over, nothing is taken from the peer
    * and nothing reaches a channel, whatever other callers do.
    */
  lemma {:induction false} HandlerHoldsReader(run: seq<Action>, more: seq<Action>, i: nat)
    requires ValidRun(INITIAL, run) && ValidRun(Run(INITIAL, run), more)
    requires |Run(Run(INITIAL, run), more).calls| < TWO_64
    requires var s, s' := Run(INITIAL, run), Run(Run(INITIAL, run), more);
             i < |s.calls| && s.calls[i].inline && i < |s'.calls| && !s'.calls[i].phase.Done?
    ensures var s, s' := Run(INITIAL, run), Run(Run(INITIAL, run), more);
            && s'.reader == s.reader && s'.read == s.read && |s.calls| <= |s'.calls|
            && (forall j | 0 <= j < |s.calls| :: s'.calls[j].sent == s.calls[j].sent)
            && (forall j | |s.calls| <= j < |s'.calls| :: s'.calls[j].sent.None?)
  {
    hide CallId, Inv;
    InitialInv();
    CallsGrow(Run(INITIAL, run), more);
    RunInv(INITIAL, run);
    RunHeld(Run(INITIAL, run), more, i);
  }

  /** The response to a waiting call that was not answered yet is handed to it and to no other. */
  lemma {:induction false} ResponseReachesItsCall(s: State, i: nat)
    requires Inv(s) && |s.calls| < TWO_64 && AtPhase(s, i, Waiting) && s.calls[i].sent.None?
    requires s.reader.Got? && IsResponse(s.reader.msg) && s.reader.msg.id == Some(CallId(i))
    ensures var run := [Dispatch] + ([Send] + ([Receive(i)] + ([Cleanup(i)] + [])));
            && ValidRun(s, run)
            && AtPhase(Run(s, run), i, Done(Answered(s.reader.msg)))
            && |Run(s, run).calls| == |s.calls|
            && forall j | 0 <= j < |s.calls| && j != i :: Run(s, run).calls[j] == s.calls[j]
  {
    hide CallId;
    assert CallOk(s, i);
    var s1 := Apply(s, Dispatch);
    assert s1.reader == Delivering(s.reader.msg, i);
    var s2 := Apply(s1, Send);
    var s3 := Apply(s2, Receive(i));
    RunStep(s3, Cleanup(i), []);
    RunStep(s2, Receive(i), [Cleanup(i)] + []);
    RunStep(s1, Send, [Receive(i)] + ([Cleanup(i)] + []));
    RunStep(s, Dispatch, [Send] + ([Receive(i)] + ([Cleanup(i)] + [])));
  }

  lemma {:induction false} RunStep(s: State, a: Action, rest: seq<Action>)
    requires Enabled(s, a) && ValidRun(Apply(s, a), rest)
    ensures ValidRun(s, [a] + rest) && Run(s, [a] + rest) == Run(Apply(s, a), rest)
  {
    assert ([a] + rest)[1..] == rest;
  }

  // ---- requests are answered ----

  predicate IsReply(s: State, k: nat) {
    k < |s.wire| && s.wire[k].ReplyFrame?
  }

  ghost predicate Replied(s: State, number: nat) {
    exists k: nat :: IsReply(s, k) && s.wire[k].number == number
  }

  /** What a handler's end asks to be replied; `broken` says that the first reply could not be written. */
  predicate BodyFits(e: HandlerEnd, broken: bool, body: Body) {
    && (body.ResultBody? <==> e.Returned? && !broken)
    && (body.ResultBody? ==> body.result == e.result)
    && (e.Failed? && !broken ==> body == ErrorBody(e.message))
  }

  /** A reply goes to a request that was read, under its id, and says what its handler's end asks for. */
  predicate FrameOk(s: State, f: Frame) {
    f.ReplyFrame? ==>
      && f.number < |s.read| && IsRequest(s.read[f.number]) && f.to == s.read[f.number].id
      && f.number in s.ends && BodyFits(s.ends[f.number], f.number in s.broken, f.body)
  }

  /** The reader works on a message for which it may have to reply. */
  predicate Busy(r: Reader) {
    r.Got? || r.Delivering? || r.Handling? || r.Replying? || r.WritingReply?
  }

  /** What the reader is about to write fits what happened so far. */
  predicate ReaderOk(s: State) {
    && (Busy(s.reader) ==> s.read != [] && s.reader.msg == s.read[|s.read| - 1])
    && (s.reader.Delivering? ==> !IsRequest(s.reader.msg))
    && (s.reader.Got? || s.reader.Handling? ==> Current(s) !in s.broken)
    && (s.reader.Replying? || s.reader.WritingReply? ==>
          && IsRequest(s.reader.msg) && Current(s) in s.ends
          && BodyFits(s.ends[Current(s)], Current(s) in s.broken, s.reader.body)
          && (s.reader.attempt == 1 ==> Current(s) !in s.broken))
  }

  /** The reader has finished with the message; a loop that broke down has not finished with its last one. */
  predicate FinishedWith(s: State, number: nat) {
    number < |s.read| && (number + 1 < |s.read| || s.reader.Ready? || s.reader == Stopped(true))
  }

  ghost predicate RepliesInv(s: State) {
    && ReaderOk(s)
    && (forall k: nat | IsReply(s, k) :: FrameOk(s, s.wire[k]))
    && (forall j: nat, k: nat | j < k && IsReply(s, j) && IsReply(s, k) :: s.wire[j].number < s.wire[k].number)
    && (Busy(s.reader) ==> forall k: nat | IsReply(s, k) :: s.wire[k].number + 1 < |s.read|)
    && (forall n: nat | FinishedWith(s, n) && IsRequest(s.read[n]) :: Replied(s, n))
    && (forall n | n in s.broken :: n < |s.read|)
  }

  /** Steps that leave the reader alone and write no reply change nothing about replies. */
  lemma {:induction false} RepliesKept(s: State, s': State)
    requires RepliesInv(s)
    requires s'.reader == s.reader && s'.read == s.read && s'.ends == s.ends && s'.broken == s.broken
    requires s'.wire == s.wire || (|s'.wire| == |s.wire| + 1 && s.wire <= s'.wire && !s'.wire[|s.wire|].ReplyFrame?)
    ensures RepliesInv(s')
  {
    assert forall k: nat :: IsReply(s', k) <==> IsReply(s, k);
    assert forall k: nat | IsReply(s, k) :: s'.wire[k] == s.wire[k] && FrameOk(s, s.wire[k]);
    forall n: nat | FinishedWith(s', n) && IsRequest(s'.read[n]) ensures Replied(s', n) {
      assert FinishedWith(s, n) && Replied(s, n);
    }
  }

  /** Steps of the reader that write nothing. */
  predicate ReaderStep(a: Action) {
    a.Read? || a.StopReading? || a.Dispatch? || a.HandlerEnds? || a.LockForReply? || a.ReplyFailed? || a.Send?
  }

  /** What they leave as it was: all that concerns replies written so far. */
  predicate PastKept(s: State, s': State) {
    && s'.wire == s.wire && s.read <= s'.read
    && (forall n: nat | n + 1 < |s.read| :: (n in s'.ends <==> n in s.ends) && (n in s'.broken <==> n in s.broken))
    && (forall n: nat | n + 1 < |s.read| && n in s.ends :: s'.ends[n] == s.ends[n])
    && (Busy(s.reader) || (s'.ends == s.ends && s'.broken == s.broken))
  }

  lemma {:induction false} ReaderStaysOk(s: State, a: Action)
    requires ReaderOk(s) && (forall n | n in s.broken :: n < |s.read|) && ReaderStep(a) && Enabled(s, a)
    ensures ReaderOk(Apply(s, a))
  {
    hide CallId, PastKept, FinishedWith, NoInlineCall;
  }

  lemma {:induction false} ReaderStepOk(s: State, a: Action)
    requires ReaderOk(s) && (forall n | n in s.broken :: n < |s.read|) && ReaderStep(a) && Enabled(s, a)
    ensures var s' := Apply(s, a);
            && ReaderOk(s') && PastKept(s, s')
            && (forall n | n in s'.broken :: n < |s'.read|)
            && (Busy(s'.reader) && !Busy(s.reader) ==> |s'.read| == |s.read| + 1)
            && (Busy(s'.reader) && Busy(s.reader) ==> s'.read == s.read)
            && (forall n: nat | FinishedWith(s', n) && IsRequest(s'.read[n]) :: FinishedWith(s, n))
  {
    ReaderStaysOk(s, a);
    hide CallId, BodyFits, BodyOf, NoInlineCall;
  }

  lemma {:induction false} ReaderRepliesInv(s: State, a: Action)
    requires RepliesInv(s) && Enabled(s, a) && ReaderStep(a)
    ensures RepliesInv(Apply(s, a))
  {
    ReaderStepOk(s, a);
    var s' := Apply(s, a);
    hide Apply, Enabled, ReaderOk, BodyFits, FinishedWith;
    assert forall k: nat :: IsReply(s', k) <==> IsReply(s, k);
    forall k: nat | IsReply(s', k) ensures FrameOk(s', s'.wire[k]) {
      assert FrameOk(s, s.wire[k]);
    }
    forall n: nat | FinishedWith(s', n) && IsRequest(s'.read[n]) ensures Replied(s', n) {
      FinishedIsRead(s, n);
      assert IsRequest(s.read[n]) && Replied(s, n);
    }
  }

  lemma FinishedIsRead(s: State, n: nat)
    ensures FinishedWith(s, n) ==> n < |s.read|
  {
  }

  lemma {:induction false} WrittenInv(s: State)
    requires RepliesInv(s) && Enabled(s, ReplyWritten)
    ensures RepliesInv(Apply(s, ReplyWritten))
  {
    hide BodyFits;
    var s' := Apply(s, ReplyWritten);
    var last := |s.wire|;
    assert forall k: nat :: IsReply(s', k) <==> IsReply(s, k) || k == last;
    assert forall k: nat | IsReply(s, k) :: s'.wire[k] == s.wire[k] && FrameOk(s, s.wire[k]);
    forall n: nat | FinishedWith(s', n) && IsRequest(s'.read[n]) ensures Replied(s', n) {
      if n == Current(s) {
        assert IsReply(s', last) && s'.wire[last].number == n;
      } else {
        assert FinishedWith(s, n) && Replied(s, n);
        var k: nat :| IsReply(s, k) && s.wire[k].number == n;
        assert IsReply(s', k) && s'.wire[k].number == n;
      }
    }
  }

  lemma {:induction false} StepRepliesInv(s: State, a: Action)
    requires RepliesInv(s) && Enabled(s, a)
    ensures RepliesInv(Apply(s, a))
  {
    hide CallId, RepliesInv;
    match a {
      case Read(_) => ReaderRepliesInv(s, a);
      case StopReading => ReaderRepliesInv(s, a);
      case Dispatch => ReaderRepliesInv(s, a);
      case HandlerEnds(_) => ReaderRepliesInv(s, a);
      case LockForReply => ReaderRepliesInv(s, a);
      case ReplyFailed(_) => ReaderRepliesInv(s, a);
      case ReplyWritten => WrittenInv(s);
      case Send => ReaderRepliesInv(s, a);
      case _ => RepliesKept(s, Apply(s, a));
    }
  }

  lemma {:induction false} RunRepliesInv(s: State, run: seq<Action>)
    requires RepliesInv(s) && ValidRun(s, run)
    ensures RepliesInv(Run(s, run))
    decreases |run|
  {
    hide RepliesInv, Apply, Enabled;
    if run != [] {
      StepRepliesInv(s, run[0]);
      RunRepliesInv(Apply(s, run[0]), run[1..]);
    }
  }

  /** Over every run: a reply goes to a request that was read, under its id, in the order of the requests and at most
    * once each; it is the handler's result, or its error, or an error if the handler panicked or its reply could not
    * be written; and every request the loop has finished with is answered, unless the loop broke down over it.
    */
  lemma {:induction false} RequestsAnswered(run: seq<Action>)
    requires ValidRun(INITIAL, run)
    ensures var s := Run(INITIAL, run);
            && (forall k: nat | IsReply(s, k) ::
                  var f := s.wire[k];
                  && f.number < |s.read| && IsRequest(s.read[f.number]) && f.to == s.read[f.number].id
                  && f.number in s.ends
                  && (f.body.ResultBody? <==> s.ends[f.number].Returned? && f.number !in s.broken)
                  && (f.body.ResultBody? ==> f.body.result == s.ends[f.number].result)
                  && (s.ends[f.number].Failed? && f.number !in s.broken ==>
                        f.body == ErrorBody(s.ends[f.number].message)))
            && (forall j: nat, k: nat | j < k && IsReply(s, j) && IsReply(s, k) :: s.wire[j].number < s.wire[k].number)
            && (forall n: nat | n < |s.read| && IsRequest(s.read[n]) && !Replied(s, n) ::
                  n == |s.read| - 1 && !s.reader.Ready? && s.reader != Stopped(true))
  {
    assert RepliesInv(INITIAL);
    RunRepliesInv(INITIAL, run);
    var s := Run(INITIAL, run);
    forall k: nat | IsReply(s, k) ensures FrameOk(s, s.wire[k]) {
    }
    forall n: nat | n < |s.read| && IsRequest(s.read[n]) && !Replied(s, n)
      ensures n == |s.read| - 1 && !s.reader.Ready? && s.reader != Stopped(true)
    {
      assert !FinishedWith(s, n);
    }
  }

  /** Once a request's handler ends and the lock is free the reply is two steps away. */
  lemma {:induction false} ReplyFollows(s: State, e: HandlerEnd)
    requires s.reader.Handling? && IsRequest(s.reader.msg) && NoInlineCall(s) && s.lock.None? && s.read != []
    ensures var run := [HandlerEnds(e)] + ([LockForReply] + ([ReplyWritten] + []));
            var body := match e
                        case Returned(result) => ResultBody(result)
                        case Failed(message) => ErrorBody(message)
                        case Panicked(text) => ErrorBody("panic: " + text);
            && ValidRun(s, run)
            && Run(s, run).wire == s.wire + [ReplyFrame(|s.read| - 1, s.reader.msg.id, body)]
            && Run(s, run).reader == Ready && Run(s, run).lock == None && Run(s, run).calls == s.calls
  {
    var s1 := Apply(s, HandlerEnds(e));
    var s2 := Apply(s1, LockForReply);
    RunStep(s2, ReplyWritten, []);
    RunStep(s1, LockForReply, [ReplyWritten] + []);
    RunStep(s, HandlerEnds(e), [LockForReply] + ([ReplyWritten] + []));
  }

  /** A first reply that cannot be written is followed by an error, and if that fails too the loop ends. */
  lemma {:induction false} FailedReplyFollows(s: State, reason: string, again: string)
    requires s.reader.WritingReply? && s.reader.attempt == 1 && s.read != []
    ensures var s1 := Apply(s, ReplyFailed(reason));
            && s1.lock == None && Enabled(s1, LockForReply)
            && var s2 := Apply(s1, LockForReply);
               && Enabled(s2, ReplyWritten) && Enabled(s2, ReplyFailed(again))
               && Apply(s2, ReplyWritten).wire ==
                  s.wire + [ReplyFrame(|s.read| - 1, s.reader.msg.id,
                                       ErrorBody("panic: api: failed to write response: " + reason))]
               && Apply(s2, ReplyWritten).reader == Ready
               && Apply(s2, ReplyFailed(again)).reader == Stopped(false)
               && Apply(s2, ReplyFailed(again)).wire == s.wire
  {
  }

  /** A notification is never answered. */
  lemma {:induction false} NotificationEnds(s: State, e: HandlerEnd)
    requires s.reader.Handling? && !IsRequest(s.reader.msg) && NoInlineCall(s)
    ensures var s' := Apply(s, HandlerEnds(e));
            s'.wire == s.wire && s'.reader == if e.Panicked? then Stopped(false) else Ready
  {
  }

  // ---- what calls write ----

  /** The request of the call went out. */
  predicate WasWritten(p: Phase) {
    p.Waiting? || (HasOutcome(p) && !p.outcome.WriteFailed?)
  }

  predicate WritesCall(s: State, k: nat, i: nat) {
    k < |s.wire| && s.wire[k] == CallFrame(i, CallId(i))
  }

  ghost predicate WireInv(s: State) {
    && (forall k: nat | k < |s.wire| && s.wire[k].CallFrame? ::
          var i := s.wire[k].call;
          i < |s.calls| && WritesCall(s, k, i) && WasWritten(s.calls[i].phase))
    && (forall j: nat, k: nat | j < k < |s.wire| && s.wire[j].CallFrame? && s.wire[k].CallFrame? ::
          s.wire[j].call != s.wire[k].call)
    && (forall i: nat | i < |s.calls| && WasWritten(s.calls[i].phase) :: exists k: nat :: WritesCall(s, k, i))
  }

  /** Only a written call adds the frame of a call, and only calls not written before are written. */
  lemma {:induction false} StepWrites(s: State, a: Action)
    requires Enabled(s, a)
    ensures var s' := Apply(s, a);
            && |s.calls| <= |s'.calls| && s.wire <= s'.wire
            && (forall k: nat | |s.wire| <= k < |s'.wire| && s'.wire[k].CallFrame? :: a.WriteOk? && k == |s.wire|)
            && (a.WriteOk? ==>
                  && s'.wire == s.wire + [CallFrame(a.call, CallId(a.call))] && a.call < |s.calls|
                  && !WasWritten(s.calls[a.call].phase) && WasWritten(s'.calls[a.call].phase))
            && (forall i: nat | i < |s.calls| && WasWritten(s.calls[i].phase) :: WasWritten(s'.calls[i].phase))
            && (forall i: nat | i < |s'.calls| && WasWritten(s'.calls[i].phase) && a != WriteOk(i) ::
                  i < |s.calls| && WasWritten(s.calls[i].phase))
  {
    hide CallId;
  }

  lemma {:induction false} StepWireInv(s: State, a: Action)
    requires WireInv(s) && Enabled(s, a)
    ensures WireInv(Apply(s, a))
  {
    StepWrites(s, a);
    var s' := Apply(s, a);
    hide Apply, Enabled;
    WrittenKept(s, s', a);
  }

  lemma {:induction false} WrittenKept(s: State, s': State, a: Action)
    requires WireInv(s) && |s.calls| <= |s'.calls| && s.wire <= s'.wire
    requires forall k: nat | |s.wire| <= k < |s'.wire| && s'.wire[k].CallFrame? :: a.WriteOk? && k == |s.wire|
    requires a.WriteOk? ==>
               && s'.wire == s.wire + [CallFrame(a.call, CallId(a.call))] && a.call < |s.calls|
               && !WasWritten(s.calls[a.call].phase) && WasWritten(s'.calls[a.call].phase)
    requires forall i: nat | i < |s.calls| && WasWritten(s.calls[i].phase) :: WasWritten(s'.calls[i].phase)
    requires forall i: nat | i < |s'.calls| && WasWritten(s'.calls[i].phase) && a != WriteOk(i) ::
               i < |s.calls| && WasWritten(s.calls[i].phase)
    ensures WireInv(s')
  {
    hide CallId, WasWritten;
    assert forall k: nat | k < |s.wire| :: s'.wire[k] == s.wire[k];
    forall i: nat | i < |s'.calls| && WasWritten(s'.calls[i].phase) ensures exists k: nat :: WritesCall(s', k, i) {
      if a == WriteOk(i) {
        assert WritesCall(s', |s.wire|, i);
      } else {
        var k: nat :| WritesCall(s, k, i);
        assert WritesCall(s', k, i);
      }
    }
  }

  lemma {:induction false} RunWireInv(s: State, run: seq<Action>)
    requires WireInv(s) && ValidRun(s, run)
    ensures WireInv(Run(s, run))
    decreases |run|
  {
    hide WireInv, Apply, Enabled;
    if run != [] {
      StepWireInv(s, run[0]);
      RunWireInv(Apply(s, run[0]), run[1..]);
    }
  }

  /** Over every run a call's request is written exactly once, under the call's id, if the call is waiting or ended
    * otherwise than by a failed write; and not at all before that or after a failed write.
    */
  lemma {:induction false} CallsWrittenOnce(run: seq<Action>, i: nat)
    requires ValidRun(INITIAL, run) && i < |Run(INITIAL, run).calls|
    ensures var s := Run(INITIAL, run);
            && ((exists k: nat :: k < |s.wire| && s.wire[k] == CallFrame(i, CallId(i))) <==>
                  var p := s.calls[i].phase;
                  p.Waiting? || ((p.Finishing? || p.Done?) && p.outcome != WriteFailed))
            && (forall j: nat, k: nat | j < k < |s.wire| && s.wire[j].CallFrame? && s.wire[j].call == i ::
                  !(s.wire[k].CallFrame? && s.wire[k].call == i))
  {
    hide CallId;
    assert WireInv(INITIAL);
    RunWireInv(INITIAL, run);
    var s := Run(INITIAL, run);
    if k: nat :| k < |s.wire| && s.wire[k] == CallFrame(i, CallId(i)) {
      assert WasWritten(s.calls[i].phase);
    }
    if WasWritten(s.calls[i].phase) {
      var k: nat :| WritesCall(s, k, i);
    }
  }

  /** Whoever holds the write lock can let go of it in one step. */
  lemma {:induction false} LockIsReleased(s: State) returns (a: Action)
    requires Inv(s) && s.lock.Some?
    ensures Enabled(s, a) && Apply(s, a).lock.None?
  {
    hide CallId;
    match s.lock.value {
      case Caller(i) =>
        assert CallOk(s, i);
        a := WriteOk(i);
      case ReaderReply => a := ReplyWritten;
      case Notifier => a := NotifyDone(true);
    }
  }

  /** A new call from anywhere but the running handler, with lock and reader free: its request goes out, and the
    * response with its id is what it returns.
    */
  lemma {:induction false} WholeCall(s: State, m: Message) returns (run: seq<Action>)
    requires s.lock.None? && s.reader.Ready? && IsResponse(m) && m.id == Some(CallId(|s.calls|))
    ensures ValidRun(s, run)
    ensures var s' := Run(s, run);
            && s'.calls == s.calls + [Call(Done(Answered(m)), false, None, Some(|s.read|))]
            && s'.wire == s.wire + [CallFrame(|s.calls|, CallId(|s.calls|))]
            && s'.read == s.read + [m] && s'.reader == Ready && s'.lock == None
  {
    hide CallId, ValidRun, Run;
    var n := |s.calls|;
    var s1 := Apply(s, Start(false));
    var s2 := Apply(s1, Register(n));
    run := WrittenCall(s2, n, m);
    RunStep(s1, Register(n), run);
    run := [Register(n)] + run;
    RunStep(s, Start(false), run);
    run := [Start(false)] + run;
  }

  lemma {:induction false} WrittenCall(s: State, n: nat, m: Message) returns (run: seq<Action>)
    requires n < |s.calls| && s.calls[n] == Call(Pending, false, None, None) && Owns(s, n)
    requires s.lock.None? && s.reader.Ready? && IsResponse(m) && m.id == Some(CallId(n))
    ensures ValidRun(s, run)
    ensures var s' := Run(s, run);
            && s'.calls == s.calls[n := Call(Done(Answered(m)), false, None, Some(|s.read|))]
            && s'.wire == s.wire + [CallFrame(n, CallId(n))]
            && s'.read == s.read + [m] && s'.reader == Ready && s'.lock == None
  {
    hide CallId, ValidRun, Run;
    var s1 := Apply(s, LockForWrite(n));
    var s2 := Apply(s1, WriteOk(n));
    var s3 := Apply(s2, Read(m));
    run := ResponseFinishes(s3, n, m);
    RunStep(s2, Read(m), run);
    run := [Read(m)] + run;
    RunStep(s1, WriteOk(n), run);
    run := [WriteOk(n)] + run;
    RunStep(s, LockForWrite(n), run);
    run := [LockForWrite(n)] + run;
  }

  lemma {:induction false} ResponseFinishes(s: State, i: nat, m: Message) returns (run: seq<Action>)
    requires i < |s.calls| && s.calls[i].phase == Waiting && s.calls[i].buffer.None? && Owns(s, i)
    requires s.reader == Got(m) && IsResponse(m) && m.id == Some(CallId(i)) && s.read != []
    ensures ValidRun(s, run)
    ensures var s' := Run(s, run);
            && s'.calls == s.calls[i := Call(Done(Answered(m)), s.calls[i].inline, None, Some(|s.read| - 1))]
            && s'.wire == s.wire && s'.read == s.read && s'.reader == Ready && s'.lock == s.lock
  {
    hide CallId;
    var s1 := Apply(s, Dispatch);
    var s2 := Apply(s1, Send);
    var s3 := Apply(s2, Receive(i));
    RunStep(s3, Cleanup(i), []);
    RunStep(s2, Receive(i), [Cleanup(i)] + []);
    RunStep(s1, Send, [Receive(i)] + ([Cleanup(i)] + []));
    RunStep(s, Dispatch, [Send] + ([Receive(i)] + ([Cleanup(i)] + [])));
    run := [Dispatch] + ([Send] + ([Receive(i)] + ([Cleanup(i)] + [])));
  }
}
