/** The synchronous connection as a state machine: the main loop, the calls a request handler makes, one lock for reads
  * and writes together, and a peer. A call carries no id but its method name.
  */
module SyncConns {
  import opened Options
  import opened Replies

  // ---- states ----

  /** What the peer sends. An answer names the method only; `call` remembers which call it answers. */
  datatype Message = Request(number: nat, id: string) | Answer(call: nat, name: string, body: Body)

  /** A remote error is an answer too. */
  datatype Outcome = Answered(call: nat, body: Body) | Unexpected | Cancelled | IoError

  datatype Phase = Wanting | Locked | Written | Reading | Done(outcome: Outcome)

  datatype Call = Call(name: string, phase: Phase)

  datatype Reason = InputEnded | InputFailed | ContextOver | StrayAnswer | ReplyFailed

  datatype Main =
    | Idle
    | Listening
    | Handling(number: nat, id: string)
    | Replying(number: nat, id: string, body: Body, last: bool)
    | Stopped(reason: Reason)

  datatype Holder = MainLoop | Caller(call: nat)

  /** What goes over the wire, in order, and replies that could not be written. */
  datatype Event =
    | GotRequest(number: nat)
    | SentCall(call: nat)
    | GotAnswer(call: nat)
    | LostReply(number: nat, reason: string)
    | SentReply(number: nat, id: string, body: Body)

  /** `unanswered`, `open`, `ids` and `answers` are the peer's: calls it received, whether its own request awaits a
    * reply, the ids of its requests and what it answered to calls. `ends` says how the handlers ended.
    */
  datatype State = State(
    main: Main, lock: Option<Holder>, calls: seq<Call>, inbox: seq<Message>,
    unanswered: seq<nat>, open: bool, ids: seq<string>, answers: map<nat, Body>, ends: seq<HandlerEnd>,
    trace: seq<Event>)

  const INITIAL := State(Idle, None, [], [], [], false, [], map[], [], [])

  // ---- steps ----

  datatype Action =
    | PeerAsks(id: string)
    | PeerAnswers(position: nat, body: Body)
    | ContextEnds
    | Listen
    | MainReads
    | ReadingStops(why: Reason)
    | StartCall(name: string)
    | TakeLock(call: nat)
    | WriteCall(call: nat)
    | NotCancelled(call: nat)
    | CancelCall(call: nat)
    | ReadAnswer(call: nat)
    | FailCall(call: nat)
    | HandlerEnds(end: HandlerEnd)
    | WriteReply
    | FailReply(reason: string)

  predicate AtPhase(s: State, i: nat, p: Phase) {
    i < |s.calls| && s.calls[i].phase == p
  }

  predicate AllDone(s: State) {
    forall i | 0 <= i < |s.calls| :: s.calls[i].phase.Done?
  }

  /** The peer sends no request while one of its own is open and answers a call once; a handler starts its calls while
    * it runs and replies when they are over.
    */
  predicate Enabled(s: State, a: Action) {
    match a
    case PeerAsks(_) => !s.open
    case PeerAnswers(k, _) => k < |s.unanswered| && s.unanswered[k] < |s.calls|
    case ContextEnds => s.main.Idle?
    case Listen => s.main.Idle? && s.lock.None?
    case MainReads => s.main.Listening? && s.inbox != []
    case ReadingStops(why) => s.main.Listening? && (why.InputFailed? || (why.InputEnded? && s.inbox == []))
    case StartCall(_) => s.main.Handling?
    case TakeLock(i) => AtPhase(s, i, Wanting) && s.lock.None?
    case WriteCall(i) => AtPhase(s, i, Locked)
    case NotCancelled(i) => AtPhase(s, i, Written)
    case CancelCall(i) => AtPhase(s, i, Written)
    case ReadAnswer(i) => AtPhase(s, i, Reading) && s.inbox != []
    case FailCall(i) => AtPhase(s, i, Locked) || AtPhase(s, i, Reading)
    case HandlerEnds(_) => s.main.Handling? && AllDone(s)
    case WriteReply => s.main.Replying? && s.lock.None?
    case FailReply(_) => s.main.Replying? && s.lock.None?
  }

  function SetPhase(s: State, i: nat, p: Phase): State
    requires i < |s.calls|
  {
    s.(calls := s.calls[i := s.calls[i].(phase := p)])
  }

  /** The caller takes whatever comes next for its answer if the method name is right. */
  function AnswerRead(s: State, i: nat): State
    requires i < |s.calls| && s.inbox != []
  {
    var m := s.inbox[0];
    if m.Answer? && m.name == s.calls[i].name then
      SetPhase(s, i, Done(Answered(m.call, m.body))).(inbox := s.inbox[1..], lock := None,
                                                 trace := s.trace + [GotAnswer(m.call)])
    else
      SetPhase(s, i, Done(Unexpected)).(inbox := s.inbox[1..], lock := None)
  }

  function Apply(s: State, a: Action): State
    requires Enabled(s, a)
  {
    match a
    case PeerAsks(id) => s.(inbox := s.inbox + [Request(|s.ids|, id)], open := true, ids := s.ids + [id])
    case PeerAnswers(k, body) =>
      var i := s.unanswered[k];
      s.(inbox := s.inbox + [Answer(i, s.calls[i].name, body)], answers := s.answers[i := body],
         unanswered := s.unanswered[..k] + s.unanswered[k + 1..])
    case ContextEnds => s.(main := Stopped(ContextOver))
    case Listen => s.(main := Listening, lock := Some(MainLoop))
    case MainReads =>
      (match s.inbox[0]
       case Request(n, id) =>
         s.(main := Handling(n, id), lock := None, inbox := s.inbox[1..], trace := s.trace + [GotRequest(n)])
       case Answer(_, _, _) => s.(main := Stopped(StrayAnswer), lock := None, inbox := s.inbox[1..]))
    case ReadingStops(why) => s.(main := Stopped(why), lock := None)
    case StartCall(name) => s.(calls := s.calls + [Call(name, Wanting)])
    case TakeLock(i) => SetPhase(s, i, Locked).(lock := Some(Caller(i)))
    case WriteCall(i) => SetPhase(s, i, Written).(unanswered := s.unanswered + [i], trace := s.trace + [SentCall(i)])
    case NotCancelled(i) => SetPhase(s, i, Reading)
    case CancelCall(i) => SetPhase(s, i, Done(Cancelled)).(lock := None)
    case ReadAnswer(i) => AnswerRead(s, i)
    case FailCall(i) => SetPhase(s, i, Done(IoError)).(lock := None)
    case HandlerEnds(e) =>
      s.(main := Replying(s.main.number, s.main.id, BodyOf(e), e.Panicked?), ends := s.ends + [e])
    case WriteReply =>
      s.(main := Idle, open := false, trace := s.trace + [SentReply(s.main.number, s.main.id, s.main.body)])
    case FailReply(reason) =>
      if s.main.last then s.(main := Stopped(ReplyFailed))
      else s.(main := s.main.(body := BodyAfterFailure(reason), last := true),
              trace := s.trace + [LostReply(s.main.number, reason)])
  }

  predicate ValidRun(s: State, run: seq<Action>)
    decreases |run|
  {
    run == [] || (Enabled(s, run[0]) && ValidRun(Apply(s, run[0]), run[1..]))
  }

  function Run(s: State, run: seq<Action>): State
    requires ValidRun(s, run)
    decreases |run|
  {
    if run == [] then s else Run(Apply(s, run[0]), run[1..])
  }

  /** The step ends a call that was sent, without its answer: at the cancellation check or because reading fails. */
  predicate LeavesAnswer(s: State, a: Action) {
    a.CancelCall? || (a.FailCall? && AtPhase(s, a.call, Reading))
  }

  /** No step leaves an answer behind. Calls that fail before they are sent are welcome. */
  predicate Undisturbed(s: State, run: seq<Action>)
    requires ValidRun(s, run)
    decreases |run|
  {
    run == [] || (!LeavesAnswer(s, run[0]) && Undisturbed(Apply(s, run[0]), run[1..]))
  }

  /** Who returns an answer returns the answer to its own call. */
  predicate OwnAnswers(s: State) {
    forall i | 0 <= i < |s.calls| && s.calls[i].phase.Done? ::
      s.calls[i].phase.outcome.Answered? ==> s.calls[i].phase.outcome.call == i
  }

  // ---- the grammar of the wire ----

  datatype Wire = Between(next: nat) | InRequest(number: nat) | InCall(number: nat, call: nat)
                | Lost(number: nat, reason: string)

  /** One session after the other: a request, calls each followed by its own answer, one reply. */
  function Scan(trace: seq<Event>, ids: seq<string>, ends: seq<HandlerEnd>): Option<Wire> {
    if trace == [] then Some(Between(0))
    else
      match Scan(trace[..|trace| - 1], ids, ends)
      case None => None
      case Some(w) => Next(w, trace[|trace| - 1], ids, ends)
  }

  function Next(w: Wire, e: Event, ids: seq<string>, ends: seq<HandlerEnd>): Option<Wire> {
    match e
    case GotRequest(n) => if w == Between(n) then Some(InRequest(n)) else None
    case SentCall(k) => if w.InRequest? then Some(InCall(w.number, k)) else None
    case GotAnswer(k) => if w.InCall? && w.call == k then Some(InRequest(w.number)) else None
    case LostReply(n, reason) =>
      if w == InRequest(n) && n < |ends| && !ends[n].Panicked? then Some(Lost(n, reason)) else None
    case SentReply(n, id, body) =>
      if n < |ids| && id == ids[n] && n < |ends|
         && ((w == InRequest(n) && body == BodyOf(ends[n]))
             || (w.Lost? && w.number == n && body == BodyAfterFailure(w.reason)))
      then Some(Between(n + 1)) else None
  }

  /** The calls of a session, and why its first reply could not be written if it could not. */
  datatype Exchange = Exchange(calls: seq<nat>, lost: Option<string>)

  function CallEvents(calls: seq<nat>): seq<Event> {
    if calls == [] then []
    else CallEvents(calls[..|calls| - 1]) + [SentCall(calls[|calls| - 1]), GotAnswer(calls[|calls| - 1])]
  }

  /** The reply goes to the id of the request and says how its handler ended, or that this could not be written. */
  function ReplyEvents(n: nat, id: string, end: HandlerEnd, lost: Option<string>): seq<Event> {
    match lost
    case Some(reason) =>
      [LostReply(n, reason), SentReply(n, id, ErrorBody("panic: api: failed to write response: " + reason))]
    case None =>
      match end
      case Returned(result) => [SentReply(n, id, ResultBody(result))]
      case Failed(message) => [SentReply(n, id, ErrorBody(message))]
      case Panicked(text) => [SentReply(n, id, ErrorBody("panic: " + text))]
  }

  /** Sessions are numbered from 0. */
  function Events(exchanges: seq<Exchange>, ids: seq<string>, ends: seq<HandlerEnd>): seq<Event>
    requires |exchanges| <= |ids| && |exchanges| <= |ends|
  {
    if exchanges == [] then []
    else
      var n := |exchanges| - 1;
      Events(exchanges[..n], ids, ends) +
      ([GotRequest(n)] + CallEvents(exchanges[n].calls) + ReplyEvents(n, ids[n], ends[n], exchanges[n].lost))
  }

  /** After a handler's panic there is no second try. */
  predicate LossesOk(done: seq<Exchange>, ends: seq<HandlerEnd>) {
    |done| <= |ends| && forall k | 0 <= k < |done| && done[k].lost.Some? :: !ends[k].Panicked?
  }

  lemma ReplyEventsAre(w: Wire, e: Event, ids: seq<string>, ends: seq<HandlerEnd>)
    requires e.SentReply? && Next(w, e, ids, ends).Some?
    ensures (w.Lost? || w.InRequest?) && w.number == e.number < |ids| && e.number < |ends|
    ensures var lost := if w.Lost? then Some(w.reason) else None;
            ReplyEvents(e.number, ids[e.number], ends[e.number], lost) ==
            (if w.Lost? then [LostReply(e.number, w.reason)] else []) + [e]
  {
  }

  lemma NoEvents(ids: seq<string>, ends: seq<HandlerEnd>)
    ensures Events([], ids, ends) == [] && CallEvents([]) == []
  {
  }

  lemma EventsNext(done: seq<Exchange>, exchange: Exchange, ids: seq<string>, ends: seq<HandlerEnd>)
    requires |done| < |ids| && |done| < |ends|
    ensures var n := |done|;
            Events(done + [exchange], ids, ends) ==
            Events(done, ids, ends)
            + ([GotRequest(n)] + CallEvents(exchange.calls) + ReplyEvents(n, ids[n], ends[n], exchange.lost))
  {
    assert (done + [exchange])[..|done|] == done;
  }

  lemma CallsNext(calls: seq<nat>, k: nat)
    ensures CallEvents(calls + [k]) == CallEvents(calls) + [SentCall(k), GotAnswer(k)]
  {
    assert (calls + [k])[..|calls|] == calls;
  }

  /** What the scanner accepts is what the grammar generates. */
  lemma {:induction false} ScanParses(trace: seq<Event>, ids: seq<string>, ends: seq<HandlerEnd>)
    returns (done: seq<Exchange>, calls: seq<nat>)
    requires Scan(trace, ids, ends).Some?
    ensures |done| <= |ids| && LossesOk(done, ends)
    ensures var before := Events(done, ids, ends);
            match Scan(trace, ids, ends).value
            case Between(n) => n == |done| && trace == before
            case InRequest(n) => n == |done| && trace == before + ([GotRequest(n)] + CallEvents(calls))
            case InCall(n, k) => n == |done| && trace == before + ([GotRequest(n)] + CallEvents(calls)) + [SentCall(k)]
            case Lost(n, reason) =>
              && n == |done| < |ends| && !ends[n].Panicked?
              && trace == before + ([GotRequest(n)] + CallEvents(calls)) + [LostReply(n, reason)]
    decreases |trace|
  {
    hide Events, CallEvents, ReplyEvents, BodyOf;
    done, calls := [], [];
    NoEvents(ids, ends);
    if trace != [] {
      var e, first := trace[|trace| - 1], trace[..|trace| - 1];
      var w := Scan(first, ids, ends).value;
      assert trace == first + [e];
      done, calls := ScanParses(first, ids, ends);
      match e {
        case GotRequest(n) =>
          calls := [];
        case GotAnswer(k) =>
          CallsNext(calls, k);
          calls := calls + [k];
        case SentReply(n, id, body) =>
          var exchange := Exchange(calls, if w.Lost? then Some(w.reason) else None);
          ReplyEventsAre(w, e, ids, ends);
          EventsNext(done, exchange, ids, ends);
          done := done + [exchange];
        case _ =>
      }
    }
  }

  /** More requests and more ends change nothing about what is on the wire. */
  lemma {:induction false} ScanGrows(trace: seq<Event>, ids: seq<string>, ends: seq<HandlerEnd>,
                                     ids': seq<string>, ends': seq<HandlerEnd>)
    requires Scan(trace, ids, ends).Some? && ids <= ids' && ends <= ends'
    ensures Scan(trace, ids', ends') == Scan(trace, ids, ends)
  {
    if trace != [] {
      ScanGrows(trace[..|trace| - 1], ids, ends, ids', ends');
    }
  }

  // ---- the invariant of undisturbed runs ----

  predicate CallOk(s: State, i: nat)
    requires i < |s.calls|
  {
    var p := s.calls[i].phase;
    && (p.Locked? || p.Written? || p.Reading? <==> s.lock == Some(Caller(i)))
    && (p.Done? ==> OwnOutcome(s, i, p.outcome))
    && (!p.Done? ==> s.main.Handling?)
  }

  /** The call could not be sent, or has what the peer answered to it. */
  predicate OwnOutcome(s: State, i: nat, o: Outcome) {
    o.IoError? || (o.Answered? && o.call == i && i in s.answers && o.body == s.answers[i])
  }

  /** The one answer a waiting caller can get is its own, and nothing else is on the wire. */
  predicate WireOk(s: State) {
    match s.lock
    case Some(Caller(i)) =>
      && i < |s.calls|
      && if s.calls[i].phase.Locked? then s.unanswered == [] && s.inbox == []
         else
           || (s.unanswered == [i] && s.inbox == [])
           || (s.unanswered == [] && i in s.answers && s.inbox == [Answer(i, s.calls[i].name, s.answers[i])])
    case _ => s.unanswered == [] && (s.main.Handling? ==> s.inbox == [])
  }

  /** Requests are handled in turn: the peer's last one is under way, and those before it have ended. */
  predicate TurnOk(s: State) {
    var n := |s.ends|;
    match s.main
    case Idle | Listening =>
      if s.open then |s.ids| == n + 1 && s.inbox == [Request(n, s.ids[n])] else |s.ids| == n && s.inbox == []
    case Handling(k, id) => s.open && k == n && |s.ids| == n + 1 && id == s.ids[n]
    case Replying(k, id, _, _) => s.open && s.inbox == [] && k + 1 == n == |s.ids| && id == s.ids[k]
    case Stopped(reason) => !reason.StrayAnswer?
  }

  /** What has gone over the wire fits the state. */
  predicate TraceFits(s: State, w: Wire) {
    match s.main
    case Idle | Listening => w == Between(|s.ends|)
    case Handling(n, _) =>
      if s.lock.Some? && s.lock.value.Caller? && s.lock.value.call < |s.calls|
         && !s.calls[s.lock.value.call].phase.Locked?
      then w == InCall(n, s.lock.value.call) else w == InRequest(n)
    case Replying(n, _, body, last) =>
      && n < |s.ends|
      && ((w == InRequest(n) && body == BodyOf(s.ends[n]) && last == s.ends[n].Panicked?)
          || (w.Lost? && w.number == n && body == BodyAfterFailure(w.reason) && last))
    case Stopped(reason) => if reason.ReplyFailed? then w.InRequest? || w.Lost? else w.Between?
  }

  predicate Inv(s: State) {
    && (forall i | 0 <= i < |s.calls| :: CallOk(s, i))
    && WireOk(s) && TurnOk(s)
    && (s.lock == Some(MainLoop) <==> s.main.Listening?)
    && (s.lock.Some? && s.lock.value.Caller? ==> s.main.Handling?)
    && Scan(s.trace, s.ids, s.ends).Some? && TraceFits(s, Scan(s.trace, s.ids, s.ends).value)
  }

  lemma InitialInv()
    ensures Inv(INITIAL)
  {
  }

  lemma ScanNext(trace: seq<Event>, e: Event, ids: seq<string>, ends: seq<HandlerEnd>)
    ensures Scan(trace + [e], ids, ends) ==
            if Scan(trace, ids, ends).None? then None else Next(Scan(trace, ids, ends).value, e, ids, ends)
  {
    assert (trace + [e])[..|trace|] == trace;
  }

  /** The step is one of a call that was started. */
  predicate OfCall(a: Action) {
    a.TakeLock? || a.WriteCall? || a.NotCancelled? || a.CancelCall? || a.ReadAnswer? || a.FailCall?
  }

  lemma CallAt(s: State, a: Action)
    requires Inv(s) && Enabled(s, a)
    requires OfCall(a)
    ensures a.call < |s.calls| && CallOk(s, a.call)
  {
    hide Scan;
  }

  lemma NobodyWaits(s: State)
    requires Inv(s) && AllDone(s)
    ensures s.lock.Some? ==> s.lock.value.MainLoop?
  {
    hide Scan;
    assert s.lock.Some? && s.lock.value.Caller? ==> CallOk(s, s.lock.value.call);
  }

  lemma {:induction false} StepInv(s: State, a: Action)
    requires Inv(s) && Enabled(s, a) && !LeavesAnswer(s, a)
    ensures Inv(Apply(s, a))
  {
    hide Scan, Next, BodyOf, BodyAfterFailure;
    CallsOk(s, a);
    TraceOk(s, a);
    TurnStep(s, a);
    hide TraceFits, TurnOk;
    if a.HandlerEnds? {
      NobodyWaits(s);
    }
    if OfCall(a) {
      CallAt(s, a);
    }
  }

  lemma {:induction false} TurnStep(s: State, a: Action)
    requires Inv(s) && Enabled(s, a) && !LeavesAnswer(s, a)
    ensures TurnOk(Apply(s, a)) && WireOk(Apply(s, a))
  {
    hide Scan, Next, BodyOf, BodyAfterFailure, TraceFits;
    if a.HandlerEnds? {
      NobodyWaits(s);
    }
    if OfCall(a) {
      CallAt(s, a);
    }
  }

  lemma {:induction false} TraceOk(s: State, a: Action)
    requires Inv(s) && Enabled(s, a) && !LeavesAnswer(s, a)
    ensures var s' := Apply(s, a);
            Scan(s'.trace, s'.ids, s'.ends).Some? && TraceFits(s', Scan(s'.trace, s'.ids, s'.ends).value)
  {
    hide Scan, BodyOf, BodyAfterFailure, Next;
    var s' := Apply(s, a);
    ScanGrows(s.trace, s.ids, s.ends, s'.ids, s'.ends);
    FitsStep(s, a, Scan(s.trace, s.ids, s.ends).value);
    hide TraceFits, TurnOk, WireOk;
    if |s'.trace| > |s.trace| {
      ScanNext(s.trace, s'.trace[|s.trace|], s'.ids, s'.ends);
      assert s'.trace == s.trace + [s'.trace[|s.trace|]];
    } else {
      assert s'.trace == s.trace;
    }
  }

  lemma {:induction false} FitsStep(s: State, a: Action, w: Wire)
    requires Inv(s) && Enabled(s, a) && !LeavesAnswer(s, a) && TraceFits(s, w)
    ensures var s' := Apply(s, a);
            if |s'.trace| > |s.trace|
            then var next := Next(w, s'.trace[|s.trace|], s'.ids, s'.ends); next.Some? && TraceFits(s', next.value)
            else TraceFits(s', w)
  {
    hide Scan, BodyOf, BodyAfterFailure;
    if a.HandlerEnds? {
      NobodyWaits(s);
    }
    if OfCall(a) {
      CallAt(s, a);
    }
  }

  lemma {:induction false} CallsOk(s: State, a: Action)
    requires Inv(s) && Enabled(s, a) && !LeavesAnswer(s, a)
    ensures var s' := Apply(s, a); forall i | 0 <= i < |s'.calls| :: CallOk(s', i)
  {
    hide Scan, TraceFits, TurnOk, BodyOf, BodyAfterFailure;
    var s' := Apply(s, a);
    if OfCall(a) {
      CallAt(s, a);
    }
    forall i | 0 <= i < |s'.calls| ensures CallOk(s', i) {
      if i < |s.calls| {
        assert CallOk(s, i);
        if a.HandlerEnds? {
          NobodyWaits(s);
        }
        if !OfCall(a) {
          OneCallKept(s, a, i);
        } else if i == a.call {
          OwnStepOk(s, a);
        } else {
          OtherStepOk(s, a, i);
        }
      }
    }
  }

  /** Steps of the main loop and the peer do not touch calls, and a running call keeps them waiting. */
  lemma {:induction false} OneCallKept(s: State, a: Action, i: nat)
    requires Enabled(s, a) && !OfCall(a) && WireOk(s)
    requires i < |s.calls| && CallOk(s, i)
    requires s.lock == Some(MainLoop) <==> s.main.Listening?
    ensures i < |Apply(s, a).calls| && CallOk(Apply(s, a), i)
  {
    hide BodyOf, BodyAfterFailure;
  }

  lemma {:induction false} OwnStepOk(s: State, a: Action)
    requires Enabled(s, a) && !LeavesAnswer(s, a) && WireOk(s)
    requires OfCall(a) && a.call < |s.calls| && CallOk(s, a.call)
    requires s.lock == Some(MainLoop) <==> s.main.Listening?
    ensures a.call < |Apply(s, a).calls| && CallOk(Apply(s, a), a.call)
  {
    hide BodyOf, BodyAfterFailure;
  }

  lemma {:induction false} OtherStepOk(s: State, a: Action, i: nat)
    requires Enabled(s, a)
    requires OfCall(a) && a.call < |s.calls| && CallOk(s, a.call)
    requires i < |s.calls| && i != a.call && CallOk(s, i)
    ensures i < |Apply(s, a).calls| && CallOk(Apply(s, a), i)
  {
    hide BodyOf, BodyAfterFailure;
  }

  lemma {:induction false} RunInv(s: State, run: seq<Action>)
    requires Inv(s) && ValidRun(s, run) && Undisturbed(s, run)
    ensures Inv(Run(s, run)) && OwnAnswers(Run(s, run))
    decreases |run|
  {
    hide Scan;
    if run == [] {
      forall i | 0 <= i < |s.calls| && s.calls[i].phase.Done? && s.calls[i].phase.outcome.Answered?
        ensures s.calls[i].phase.outcome.call == i
      {
        assert CallOk(s, i);
      }
    } else {
      StepInv(s, run[0]);
      RunInv(Apply(s, run[0]), run[1..]);
    }
  }

  /** Every undisturbed run puts whole sessions on the wire, the last one perhaps unfinished. Requests are answered in
    * their order, each once, under its id and with what its handler ended with. Every finished call has what the peer
    * answered to it, whatever the method names, or could not be sent. The loop never meets a stray answer, and a
    * request stays without reply only if the loop stops because an error could not be written either.
    */
  lemma {:induction false} UndisturbedRunsAreSessions(run: seq<Action>) returns (done: seq<Exchange>, calls: seq<nat>)
    requires ValidRun(INITIAL, run) && Undisturbed(INITIAL, run)
    ensures var s := Run(INITIAL, run);
            && |done| <= |s.ids| && LossesOk(done, s.ends)
            && var before, begun := Events(done, s.ids, s.ends), [GotRequest(|done|)] + CallEvents(calls);
               && (s.main.Idle? || s.main.Listening? ==> s.trace == before && |s.ends| == |done|)
               && (s.main.Handling? && AllDone(s) ==> s.trace == before + begun && |s.ends| == |done|)
               && (s.main.Stopped? && !s.main.reason.ReplyFailed? ==> s.trace == before)
               && (s.main.Stopped? && s.main.reason.ReplyFailed? ==>
                     || s.trace == before + begun
                     || exists reason :: s.trace == before + begun + [LostReply(|done|, reason)])
    ensures var s := Run(INITIAL, run);
            && s.main != Stopped(StrayAnswer)
            && forall i | 0 <= i < |s.calls| && s.calls[i].phase.Done? ::
                 var o := s.calls[i].phase.outcome;
                 o.IoError? || (i in s.answers && o == Answered(i, s.answers[i]))
  {
    hide Scan, BodyOf, Events, CallEvents;
    InitialInv();
    RunInv(INITIAL, run);
    var s := Run(INITIAL, run);
    done, calls := ScanParses(s.trace, s.ids, s.ends);
    forall i | 0 <= i < |s.calls| && s.calls[i].phase.Done? ensures OwnOutcome(s, i, s.calls[i].phase.outcome) {
      assert CallOk(s, i);
    }
    var holder := if s.lock.Some? && s.lock.value.Caller? then s.lock.value.call else 0;
    assert holder < |s.calls| ==> CallOk(s, holder);
  }

  // ---- an answer left behind goes to the wrong call ----

  predicate Calm(run: seq<Action>) {
    forall a | a in run :: !a.CancelCall? && !a.FailCall?
  }

  lemma {:induction false} CalmIsUndisturbed(s: State, run: seq<Action>)
    requires ValidRun(s, run) && Calm(run)
    ensures Undisturbed(s, run)
    decreases |run|
  {
    if run != [] {
      assert run[0] in run;
      CalmIsUndisturbed(Apply(s, run[0]), run[1..]);
    }
  }

  lemma RunStep(s: State, a: Action, rest: seq<Action>)
    requires Enabled(s, a) && ValidRun(Apply(s, a), rest)
    ensures ValidRun(s, [a] + rest) && Run(s, [a] + rest) == Run(Apply(s, a), rest)
    ensures Calm(rest) && !a.CancelCall? && !a.FailCall? ==> Calm([a] + rest)
  {
    assert ([a] + rest)[1..] == rest;
  }

  lemma RunNone(s: State)
    ensures ValidRun(s, []) && Run(s, []) == s && Calm([])
  {
  }

  /** The answer to call `i`, to come or to be read. */
  predicate LeftOver(s: State, i: nat, name: string) {
    || (s.unanswered == [i] && s.inbox == [])
    || (s.unanswered == [] && |s.inbox| == 1 && s.inbox[0].Answer? && s.inbox[0].call == i && s.inbox[0].name == name)
  }

  /** The answer to call `i` is left over and nobody holds the lock. */
  predicate Stray(s: State, i: nat, name: string) {
    s.main.Handling? && s.lock.None? && i < |s.calls| && s.calls[i].name == name && LeftOver(s, i, name)
  }

  /** The next call of the method takes it. */
  lemma {:induction false} StrayIsTaken(s: State, i: nat, name: string) returns (run: seq<Action>, body: Body)
    requires Stray(s, i, name)
    ensures ValidRun(s, run) && Calm(run)
    ensures Run(s, run).calls == s.calls + [Call(name, Done(Answered(i, body)))]
  {
    hide ValidRun, Run, Calm;
    var n := |s.calls|;
    var s1 := Apply(s, StartCall(name));
    var s2 := Apply(s1, TakeLock(n));
    run, body := WritesOver(s2, i, n);
    RunStep(s1, TakeLock(n), run);
    run := [TakeLock(n)] + run;
    RunStep(s, StartCall(name), run);
    run := [StartCall(name)] + run;
  }

  lemma {:induction false} WritesOver(s: State, i: nat, n: nat) returns (run: seq<Action>, body: Body)
    requires AtPhase(s, n, Locked) && i < |s.calls| && s.calls[i].name == s.calls[n].name
    requires LeftOver(s, i, s.calls[n].name)
    ensures ValidRun(s, run) && Calm(run)
    ensures Run(s, run).calls == s.calls[n := Call(s.calls[n].name, Done(Answered(i, body)))]
  {
    hide ValidRun, Run, Calm;
    var s1 := Apply(s, WriteCall(n));
    body := if s.inbox == [] then ResultBody("") else s.inbox[0].body;
    var s2 := if s.inbox == [] then Apply(s1, PeerAnswers(0, body)) else s1;
    run := ReadsStray(s2, i, n, body);
    if s.inbox == [] {
      RunStep(s1, PeerAnswers(0, body), run);
      run := [PeerAnswers(0, body)] + run;
    }
    RunStep(s, WriteCall(n), run);
    run := [WriteCall(n)] + run;
  }

  lemma {:induction false} ReadsStray(s: State, i: nat, n: nat, body: Body) returns (run: seq<Action>)
    requires AtPhase(s, n, Written) && s.inbox == [Answer(i, s.calls[n].name, body)]
    ensures ValidRun(s, run) && Calm(run)
    ensures Run(s, run).calls == s.calls[n := Call(s.calls[n].name, Done(Answered(i, body)))]
  {
    hide ValidRun, Run, Calm;
    var s1 := Apply(s, NotCancelled(n));
    var s2 := Apply(s1, ReadAnswer(n));
    RunNone(s2);
    RunStep(s1, ReadAnswer(n), []);
    RunStep(s, NotCancelled(n), [ReadAnswer(n)] + []);
    run := [NotCancelled(n)] + ([ReadAnswer(n)] + []);
  }

  /** After any undisturbed run, a step that leaves an answer behind can be followed, without any further failure, by a
    * call of the same method that returns that answer.
    */
  lemma {:induction false} LostAnswerShifts(s: State, a: Action) returns (rest: seq<Action>, body: Body)
    requires Inv(s) && Enabled(s, a) && LeavesAnswer(s, a)
    ensures ValidRun(s, [a] + rest) && Calm(rest)
    ensures ValidRun(Apply(s, a), rest) && Run(s, [a] + rest) == Run(Apply(s, a), rest)
    ensures a.call < |s.calls|
    ensures Run(s, [a] + rest).calls == Apply(s, a).calls + [Call(s.calls[a.call].name, Done(Answered(a.call, body)))]
  {
    hide ValidRun, Run, Scan;
    assert CallOk(s, a.call);
    rest, body := StrayIsTaken(Apply(s, a), a.call, s.calls[a.call].name);
    RunStep(s, a, rest);
  }

  /** The step can be followed by undisturbed steps to a state where a call has returned another call's answer. */
  ghost predicate CanShift(s: State, a: Action)
    requires Enabled(s, a)
  {
    exists rest :: ValidRun(Apply(s, a), rest) && Undisturbed(Apply(s, a), rest) && !OwnAnswers(Run(Apply(s, a), rest))
  }

  /** In every state that undisturbed runs reach, the steps that leave an answer behind are exactly those after which a
    * call can return another call's answer.
    */
  lemma {:induction false} ShiftsIffAnswerLeft(run: seq<Action>, a: Action)
    requires ValidRun(INITIAL, run) && Undisturbed(INITIAL, run) && Enabled(Run(INITIAL, run), a)
    ensures CanShift(Run(INITIAL, run), a) <==> LeavesAnswer(Run(INITIAL, run), a)
  {
    RunInv(INITIAL, run);
    StepShiftsIff(Run(INITIAL, run), a);
  }

  lemma {:induction false} StepShiftsIff(s: State, a: Action)
    requires Inv(s) && Enabled(s, a)
    ensures CanShift(s, a) <==> LeavesAnswer(s, a)
  {
    hide ValidRun, Run, Undisturbed, Scan, Calm, Inv, Apply, OwnAnswers;
    if LeavesAnswer(s, a) {
      var rest, body := LostAnswerShifts(s, a);
      CalmIsUndisturbed(Apply(s, a), rest);
      Mismatch(s, a, Run(Apply(s, a), rest), s.calls[a.call].name, body);
      assert CanShift(s, a);
    } else {
      StepInv(s, a);
      forall rest | ValidRun(Apply(s, a), rest) && Undisturbed(Apply(s, a), rest)
        ensures OwnAnswers(Run(Apply(s, a), rest))
      {
        RunInv(Apply(s, a), rest);
      }
    }
  }

  lemma {:induction false} Mismatch(s: State, a: Action, end: State, name: string, body: Body)
    requires Enabled(s, a) && LeavesAnswer(s, a)
    requires end.calls == Apply(s, a).calls + [Call(name, Done(Answered(a.call, body)))]
    ensures !OwnAnswers(end)
  {
    assert end.calls[|s.calls|].phase.outcome.call == a.call;
  }

  /** At no point of the run can undisturbed steps follow that make a call return another call's answer. */
  ghost predicate NeverShifts(s: State, run: seq<Action>)
    requires ValidRun(s, run)
    decreases |run|
  {
    && (forall rest | ValidRun(s, rest) && Undisturbed(s, rest) :: OwnAnswers(Run(s, rest)))
    && (run == [] || NeverShifts(Apply(s, run[0]), run[1..]))
  }

  /** A run is undisturbed exactly if no answer can be shifted from any point of it. */
  lemma {:induction false} UndisturbedIffNeverShifts(run: seq<Action>)
    requires ValidRun(INITIAL, run)
    ensures Undisturbed(INITIAL, run) <==> NeverShifts(INITIAL, run)
  {
    NeverShiftsFrom(INITIAL, run);
  }

  lemma {:induction false} NeverShiftsFrom(s: State, run: seq<Action>)
    requires Inv(s) && ValidRun(s, run)
    ensures Undisturbed(s, run) <==> NeverShifts(s, run)
    decreases |run|
  {
    hide Inv, Apply, Enabled, LeavesAnswer, OwnAnswers, Run;
    forall rest | ValidRun(s, rest) && Undisturbed(s, rest) ensures OwnAnswers(Run(s, rest)) {
      RunInv(s, rest);
    }
    if run != [] {
      StepShiftsIff(s, run[0]);
      if !LeavesAnswer(s, run[0]) {
        StepInv(s, run[0]);
        NeverShiftsFrom(Apply(s, run[0]), run[1..]);
      }
    }
  }

  lemma {:induction false} RunAppend(s: State, r1: seq<Action>, r2: seq<Action>)
    requires ValidRun(s, r1) && ValidRun(Run(s, r1), r2)
    ensures ValidRun(s, r1 + r2) && Run(s, r1 + r2) == Run(Run(s, r1), r2)
    decreases |r1|
  {
    if r1 == [] {
      assert r1 + r2 == r2;
    } else {
      RunAppend(Apply(s, r1[0]), r1[1..], r2);
      assert (r1 + r2)[1..] == r1[1..] + r2;
    }
  }

  /** A handler has just been given the first request. */
  const ASKED := State(Handling(0, "1"), None, [], [], [], true, ["1"], map[], [], [GotRequest(0)])

  lemma {:induction false} Asked()
    ensures var run := [PeerAsks("1"), Listen, MainReads]; ValidRun(INITIAL, run) && Run(INITIAL, run) == ASKED
  {
    hide ValidRun, Run, Calm;
    var s1 := Apply(INITIAL, PeerAsks("1"));
    var s2 := Apply(s1, Listen);
    assert Apply(s2, MainReads) == ASKED;
    RunNone(ASKED);
    RunStep(s2, MainReads, []);
    RunStep(s1, Listen, [MainReads] + []);
    RunStep(INITIAL, PeerAsks("1"), [Listen] + ([MainReads] + []));
    assert [PeerAsks("1")] + ([Listen] + ([MainReads] + [])) == [PeerAsks("1"), Listen, MainReads];
  }

  /** Its first call is sent. */
  lemma {:induction false} FirstCallSent(name: string)
    ensures var run := [StartCall(name), TakeLock(0), WriteCall(0)];
            && ValidRun(ASKED, run)
            && Run(ASKED, run).calls == [Call(name, Written)]
  {
    hide ValidRun, Run, Calm;
    var s1 := Apply(ASKED, StartCall(name));
    var s2 := Apply(s1, TakeLock(0));
    RunNone(Apply(s2, WriteCall(0)));
    RunStep(s2, WriteCall(0), []);
    RunStep(s1, TakeLock(0), [WriteCall(0)] + []);
    RunStep(ASKED, StartCall(name), [TakeLock(0)] + ([WriteCall(0)] + []));
    assert [StartCall(name)] + ([TakeLock(0)] + ([WriteCall(0)] + [])) == [StartCall(name), TakeLock(0), WriteCall(0)];
  }

  /** For instance the first call of a handler, cancelled after it was sent: the second call of the method gets the
    * answer to the first.
    */
  lemma {:induction false} CancelledCallShiftsAnswers(name: string) returns (run: seq<Action>, body: Body)
    ensures ValidRun(INITIAL, run)
    ensures AtPhase(Run(INITIAL, run), 0, Done(Cancelled))
    ensures AtPhase(Run(INITIAL, run), 1, Done(Answered(0, body)))
    ensures forall a | a in run :: !a.FailCall?
  {
    Asked();
    FirstCallSent(name);
    hide ValidRun, Run, Inv, Undisturbed;
    var asked := [PeerAsks("1"), Listen, MainReads];
    var calls := [StartCall(name), TakeLock(0), WriteCall(0)];
    var sent := asked + calls;
    RunAppend(INITIAL, asked, calls);
    CalmIsUndisturbed(INITIAL, sent);
    InitialInv();
    RunInv(INITIAL, sent);
    var s := Run(INITIAL, sent);
    var rest;
    rest, body := LostAnswerShifts(s, CancelCall(0));
    RunAppend(INITIAL, sent, [CancelCall(0)] + rest);
    run := sent + ([CancelCall(0)] + rest);
  }
}
