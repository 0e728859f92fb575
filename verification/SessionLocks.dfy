/** The locks of an API session: what a request handler locks, for how long, and whether handlers come to an end. */
module SessionLocks {
  datatype Lock = LatestSnapshot | Snapshots | ProjectSession

  /** Handlers that hold several locks take them in this order. */
  function Rank(l: Lock): nat {
    match l
    case LatestSnapshot => 0
    case Snapshots => 1
    case ProjectSession => 2
  }

  // ---- programs ----

  /** Methods of the session that take a lock for themselves and hold it until they return. */
  datatype Helper = ToPath | ToAbsoluteFileName | GetSnapshotData

  function LockOf(h: Helper): Lock {
    match h
    case ToPath => ProjectSession
    case ToAbsoluteFileName => ProjectSession
    case GetSnapshotData => Snapshots
  }

  /** What a handler does as far as locks go. A guard lives as long as its body runs. */
  datatype Program =
    | Work
    | Guard(lock: Lock, body: Program)
    | Then(first: Program, next: Program)
    | Call(helper: Helper)

  datatype Op = Take(lock: Lock) | Drop(lock: Lock)

  function Ops(p: Program): seq<Op> {
    match p
    case Work => []
    case Guard(l, body) => [Take(l)] + Ops(body) + [Drop(l)]
    case Then(first, next) => Ops(first) + Ops(next)
    case Call(h) => [Take(LockOf(h)), Drop(LockOf(h))]
  }

  // ---- one handler alone ----

  /** The locks are not reentrant: a thread that takes a lock it holds waits for ever. */
  predicate RunsThrough(held: set<Lock>, ops: seq<Op>)
    decreases |ops|
  {
    if ops == [] then true
    else
      match ops[0]
      case Take(l) => l !in held && RunsThrough(held + {l}, ops[1..])
      case Drop(l) => RunsThrough(held - {l}, ops[1..])
  }

  /** Inside a live guard neither its lock is taken again nor a helper called that takes it. */
  predicate NoLockTwice(p: Program, live: set<Lock>) {
    match p
    case Work => true
    case Guard(l, body) => l !in live && NoLockTwice(body, live + {l})
    case Then(first, next) => NoLockTwice(first, live) && NoLockTwice(next, live)
    case Call(h) => LockOf(h) !in live
  }

  lemma {:induction false} RunsBefore(p: Program, live: set<Lock>, rest: seq<Op>)
    ensures RunsThrough(live, Ops(p) + rest) <==> NoLockTwice(p, live) && RunsThrough(live, rest)
    decreases p
  {
    match p {
      case Work =>
        assert Ops(p) + rest == rest;
      case Guard(l, body) =>
        var ops := Ops(p) + rest;
        assert ops[1..] == Ops(body) + ([Drop(l)] + rest);
        RunsBefore(body, live + {l}, [Drop(l)] + rest);
        assert ([Drop(l)] + rest)[1..] == rest;
        assert l !in live ==> live + {l} - {l} == live;
      case Then(first, next) =>
        assert Ops(p) + rest == Ops(first) + (Ops(next) + rest);
        RunsBefore(first, live, Ops(next) + rest);
        RunsBefore(next, live, rest);
      case Call(h) =>
        var l := LockOf(h);
        var ops := Ops(p) + rest;
        assert ops[1..] == [Drop(l)] + rest;
        assert ([Drop(l)] + rest)[1..] == rest;
        assert l !in live ==> live + {l} - {l} == live;
    }
  }

  /** A handler alone comes to its end exactly if no guard's lock is taken again, by itself or by a helper, while the
    * guard is alive.
    */
  lemma RunsThroughIff(p: Program)
    ensures RunsThrough({}, Ops(p)) <==> NoLockTwice(p, {})
  {
    RunsBefore(p, {}, []);
    assert Ops(p) + [] == Ops(p);
  }

  // ---- the handlers ----

  /** Requests with what decides which locks they take. `Queries` are the requests to a checker or a program, one lookup
    * of a snapshot after the other, some of which succeed.
    */
  datatype Request =
    | Initialize
    | ParseConfigFile(readable: bool)
    | UpdateSnapshot(opensProject: bool, fails: bool, known: bool, hasLatest: bool)
    | Release(wellFormed: bool, last: bool)
    | Queries(found: seq<bool>)
    | Close

  /** Holds the project session from the beginning and converts the path once the file is read. */
  function ParseConfigFileProgram(readable: bool): Program {
    Guard(ProjectSession, if readable then Call(ToPath) else Work)
  }

  function UpdateSnapshotProgram(opensProject: bool, fails: bool, known: bool, hasLatest: bool): Program {
    var asked := if opensProject then Then(Call(ToAbsoluteFileName), Guard(ProjectSession, Work))
                 else Guard(ProjectSession, Work);
    if opensProject && fails then asked
    else
      var stored := Guard(Snapshots, if known then Guard(ProjectSession, Work) else Work);
      var projects := Guard(ProjectSession, Work);
      var changes := Then(Guard(LatestSnapshot, Work),
                          Guard(Snapshots, if hasLatest then Guard(ProjectSession, Work) else Work));
      Then(asked, Then(stored, Then(projects, Then(changes, Guard(LatestSnapshot, Work)))))
  }

  function QueriesProgram(found: seq<bool>): Program {
    if found == [] then Work
    else
      Then(Then(Call(GetSnapshotData), if found[0] then Guard(ProjectSession, Work) else Work),
           QueriesProgram(found[1..]))
  }

  function ProgramOf(r: Request): Program {
    match r
    case Initialize => Guard(ProjectSession, Work)
    case ParseConfigFile(readable) => ParseConfigFileProgram(readable)
    case UpdateSnapshot(opens, fails, known, hasLatest) => UpdateSnapshotProgram(opens, fails, known, hasLatest)
    case Release(wellFormed, last) =>
      if wellFormed then Guard(Snapshots, if last then Guard(ProjectSession, Work) else Work) else Work
    case Queries(found) => QueriesProgram(found)
    case Close => Guard(Snapshots, Work)
  }

  /** The lock is taken and dropped. */
  function Once(l: Lock): seq<Op> {
    [Take(l), Drop(l)]
  }

  /** The lock is taken, within it perhaps the project session's, and dropped. */
  function Around(l: Lock, needed: bool): seq<Op> {
    if needed then [Take(l), Take(ProjectSession), Drop(ProjectSession), Drop(l)] else [Take(l), Drop(l)]
  }

  lemma AroundIs(l: Lock, needed: bool)
    ensures Ops(Guard(l, if needed then Guard(ProjectSession, Work) else Work)) == Around(l, needed)
    ensures Ops(Guard(l, Work)) == Once(l)
  {
  }

  lemma ThenIs(p: Program, q: Program)
    ensures Ops(Then(p, q)) == Ops(p) + Ops(q)
  {
  }

  lemma UpdateSnapshotLocks(opensProject: bool, fails: bool, known: bool, hasLatest: bool)
    ensures var asked := (if opensProject then Once(ProjectSession) else []) + Once(ProjectSession);
            Ops(UpdateSnapshotProgram(opensProject, fails, known, hasLatest)) ==
            if opensProject && fails then asked
            else asked + Around(Snapshots, known) + Once(ProjectSession)
                 + Once(LatestSnapshot) + Around(Snapshots, hasLatest) + Once(LatestSnapshot)
  {
    var session, latest := Guard(ProjectSession, Work), Guard(LatestSnapshot, Work);
    var asked := if opensProject then Then(Call(ToAbsoluteFileName), session) else session;
    assert Ops(Call(ToAbsoluteFileName)) == Once(ProjectSession);
    var stored := Guard(Snapshots, if known then session else Work);
    var reported := Guard(Snapshots, if hasLatest then session else Work);
    var changes := Then(latest, reported);
    AroundIs(ProjectSession, false);
    AroundIs(LatestSnapshot, false);
    AroundIs(Snapshots, known);
    AroundIs(Snapshots, hasLatest);
    ThenIs(Call(ToAbsoluteFileName), session);
    ThenIs(latest, reported);
    ThenIs(changes, latest);
    ThenIs(session, Then(changes, latest));
    ThenIs(stored, Then(session, Then(changes, latest)));
    ThenIs(asked, Then(stored, Then(session, Then(changes, latest))));
    hide Ops, Once, Around;
  }

  /** The locks a request takes, in order. An update that fails ends where its project is not opened. */
  lemma LocksTaken(r: Request)
    ensures match r
            case Initialize => Ops(ProgramOf(r)) == Once(ProjectSession)
            case ParseConfigFile(readable) => Ops(ProgramOf(r)) == Around(ProjectSession, readable)
            case UpdateSnapshot(opensProject, fails, known, hasLatest) =>
              var asked := (if opensProject then Once(ProjectSession) else []) + Once(ProjectSession);
              Ops(ProgramOf(r)) ==
              if opensProject && fails then asked
              else asked + Around(Snapshots, known) + Once(ProjectSession)
                   + Once(LatestSnapshot) + Around(Snapshots, hasLatest) + Once(LatestSnapshot)
            case Release(wellFormed, last) =>
              Ops(ProgramOf(r)) == if wellFormed then Around(Snapshots, last) else []
            case Queries(found) => found == [] ==> Ops(ProgramOf(r)) == []
            case Close => Ops(ProgramOf(r)) == Once(Snapshots)
  {
    AroundIs(ProjectSession, false);
    AroundIs(LatestSnapshot, false);
    match r {
      case UpdateSnapshot(opensProject, fails, known, hasLatest) =>
        UpdateSnapshotLocks(opensProject, fails, known, hasLatest);
      case Release(wellFormed, last) => AroundIs(Snapshots, last);
      case _ =>
    }
  }

  /** Queries look their snapshots up one after the other and ask the project session about those found. */
  lemma QueriesLocks(found: seq<bool>)
    requires found != []
    ensures Ops(ProgramOf(Queries(found))) ==
            Once(Snapshots) + (if found[0] then Once(ProjectSession) else []) + Ops(ProgramOf(Queries(found[1..])))
  {
  }

  predicate Stuck(r: Request) {
    r.ParseConfigFile? && r.readable
  }

  /** The locks taken inside a live guard come later in the order. */
  predicate Ordered(p: Program, live: set<Lock>) {
    match p
    case Work => true
    case Guard(l, body) => Above(l, live) && Ordered(body, live + {l})
    case Then(first, next) => Ordered(first, live) && Ordered(next, live)
    case Call(h) => Above(LockOf(h), live)
  }

  predicate Above(l: Lock, live: set<Lock>) {
    forall k | k in live :: Rank(k) < Rank(l)
  }

  lemma {:induction false} OrderedNoLockTwice(p: Program, live: set<Lock>)
    requires Ordered(p, live)
    ensures NoLockTwice(p, live)
  {
    match p {
      case Work =>
      case Guard(l, body) => OrderedNoLockTwice(body, live + {l});
      case Then(first, next) =>
        OrderedNoLockTwice(first, live);
        OrderedNoLockTwice(next, live);
      case Call(h) =>
    }
  }

  lemma {:induction false} QueriesOrdered(found: seq<bool>)
    ensures Ordered(QueriesProgram(found), {})
  {
    if found != [] {
      QueriesOrdered(found[1..]);
    }
  }

  lemma HandlersOrdered(r: Request)
    requires !Stuck(r)
    ensures Ordered(ProgramOf(r), {})
  {
    if r.Queries? {
      QueriesOrdered(r.found);
    }
  }

  /** Of all handlers only the parsing of a configuration file that can be read does not come to its end. */
  lemma ParseConfigFileBlocks(r: Request)
    ensures RunsThrough({}, Ops(ProgramOf(r))) <==> !Stuck(r)
  {
    RunsThroughIff(ProgramOf(r));
    if !Stuck(r) {
      HandlersOrdered(r);
      OrderedNoLockTwice(ProgramOf(r), {});
    }
  }

  // ---- many handlers at once ----

  /** A handler that is running: the locks it holds and what it still does. */
  datatype Thread = Thread(held: set<Lock>, todo: seq<Op>)

  function Started(rs: seq<Request>): seq<Thread> {
    seq(|rs|, i requires 0 <= i < |rs| => Thread({}, Ops(ProgramOf(rs[i]))))
  }

  predicate IsFree(ts: seq<Thread>, l: Lock) {
    forall j | 0 <= j < |ts| :: l !in ts[j].held
  }

  predicate CanStep(ts: seq<Thread>, i: nat) {
    i < |ts| && ts[i].todo != [] && (ts[i].todo[0].Take? ==> IsFree(ts, ts[i].todo[0].lock))
  }

  function Step(ts: seq<Thread>, i: nat): seq<Thread>
    requires CanStep(ts, i)
  {
    var t := ts[i];
    var held := match t.todo[0] case Take(l) => t.held + {l} case Drop(l) => t.held - {l};
    ts[i := Thread(held, t.todo[1..])]
  }

  predicate ValidSchedule(ts: seq<Thread>, schedule: seq<nat>)
    decreases |schedule|
  {
    schedule == [] || (CanStep(ts, schedule[0]) && ValidSchedule(Step(ts, schedule[0]), schedule[1..]))
  }

  function Run(ts: seq<Thread>, schedule: seq<nat>): seq<Thread>
    requires ValidSchedule(ts, schedule)
    decreases |schedule|
  {
    if schedule == [] then ts else Run(Step(ts, schedule[0]), schedule[1..])
  }

  /** A thread takes locks in order, drops what it holds and ends holding nothing. */
  predicate Ascending(held: set<Lock>, todo: seq<Op>)
    decreases |todo|
  {
    if todo == [] then held == {}
    else
      match todo[0]
      case Take(l) => Above(l, held) && Ascending(held + {l}, todo[1..])
      case Drop(l) => l in held && Ascending(held - {l}, todo[1..])
  }

  lemma {:induction false} OrderedAscends(p: Program, live: set<Lock>, rest: seq<Op>)
    requires Ordered(p, live) && Ascending(live, rest)
    ensures Ascending(live, Ops(p) + rest)
    decreases p
  {
    match p {
      case Work =>
        assert Ops(p) + rest == rest;
      case Guard(l, body) =>
        var ops := Ops(p) + rest;
        assert ([Drop(l)] + rest)[1..] == rest;
        assert live + {l} - {l} == live;
        OrderedAscends(body, live + {l}, [Drop(l)] + rest);
        assert ops[1..] == Ops(body) + ([Drop(l)] + rest);
      case Then(first, next) =>
        OrderedAscends(next, live, rest);
        OrderedAscends(first, live, Ops(next) + rest);
        assert Ops(p) + rest == Ops(first) + (Ops(next) + rest);
      case Call(h) =>
        var l := LockOf(h);
        var ops := Ops(p) + rest;
        assert ([Drop(l)] + rest)[1..] == rest;
        assert live + {l} - {l} == live;
        assert ops[1..] == [Drop(l)] + rest;
    }
  }

  predicate Inv(ts: seq<Thread>) {
    && (forall i | 0 <= i < |ts| :: Ascending(ts[i].held, ts[i].todo))
    && (forall i, j | 0 <= i < j < |ts| :: ts[i].held !! ts[j].held)
  }

  lemma {:induction false} RunInv(ts: seq<Thread>, schedule: seq<nat>)
    requires Inv(ts) && ValidSchedule(ts, schedule)
    ensures Inv(Run(ts, schedule))
    decreases |schedule|
  {
    if schedule != [] {
      StepInv(ts, schedule[0]);
      RunInv(Step(ts, schedule[0]), schedule[1..]);
    }
  }

  lemma {:induction false} StepInv(ts: seq<Thread>, i: nat)
    requires Inv(ts) && CanStep(ts, i)
    ensures Inv(Step(ts, i))
  {
    assert Ascending(ts[i].held, ts[i].todo);
  }

  predicate Finished(ts: seq<Thread>) {
    forall i | 0 <= i < |ts| :: ts[i].todo == []
  }

  predicate Waits(ts: seq<Thread>, i: nat) {
    i < |ts| && ts[i].todo != [] && ts[i].todo[0].Take? && !IsFree(ts, ts[i].todo[0].lock)
  }

  /** Who waits for a lock waits for somebody who can step, or who waits for a later lock. */
  lemma {:induction false} SomeoneSteps(ts: seq<Thread>, i: nat) returns (k: nat)
    requires Inv(ts) && i < |ts| && ts[i].todo != []
    ensures CanStep(ts, k)
    decreases if ts[i].todo[0].Take? then 3 - Rank(ts[i].todo[0].lock) else 0
  {
    if !Waits(ts, i) {
      return i;
    }
    var l := ts[i].todo[0].lock;
    var j: nat :| j < |ts| && l in ts[j].held;
    assert Ascending(ts[j].held, ts[j].todo);
    if Waits(ts, j) {
      assert Above(ts[j].todo[0].lock, ts[j].held);
      k := SomeoneSteps(ts, j);
    } else {
      k := j;
    }
  }

  /** However handlers other than those interleave, as long as one of them is not finished some handler can go on. */
  lemma {:induction false} HandlersNeverDeadlock(rs: seq<Request>, schedule: seq<nat>)
    requires forall r | r in rs :: !Stuck(r)
    requires ValidSchedule(Started(rs), schedule)
    ensures var ts := Run(Started(rs), schedule); Finished(ts) || exists k: nat :: CanStep(ts, k)
  {
    var ts := Started(rs);
    forall i | 0 <= i < |ts| ensures Ascending(ts[i].held, ts[i].todo) {
      HandlersOrdered(rs[i]);
      OrderedAscends(ProgramOf(rs[i]), {}, []);
      assert Ops(ProgramOf(rs[i])) + [] == ts[i].todo;
    }
    RunInv(ts, schedule);
    var end := Run(ts, schedule);
    if i: nat :| i < |end| && end[i].todo != [] {
      var k := SomeoneSteps(end, i);
      assert CanStep(end, k);
    }
  }

  // ---- what a handler that blocks does to the others ----

  /** The thread holds the project session and is about to take it again. */
  predicate HoldsForEver(ts: seq<Thread>, i: nat) {
    i < |ts| && ProjectSession in ts[i].held && ts[i].todo != [] && ts[i].todo[0] == Take(ProjectSession)
  }

  predicate AboutToParse(ts: seq<Thread>, i: nat) {
    i < |ts| && ts[i] == Thread({}, Ops(ProgramOf(ParseConfigFile(true))))
  }

  lemma {:induction false} ParsingStep(ts: seq<Thread>, i: nat, k: nat)
    requires (AboutToParse(ts, i) || HoldsForEver(ts, i)) && CanStep(ts, k)
    ensures AboutToParse(Step(ts, k), i) || HoldsForEver(Step(ts, k), i)
    ensures HoldsForEver(ts, i) ==> HoldsForEver(Step(ts, k), i) && ts[k].todo[0] != Take(ProjectSession)
  {
    assert HoldsForEver(ts, i) ==> !IsFree(ts, ProjectSession);
    assert Ops(ProgramOf(ParseConfigFile(true))) ==
           [Take(ProjectSession)] + [Take(ProjectSession), Drop(ProjectSession)] + [Drop(ProjectSession)];
  }

  lemma {:induction false} ParsingRun(ts: seq<Thread>, i: nat, schedule: seq<nat>)
    requires (AboutToParse(ts, i) || HoldsForEver(ts, i)) && ValidSchedule(ts, schedule)
    ensures AboutToParse(Run(ts, schedule), i) || HoldsForEver(Run(ts, schedule), i)
    ensures HoldsForEver(ts, i) ==> HoldsForEver(Run(ts, schedule), i)
    decreases |schedule|
  {
    hide AboutToParse, HoldsForEver;
    if schedule != [] {
      ParsingStep(ts, i, schedule[0]);
      ParsingRun(Step(ts, schedule[0]), i, schedule[1..]);
    }
  }

  /** However handlers interleave, parsing a readable configuration file has not begun, or else it holds the project
    * session, which then nobody gets any more, whatever comes next.
    */
  lemma {:induction false} ProjectSessionLost(rs: seq<Request>, i: nat, schedule: seq<nat>, later: seq<nat>)
    requires i < |rs| && rs[i] == ParseConfigFile(true) && ValidSchedule(Started(rs), schedule)
    ensures var ts := Run(Started(rs), schedule);
            || AboutToParse(ts, i)
            || (HoldsForEver(ts, i)
                && (ValidSchedule(ts, later) ==>
                      && HoldsForEver(Run(ts, later), i)
                      && forall k: nat :: CanStep(Run(ts, later), k) ==>
                           Run(ts, later)[k].todo[0] != Take(ProjectSession)))
  {
    assert AboutToParse(Started(rs), i);
    ParsingRun(Started(rs), i, schedule);
    var ts := Run(Started(rs), schedule);
    hide AboutToParse, HoldsForEver, CanStep, Run;
    if HoldsForEver(ts, i) && ValidSchedule(ts, later) {
      ParsingRun(ts, i, later);
      forall k: nat | CanStep(Run(ts, later), k)
        ensures k < |Run(ts, later)| && Run(ts, later)[k].todo != []
                && Run(ts, later)[k].todo[0] != Take(ProjectSession)
      {
        ParsingStep(Run(ts, later), i, k);
        assert CanStep(Run(ts, later), k);
      }
    }
  }
}
