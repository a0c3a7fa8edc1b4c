/**
  * The streaming client: a calling thread that starts, stops and restarts it, and a supervisor thread that
  * connects, runs sessions and paces reconnects. Regions under the socket mutex are single steps.
  */
module Supervisor {
  import opened Frames
  import opened Backoff

  /** What the state callback is told. */
  datatype Report = Connecting | Running | Error | Stopped

  /** Where a supervisor is in its loop. */
  datatype Place =
    | Loop                      // about to test the streaming flag
    | Announcing                // about to report Connecting
    | Preparing                 // about to publish its socket
    | InRun                     // in run(), its socket published
    | TearingDown               // run() has returned
    | Checking                  // the socket is taken back
    | Sleeping(ticks: nat)      // tenths of a second still to sleep
    | Ending                    // left the loop
    | Finished                  // has reported Stopped

  datatype Thread = Thread(
    place: Place,
    seconds: nat,               // the back-off
    reachedRunning: bool, serverRejected: bool, errorReported: bool,
    ended: bool,                // the session has seen an Error or a Close event
    trace: seq<Report>,         // what it has reported
    outcomes: seq<Outcome>,     // the sessions it went on after
    waits: seq<nat>)            // and how long it waited after each

  datatype Socket = Socket(closed: bool)

  /** What the calling thread is doing. The flag says that a Stop belongs to a Restart. */
  datatype Caller =
    | Idle
    | Starting                  // has seen that nothing is streaming
    | Launching                 // has set the streaming flag
    | Stopping(again: bool)     // has cleared it
    | Joining(again: bool)      // has left the critical section

  datatype Client = Client(
    streaming: bool,
    socket: Option<Socket>,
    handle: Option<nat>,        // the thread that has not been joined
    threads: seq<Thread>,       // all supervisors there have been
    caller: Caller)

  const NEW := Thread(Loop, INITIAL, false, false, false, false, [], [], [])
  const START := Client(false, None, None, [], Idle)

  /** Events of a session that its message callback sees. */
  datatype Event = Opened | Rejected | OtherMessage | Failed | Closed

  datatype Step =
    | CallStart | ReapOld | SetStreaming | Launch
    | CallStop | CallRestart | CloseSocket | Join
    | Work(i: nat)
    | Happen(i: nat, event: Event)

  // ---- The supervisor's steps ----

  function Say(t: Thread, r: Report): Thread { t.(trace := t.trace + [r]) }

  function Paced(t: Thread): Thread {
    var o := Outcome(t.reachedRunning, t.serverRejected);
    var seconds := Chosen(t.seconds, o);
    t.(place := Sleeping(seconds * 10), seconds := seconds, outcomes := t.outcomes + [o], waits := t.waits + [seconds])
  }

  /** What a step does to the supervisor itself. */
  function Moved(t: Thread, streaming: bool): Thread {
    match t.place
    case Loop => t.(place := if streaming then Announcing else Ending)
    case Announcing =>
      var begun := t.(place := Preparing, reachedRunning := false, serverRejected := false, errorReported := false,
                      ended := false);
      Say(begun, Connecting)
    case Preparing => t.(place := if streaming then InRun else Ending)
    case InRun => t.(place := TearingDown)
    case TearingDown => t.(place := Checking)
    case Checking => if streaming then Paced(t) else t.(place := Ending)
    case Sleeping(ticks) =>
      if ticks > 0 && streaming then t.(place := Sleeping(ticks - 1))
      else t.(place := Loop, seconds := Min(t.seconds * 2, MAX))
    case Ending => Say(t.(place := Finished), Stopped)
    case Finished => t
  }

  /** The socket is published if streaming is still on, and taken back after run(), in the same step. */
  function SocketAfter(c: Client, place: Place): Option<Socket> {
    if place == Preparing && c.streaming then Some(Socket(false)) else if place == TearingDown then None else c.socket
  }

  function Worked(c: Client, i: nat): Client
    requires i < |c.threads|
  {
    var t := c.threads[i];
    c.(threads := c.threads[i := Moved(t, c.streaming)], socket := SocketAfter(c, t.place))
  }

  /** run() returns when its session has ended, which an Error or a Close event says; nothing else is waited for. */
  predicate CanWork(t: Thread) { t.place != Finished && (t.place == InRun ==> t.ended) }

  function Happened(streaming: bool, t: Thread, e: Event): Thread {
    match e
    case Opened => Say(t.(reachedRunning := true), Running)
    case Rejected => Say(t.(errorReported := true, serverRejected := true), Error)
    case OtherMessage => t
    case Failed => Say(t.(errorReported := true, ended := true), Error)
    case Closed =>
      var over := t.(ended := true);
      if streaming && !t.errorReported then Say(over, Error) else over
  }

  predicate Next(c: Client, step: Step, c': Client) {
    match step
    case CallStart =>
      c.caller == Idle && c' == if c.streaming then c else c.(caller := Starting)
    case ReapOld =>
      && c.caller == Starting && c.handle.Some? && c.handle.value < |c.threads|
      && c.threads[c.handle.value].place == Finished
      && c' == c.(handle := None)
    case SetStreaming =>
      c.caller == Starting && c.handle == None && c' == c.(streaming := true, caller := Launching)
    case Launch =>
      c.caller == Launching && c' == c.(threads := c.threads + [NEW], handle := Some(|c.threads|), caller := Idle)
    case CallStop =>
      c.caller == Idle && c' == c.(streaming := false, caller := Stopping(false))
    case CallRestart =>
      c.caller == Idle && c' == if c.streaming then c.(streaming := false, caller := Stopping(true)) else c
    case CloseSocket =>
      && c.caller.Stopping?
      && c' == c.(socket := if c.socket.Some? then Some(Socket(true)) else None, caller := Joining(c.caller.again))
    case Join =>
      && c.caller.Joining?
      && (c.handle.Some? ==> c.handle.value < |c.threads| && c.threads[c.handle.value].place == Finished)
      && c' == c.(handle := None, caller := if c.caller.again then Starting else Idle)
    case Work(i) => i < |c.threads| && CanWork(c.threads[i]) && c' == Worked(c, i)
    case Happen(i, e) =>
      && i < |c.threads| && c.threads[i].place == InRun && (e == Opened ==> !c.threads[i].reachedRunning)
      && c' == c.(threads := c.threads[i := Happened(c.streaming, c.threads[i], e)])
  }

  predicate Alive(c: Client, i: int) { 0 <= i < |c.threads| && c.threads[i].place != Finished }

  // ---- Stop never misses a socket ----

  predicate Publishing(p: Place) { p == InRun || p == TearingDown }

  predicate Over(p: Place) { p == Ending || p == Finished }

  ghost predicate OneAtATime(c: Client) {
    var last := |c.threads| - 1;
    && (forall i :: 0 <= i < last ==> c.threads[i].place == Finished)
    && (c.handle == None ==> last < 0 || c.threads[last].place == Finished)
    && (c.handle.Some? ==> c.handle.value == last && 0 <= last)
    && (c.socket.Some? <==> 0 <= last && Publishing(c.threads[last].place))
  }

  ghost predicate CallerFine(c: Client)
    requires OneAtATime(c)
  {
    && (c.handle.Some? && Over(c.threads[|c.threads| - 1].place) ==> !c.streaming)
    && match c.caller
       case Idle => c.streaming <==> c.handle.Some?
       case Starting => c.handle == None && !c.streaming
       case Launching => c.handle == None && c.streaming
       case Stopping(_) => !c.streaming
       case Joining(_) => !c.streaming && (c.socket.Some? ==> c.socket.value.closed)
  }

  ghost predicate Inv(c: Client) { OneAtATime(c) && CallerFine(c) }

  lemma CallKeeps(c: Client, step: Step, c': Client)
    requires Inv(c) && Next(c, step, c') && !step.Work? && !step.Happen?
    ensures Inv(c')
  {
  }

  lemma OnlyTheLastWorks(c: Client, i: nat)
    requires OneAtATime(c) && i < |c.threads| && c.threads[i].place != Finished
    ensures i == |c.threads| - 1 && c.handle == Some(i)
  {
  }

  lemma WorkKeeps(c: Client, i: nat, c': Client)
    requires Inv(c) && Next(c, Work(i), c')
    ensures Inv(c')
  {
    OnlyTheLastWorks(c, i);
  }

  lemma HappenKeeps(c: Client, i: nat, e: Event, c': Client)
    requires Inv(c) && Next(c, Happen(i, e), c')
    ensures Inv(c')
  {
    OnlyTheLastWorks(c, i);
  }

  lemma StepKeeps(c: Client, step: Step, c': Client)
    requires Inv(c) && Next(c, step, c')
    ensures Inv(c')
  {
    match step {
      case Work(i) => WorkKeeps(c, i, c');
      case Happen(i, e) => HappenKeeps(c, i, e, c');
      case _ => CallKeeps(c, step, c');
    }
  }

  ghost predicate IsRun(run: seq<Client>, steps: seq<Step>) {
    && |run| == |steps| + 1 && run[0] == START
    && forall i :: 0 <= i < |steps| ==> Next(run[i], steps[i], run[i + 1])
  }

  lemma {:induction false} RunKeeps(run: seq<Client>, steps: seq<Step>, n: nat)
    requires IsRun(run, steps) && n <= |steps|
    ensures Inv(run[n])
    decreases n
  {
    if n > 0 {
      RunKeeps(run, steps, n - 1);
      StepKeeps(run[n - 1], steps[n - 1], run[n]);
    }
  }

  /** The last supervisor that was launched, and none of the sockets that may be published is still open. */
  ghost predicate Doomed(c: Client, last: nat) {
    |c.threads| == last + 1 ==>
      && (c.socket.Some? ==> c.socket.value.closed)
      && ((c.caller.Joining? && !c.streaming) || c.threads[last].place == Finished)
  }

  lemma DoomedStays(c: Client, step: Step, c': Client, last: nat)
    requires Inv(c) && Next(c, step, c') && Doomed(c, last) && last < |c.threads|
    ensures Doomed(c', last)
  {
    StepKeeps(c, step, c');
    if step.Work? {
      OnlyTheLastWorks(c, step.i);
    }
    if step.Happen? {
      OnlyTheLastWorks(c, step.i);
    }
  }

  /**
    * In every interleaving of Start, Stop and Restart with the supervisor: once a Stop has left its critical
    * section, at any later time at which no new supervisor was launched, a socket that is published has had
    * close() called.
    */
  lemma {:induction false} StopMissesNoSocket(run: seq<Client>, steps: seq<Step>, n: nat, m: nat)
    requires IsRun(run, steps) && n <= m <= |steps| && run[n].caller.Joining? && run[n].threads != []
    ensures Doomed(run[m], |run[n].threads| - 1) && |run[n].threads| <= |run[m].threads|
    ensures |run[m].threads| == |run[n].threads| && run[m].socket.Some? ==> run[m].socket.value.closed
    decreases m
  {
    RunKeeps(run, steps, n);
    if n < m {
      StopMissesNoSocket(run, steps, n, m - 1);
      RunKeeps(run, steps, m - 1);
      DoomedStays(run[m - 1], steps[m - 1], run[m], |run[n].threads| - 1);
    }
  }

  /**
    * There is at most one supervisor at a time, and while it lives the streaming flag only falls. The branch of
    * Start that joins an old thread is never taken, and no thread object is assigned to while it can be joined.
    */
  lemma OneSupervisor(run: seq<Client>, steps: seq<Step>, n: nat)
    requires IsRun(run, steps) && n < |steps|
    ensures forall i, j :: Alive(run[n], i) && Alive(run[n], j) ==> i == j
    ensures (exists i :: Alive(run[n], i)) && run[n + 1].streaming ==> run[n].streaming
    ensures steps[n] != ReapOld
    ensures steps[n] == Launch ==> run[n].handle == None
  {
    RunKeeps(run, steps, n);
    if i :| Alive(run[n], i) {
      OnlyTheLastWorks(run[n], i);
    }
  }

  // ---- Stop returns ----

  /** Steps a supervisor has left when nothing is streaming any more. */
  function Rank(p: Place): nat {
    match p
    case Announcing => 8
    case Preparing => 7
    case InRun => 6
    case TearingDown => 5
    case Checking => 4
    case Sleeping(_) => 3
    case Loop => 2
    case Ending => 1
    case Finished => 0
  }

  /** While a Stop is joining, every step of the supervisor itself brings it closer to its end. */
  lemma JoiningEnds(c: Client, i: nat, c': Client)
    requires Inv(c) && c.caller.Joining? && Next(c, Work(i), c')
    ensures !c'.streaming && c'.caller == c.caller && |c'.threads| == |c.threads|
    ensures Rank(c'.threads[i].place) < Rank(c.threads[i].place)
  {
  }

  // ---- What a supervisor reports ----

  /** Reading a trace: nothing yet, in a session, after Stopped, or out of order. */
  datatype Scan = Nothing | Session(running: bool, error: bool) | Complete | Disorder

  function Read(s: Scan, r: Report): Scan {
    match r
    case Connecting => if s == Nothing || (s.Session? && s.error) then Session(false, false) else Disorder
    case Running => if s.Session? && !s.running then Session(true, s.error) else Disorder
    case Error => if s.Session? then Session(s.running, true) else Disorder
    case Stopped => if s == Nothing || s.Session? then Complete else Disorder
  }

  function ReadAll(trace: seq<Report>): Scan {
    if trace == [] then Nothing else Read(ReadAll(trace[..|trace| - 1]), trace[|trace| - 1])
  }

  lemma ReadSnoc(trace: seq<Report>, r: Report)
    ensures ReadAll(trace + [r]) == Read(ReadAll(trace), r)
  {
    assert (trace + [r])[..|trace|] == trace;
  }

  predicate Between(trace: seq<Report>, r: Report, i: int, j: int) {
    exists k :: 0 <= k < |trace| && i < k < j && trace[k] == r
  }

  /** What an orderly trace means. */
  ghost predicate Orderly(trace: seq<Report>) {
    && (forall i :: 0 <= i < |trace| && trace[i] == Stopped ==> i == |trace| - 1)
    && (forall i, j :: 0 <= i < j < |trace| && trace[i] == Connecting && trace[j] == Connecting ==>
          Between(trace, Error, i, j))
    && (forall i, j :: 0 <= i < j < |trace| && trace[i] == Running && trace[j] == Running ==>
          Between(trace, Connecting, i, j))
    && (forall j :: 0 <= j < |trace| && trace[j] == Running ==> Between(trace, Connecting, -1, j))
  }

  /** What the scan of a trace knows about it: c is where the last session began. */
  ghost predicate Scanned(trace: seq<Report>, s: Scan, c: int) {
    match s
    case Nothing => trace == []
    case Session(running, error) =>
      && 0 <= c < |trace| && trace[c] == Connecting
      && (forall k :: c < k < |trace| ==> trace[k] != Connecting)
      && (forall k :: 0 <= k < |trace| ==> trace[k] != Stopped)
      && (error ==> Between(trace, Error, c, |trace|))
      && (!running ==> forall k :: c < k < |trace| ==> trace[k] != Running)
    case Complete => true
    case Disorder => false
  }

  lemma BetweenMore(trace: seq<Report>, more: Report)
    ensures forall r, i, j :: Between(trace, r, i, j) ==> Between(trace + [more], r, i, j)
  {
    forall r, i, j | Between(trace, r, i, j) ensures Between(trace + [more], r, i, j) {
      var k :| 0 <= k < |trace| && i < k < j && trace[k] == r;
      assert (trace + [more])[k] == r;
    }
  }

  /** One more report keeps a trace orderly, if the scan does not find disorder. */
  lemma OneMoreReport(trace: seq<Report>, s: Scan, c: int, r: Report) returns (c': int)
    requires Orderly(trace) && Scanned(trace, s, c) && s != Complete && Read(s, r) != Disorder
    ensures Orderly(trace + [r]) && Scanned(trace + [r], Read(s, r), c')
  {
    var more := trace + [r];
    var last := |trace|;
    BetweenMore(trace, r);
    c' := if r == Connecting then last else c;
    if r == Error {
      assert more[last] == Error;
      assert Between(more, Error, c, |more|);
    }
    if r == Connecting && s.Session? {
      var e :| 0 <= e < |trace| && c < e < |trace| && trace[e] == Error;
      assert more[e] == Error;
    }
    if r == Running {
      assert more[c] == Connecting;
    }
    forall i, j | 0 <= i < j < |more| && more[i] == Connecting && more[j] == Connecting
      ensures Between(more, Error, i, j)
    {
      if j < last {
        assert Between(trace, Error, i, j);
      } else {
        assert i <= c;
      }
    }
    forall i, j | 0 <= i < j < |more| && more[i] == Running && more[j] == Running
      ensures Between(more, Connecting, i, j)
    {
      if j < last {
        assert Between(trace, Connecting, i, j);
      } else {
        assert i < c;
      }
    }
    forall j | 0 <= j < |more| && more[j] == Running ensures Between(more, Connecting, -1, j) {
      if j < last {
        assert Between(trace, Connecting, -1, j);
      }
    }
  }

  /** A trace that scans without disorder is orderly. */
  lemma {:induction false} ScanMeansOrderly(trace: seq<Report>) returns (c: int)
    requires ReadAll(trace) != Disorder
    ensures Orderly(trace) && Scanned(trace, ReadAll(trace), c)
    decreases |trace|
  {
    if trace == [] {
      c := -1;
    } else {
      var before, r := trace[..|trace| - 1], trace[|trace| - 1];
      assert trace == before + [r];
      assert ReadAll(before) != Disorder && ReadAll(before) != Complete;
      var c0 := ScanMeansOrderly(before);
      c := OneMoreReport(before, ReadAll(before), c0, r);
    }
  }

  /** How the scan of a supervisor's reports goes with its place and its flags. */
  ghost predicate Reports(t: Thread, streaming: bool) {
    var s := ReadAll(t.trace);
    match t.place
    case Loop => s == Nothing || (s.Session? && (streaming ==> s.error))
    case Announcing => s == Nothing || (s.Session? && s.error)
    case Preparing => s == Session(false, false) && !t.errorReported && !t.reachedRunning && !t.ended
    case Ending => s == Nothing || s.Session?
    case Finished => s == Complete
    case Sleeping(_) => s.Session? && s.error
    case _ => s.Session? && s.running == t.reachedRunning && (t.errorReported ==> s.error)
              && (t.ended && streaming ==> s.error) && (t.place != InRun ==> t.ended)
  }

  ghost predicate AllReport(c: Client) {
    forall i :: 0 <= i < |c.threads| ==> Reports(c.threads[i], c.streaming)
  }

  lemma HappenReports(t: Thread, streaming: bool, e: Event)
    requires Reports(t, streaming) && t.place == InRun && (e == Opened ==> !t.reachedRunning)
    ensures Reports(Happened(streaming, t, e), streaming)
  {
    ReadSnoc(t.trace, Running);
    ReadSnoc(t.trace, Error);
  }

  lemma WorkReports(t: Thread, streaming: bool)
    requires Reports(t, streaming) && CanWork(t)
    ensures Reports(Moved(t, streaming), streaming)
  {
    if t.place == Announcing {
      ReadSnoc(t.trace, Connecting);
    } else if t.place == Ending {
      ReadSnoc(t.trace, Stopped);
    }
  }

  lemma ReportsKept(c: Client, step: Step, c': Client)
    requires Inv(c) && AllReport(c) && Next(c, step, c')
    ensures AllReport(c')
  {
    match step {
      case Work(i) => WorkReports(c.threads[i], c.streaming);
      case Happen(i, e) => HappenReports(c.threads[i], c.streaming, e);
      case _ =>
    }
  }

  lemma {:induction false} RunReports(run: seq<Client>, steps: seq<Step>, n: nat)
    requires IsRun(run, steps) && n <= |steps|
    ensures AllReport(run[n])
    decreases n
  {
    if n > 0 {
      RunReports(run, steps, n - 1);
      RunKeeps(run, steps, n - 1);
      ReportsKept(run[n - 1], steps[n - 1], run[n]);
    }
  }

  /**
    * What each supervisor reports, in every interleaving: Stopped at most once, and last; Running at most once a
    * session, and only after its Connecting; and an Error between any two sessions. It has reported Stopped
    * exactly when it is finished.
    */
  lemma TracesAreOrderly(run: seq<Client>, steps: seq<Step>, n: nat, i: nat)
    requires IsRun(run, steps) && n <= |steps| && i < |run[n].threads|
    ensures Orderly(run[n].threads[i].trace)
    ensures run[n].threads[i].place == Finished <==> Stopped in run[n].threads[i].trace
  {
    RunReports(run, steps, n);
    var t := run[n].threads[i];
    var c := ScanMeansOrderly(t.trace);
    if t.place == Finished {
      assert t.trace[|t.trace| - 1] == Stopped;
    }
  }

  // ---- How long it waits ----

  ghost predicate FollowRule(waits: seq<nat>, outcomes: seq<Outcome>) {
    |waits| == |outcomes| && forall k :: 0 <= k < |waits| ==> waits[k] == Wait(outcomes[..k + 1])
  }

  ghost predicate Waits(t: Thread) {
    && FollowRule(t.waits, t.outcomes)
    && if t.place.Sleeping? then t.outcomes != [] && t.seconds == Wait(t.outcomes) && t.place.ticks <= 10 * t.seconds
       else t.seconds == Held(t.outcomes)
  }

  lemma PacedWaits(t: Thread)
    requires Waits(t) && !t.place.Sleeping?
    ensures Waits(Paced(t))
  {
    var o := Outcome(t.reachedRunning, t.serverRejected);
    var more := t.outcomes + [o];
    assert more[..|t.outcomes|] == t.outcomes && more[..|more|] == more;
    forall k | 0 <= k < |more| ensures Paced(t).waits[k] == Wait(more[..k + 1]) {
      if k < |t.waits| {
        assert more[..k + 1] == t.outcomes[..k + 1];
      }
    }
  }

  ghost predicate AllWait(c: Client) {
    forall i :: 0 <= i < |c.threads| ==> Waits(c.threads[i])
  }

  lemma WorkWaits(t: Thread, streaming: bool)
    requires Waits(t)
    ensures Waits(Moved(t, streaming))
  {
    if t.place == Checking {
      PacedWaits(t);
    } else if t.place.Sleeping? {
      SleptWaits(t);
    }
  }

  lemma SleptWaits(t: Thread)
    requires Waits(t) && t.place.Sleeping?
    ensures Waits(t.(place := Loop, seconds := Min(t.seconds * 2, MAX)))
  {
    assert Held(t.outcomes) == Min(Wait(t.outcomes) * 2, MAX);
  }

  lemma WaitsKept(c: Client, step: Step, c': Client)
    requires AllWait(c) && Next(c, step, c')
    ensures AllWait(c')
  {
    if step.Work? {
      WorkWaits(c.threads[step.i], c.streaming);
    }
  }

  /** The waits of every supervisor follow the pacing rule, over the sessions it went on after. */
  lemma {:induction false} WaitsFollowTheRule(run: seq<Client>, steps: seq<Step>, n: nat, i: nat)
    requires IsRun(run, steps) && n <= |steps| && i < |run[n].threads|
    ensures FollowRule(run[n].threads[i].waits, run[n].threads[i].outcomes)
  {
    RunWaits(run, steps, n);
  }

  lemma {:induction false} RunWaits(run: seq<Client>, steps: seq<Step>, n: nat)
    requires IsRun(run, steps) && n <= |steps|
    ensures AllWait(run[n])
    decreases n
  {
    if n > 0 {
      RunWaits(run, steps, n - 1);
      WaitsKept(run[n - 1], steps[n - 1], run[n]);
    }
  }
}
