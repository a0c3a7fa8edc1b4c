/**
  * The server's threads: one that accepts connections, one for each connection, one that joins the threads of
  * terminated connections, and the caller of stop(). Every access to a flag, and every region under a mutex, is
  * a step of its own; the scan holds the list mutex from its first step to its last.
  */
module ServerGc {
  /** A connection's thread; it calls setTerminated() once, or twice when its upgrade fails. */
  datatype Place =
    | Serving(calls: nat)       // calls of setTerminated() still to come
    | InCallback(calls: nat)    // the terminated flag is set
    | Notifying(calls: nat)     // the collector's flag is set
    | Gone                      // the thread function has returned

  datatype Connection = Connection(
    place: Place,
    terminated: bool,
    signalled: bool,            // a callback has been through its critical section
    joined: nat)                // how often the thread was joined

  datatype Collector =
    | Beginning                 // about to take the list mutex
    | Scanning(at: nat)         // holding it, at this position
    | Reaping(at: nat)          // holding it, joining the thread at this position
    | Deciding                  // about to test the stop flag
    | Counting                  // has seen it, about to count
    | Testing                   // about to test it again
    | Entering                  // about to take the mutex of the condition variable
    | Asleep(woken: bool)       // waiting, and whether it has been notified
    | Left

  datatype Stopper = Running | Halting | Clearing | Setting | Waking | Waiting | Stopped

  datatype Server = Server(
    connections: seq<Connection>,
    listed: seq<nat>,           // the list of connections, by index
    accepting: bool,            // the accept thread runs
    canContinue: bool,
    stop: bool, stopGc: bool,
    collector: Collector,
    stopper: Stopper)

  const START := Server([], [], true, false, false, false, Beginning, Running)

  datatype Step =
    | Launch(calls: nat) | LeaveAccept
    | SetTerminated(i: nat) | SetFlag(i: nat) | Notify(i: nat)
    | Collect | Wake
    | StopAccept | JoinAccept | StopGc | StopFlag | StopNotify | JoinGc

  function Update(s: Server, i: nat, c: Connection): Server
    requires i < |s.connections|
  {
    s.(connections := s.connections[i := c])
  }

  predicate HoldsList(c: Collector) { c.Scanning? || c.Reaping? }

  /** A notification reaches the collector only if it sleeps. */
  function Notified(c: Collector): Collector { if c.Asleep? then Asleep(true) else c }

  function Without(listed: seq<nat>, at: nat): seq<nat>
    requires at < |listed|
  {
    listed[..at] + listed[at + 1..]
  }

  /** The collector waits for a thread that it joins, and for a notification when it sleeps. */
  predicate CanCollect(s: Server) {
    match s.collector
    case Reaping(at) =>
      at < |s.listed| && s.listed[at] < |s.connections| && s.connections[s.listed[at]].place == Gone
    case Asleep(_) => false
    case Left => false
    case _ => true
  }

  function Scan(s: Server, at: nat): Server {
    if at >= |s.listed| || s.listed[at] >= |s.connections| then s.(collector := Deciding)
    else if s.connections[s.listed[at]].terminated then s.(collector := Reaping(at))
    else s.(collector := Scanning(at + 1))
  }

  function Reap(s: Server, at: nat): Server
    requires at < |s.listed| && s.listed[at] < |s.connections|
  {
    var i := s.listed[at];
    var c := s.connections[i];
    Update(s, i, c.(joined := c.joined + 1)).(listed := Without(s.listed, at), collector := Scanning(at))
  }

  function Collected(s: Server): Server
    requires CanCollect(s)
  {
    match s.collector
    case Beginning => s.(collector := Scanning(0))
    case Scanning(at) => Scan(s, at)
    case Reaping(at) => Reap(s, at)
    case Deciding => s.(collector := if s.stopGc then Counting else Testing)
    case Counting => s.(collector := if s.listed == [] then Left else Testing)
    case Testing => s.(collector := if s.stopGc then Beginning else Entering)
    case Entering =>
      if s.canContinue then s.(canContinue := false, collector := Beginning) else s.(collector := Asleep(false))
    case _ => s
  }

  predicate Next(s: Server, step: Step, t: Server) {
    match step
    case Launch(calls) =>
      && s.accepting && !HoldsList(s.collector) && calls >= 1
      && t == s.(connections := s.connections + [Connection(Serving(calls), false, false, 0)],
                 listed := s.listed + [|s.connections|])
    case LeaveAccept => s.accepting && s.stop && t == s.(accepting := false)
    case SetTerminated(i) =>
      && i < |s.connections| && s.connections[i].place.Serving? && s.connections[i].place.calls > 0
      && var c := s.connections[i];
         t == Update(s, i, c.(terminated := true, place := InCallback(c.place.calls - 1)))
    case SetFlag(i) =>
      && i < |s.connections| && s.connections[i].place.InCallback?
      && var c := s.connections[i];
         t == Update(s, i, c.(signalled := true, place := Notifying(c.place.calls))).(canContinue := true)
    case Notify(i) =>
      && i < |s.connections| && s.connections[i].place.Notifying?
      && var c := s.connections[i];
         var place := if c.place.calls > 0 then Serving(c.place.calls) else Gone;
         t == Update(s, i, c.(place := place)).(collector := Notified(s.collector))
    case Collect => CanCollect(s) && t == Collected(s)
    case Wake =>                                    // notified, or for no reason at all
      && s.collector.Asleep?
      && t == if s.canContinue then s.(canContinue := false, collector := Beginning)
              else s.(collector := Asleep(false))
    case StopAccept => s.stopper == Running && t == s.(stop := true, stopper := Halting)
    case JoinAccept => s.stopper == Halting && !s.accepting && t == s.(stopper := Clearing)
    case StopGc => s.stopper == Clearing && t == s.(stopGc := true, stopper := Setting)
    case StopFlag => s.stopper == Setting && t == s.(canContinue := true, stopper := Waking)
    case StopNotify => s.stopper == Waking && t == s.(collector := Notified(s.collector), stopper := Waiting)
    case JoinGc => s.stopper == Waiting && s.collector == Left && t == s.(stopper := Stopped)
  }

  // ---- What every step keeps ----

  /** The list holds the threads that are not joined, each once; no thread is joined twice. */
  ghost predicate Listed(s: Server) {
    && (forall p :: 0 <= p < |s.listed| ==> s.listed[p] < |s.connections|)
    && (forall p, q :: 0 <= p < q < |s.listed| ==> s.listed[p] != s.listed[q])
    && (forall i :: 0 <= i < |s.connections| ==>
          s.connections[i].joined <= 1 && (s.connections[i].joined == 0 <==> i in s.listed))
  }

  ghost predicate Connected(c: Connection) {
    && (c.signalled ==> c.terminated)
    && (c.place.InCallback? || c.place.Notifying? || c.place == Gone ==> c.terminated)
    && (c.place.Notifying? || c.place == Gone ==> c.signalled)
    && (c.place.Serving? ==> c.place.calls > 0)
    && (c.joined > 0 ==> c.place == Gone)
  }

  ghost predicate AllConnected(s: Server) {
    forall i :: 0 <= i < |s.connections| ==> Connected(s.connections[i])
  }

  ghost predicate CollectorFine(s: Server)
    requires Listed(s)
  {
    match s.collector
    case Scanning(at) => at <= |s.listed|
    case Reaping(at) => at < |s.listed| && s.connections[s.listed[at]].terminated
    case Counting => s.stopGc
    case Left => s.stopGc && s.listed == []
    case _ => true
  }

  ghost predicate StopperFine(s: Server) {
    && (s.stopGc <==> !s.stopper.Running? && !s.stopper.Halting? && !s.stopper.Clearing?)
    && (s.stopGc || s.stopper.Clearing? ==> !s.accepting)
  }

  /** A scan that has not come past this position is still to be run, or running. */
  predicate WillScan(c: Collector, p: int) {
    match c
    case Beginning => true
    case Scanning(at) => at <= p
    case Reaping(at) => at <= p
    case _ => false
  }

  /** A connection in the list whose callback is through is not stranded. */
  ghost predicate NoneStranded(s: Server)
    requires Listed(s)
  {
    forall p :: 0 <= p < |s.listed| && s.connections[s.listed[p]].signalled ==>
      s.canContinue || WillScan(s.collector, p)
  }

  ghost predicate SomeoneNotifies(s: Server) {
    s.stopper == Waking || exists i :: 0 <= i < |s.connections| && s.connections[i].place.Notifying?
  }

  /** The collector does not sleep through its flag, nor through a stop. */
  ghost predicate NoLostWakeup(s: Server) {
    && (s.collector.Asleep? && s.canContinue ==> s.collector.woken || SomeoneNotifies(s))
    && (s.stopGc && s.stopper != Setting && s.collector.Asleep? ==> s.canContinue)
    && (s.stopGc && s.stopper != Setting && s.collector == Entering ==> s.canContinue)
  }

  ghost predicate Inv(s: Server) {
    && Listed(s) && AllConnected(s) && CollectorFine(s) && StopperFine(s) && NoneStranded(s) && NoLostWakeup(s)
  }

  // ---- Step by step ----

  lemma LaunchKeepsList(s: Server, step: Step, t: Server)
    requires Inv(s) && step.Launch? && Next(s, step, t)
    ensures Listed(t) && AllConnected(t) && CollectorFine(t) && NoneStranded(t)
  {
    assert t.listed[|s.listed|] == |s.connections|;
  }

  lemma LaunchKeeps(s: Server, step: Step, t: Server)
    requires Inv(s) && step.Launch? && Next(s, step, t)
    ensures Inv(t)
  {
    LaunchKeepsList(s, step, t);
    if SomeoneNotifies(s) && s.stopper != Waking {
      var i :| 0 <= i < |s.connections| && s.connections[i].place.Notifying?;
      assert t.connections[i].place.Notifying?;
    }
  }

  /** A change of one connection that leaves the list alone. */
  lemma ChangeKeepsList(s: Server, i: nat, c: Connection)
    requires Listed(s) && AllConnected(s) && CollectorFine(s) && i < |s.connections|
    requires Connected(c) && c.joined == s.connections[i].joined && (s.connections[i].terminated ==> c.terminated)
    ensures Listed(Update(s, i, c)) && AllConnected(Update(s, i, c)) && CollectorFine(Update(s, i, c))
  {
  }

  /** A thread's own step leaves the list alone, and no connection but its own. */
  lemma ThreadKeepsList(s: Server, step: Step, t: Server)
    requires Inv(s) && (step.SetTerminated? || step.SetFlag? || step.Notify?) && Next(s, step, t)
    ensures Listed(t) && AllConnected(t) && CollectorFine(t) && StopperFine(t) && NoneStranded(t)
  {
    ChangeKeepsList(s, step.i, t.connections[step.i]);
  }

  lemma ThreadKeepsWakeup(s: Server, step: Step, t: Server)
    requires Inv(s) && (step.SetTerminated? || step.SetFlag? || step.Notify?) && Next(s, step, t)
    ensures NoLostWakeup(t)
  {
    if step.SetFlag? {
      assert t.connections[step.i].place.Notifying?;
    }
    if step.SetTerminated? && SomeoneNotifies(s) && s.stopper != Waking {
      var i :| 0 <= i < |s.connections| && s.connections[i].place.Notifying?;
      assert t.connections[i].place.Notifying?;
    }
  }

  lemma ThreadKeeps(s: Server, step: Step, t: Server)
    requires Inv(s) && (step.SetTerminated? || step.SetFlag? || step.Notify?) && Next(s, step, t)
    ensures Inv(t)
  {
    ThreadKeepsList(s, step, t);
    ThreadKeepsWakeup(s, step, t);
  }

  lemma ReapKeeps(s: Server, at: nat)
    requires Inv(s) && s.collector == Reaping(at) && CanCollect(s)
    ensures Inv(Reap(s, at))
  {
    var t := Reap(s, at);
    forall i | 0 <= i < |t.connections|
      ensures t.connections[i].joined <= 1 && (t.connections[i].joined == 0 <==> i in t.listed)
    {
      RemovedOnly(s.listed, at, i);
    }
    forall p | 0 <= p < |t.listed| && t.connections[t.listed[p]].signalled
      ensures t.canContinue || WillScan(t.collector, p)
    {
      assert t.listed[p] == s.listed[if p < at then p else p + 1];
    }
  }

  lemma RemovedOnly(listed: seq<nat>, at: nat, i: nat)
    requires at < |listed| && forall p, q :: 0 <= p < q < |listed| ==> listed[p] != listed[q]
    ensures i in Without(listed, at) <==> i in listed && i != listed[at]
  {
    if i in listed && i != listed[at] {
      var p :| 0 <= p < |listed| && listed[p] == i;
      assert Without(listed, at)[if p < at then p else p - 1] == i;
    }
  }

  /** The scan comes past a connection only if that is not terminated. */
  lemma ScanStrandsNone(s: Server, at: nat)
    requires Inv(s) && s.collector == Scanning(at)
    ensures NoneStranded(Scan(s, at))
  {
    assert AllConnected(s);
  }

  lemma ScanKeeps(s: Server, at: nat)
    requires Inv(s) && s.collector == Scanning(at)
    ensures Inv(Scan(s, at))
  {
    ScanStrandsNone(s, at);
  }

  lemma PassKeeps(s: Server)
    requires Inv(s) && CanCollect(s) && !HoldsList(s.collector)
    ensures Inv(Collected(s))
  {
    if SomeoneNotifies(s) && s.stopper != Waking {
      var i :| 0 <= i < |s.connections| && s.connections[i].place.Notifying?;
      assert Collected(s).connections[i].place.Notifying?;
    }
  }

  lemma CollectKeeps(s: Server, t: Server)
    requires Inv(s) && Next(s, Collect, t)
    ensures Inv(t)
  {
    match s.collector {
      case Scanning(at) => ScanKeeps(s, at);
      case Reaping(at) => ReapKeeps(s, at);
      case _ => PassKeeps(s);
    }
  }

  lemma StopKeeps(s: Server, step: Step, t: Server)
    requires Inv(s) && Next(s, step, t)
    requires step.LeaveAccept? || step.StopAccept? || step.JoinAccept? || step.StopGc? || step.JoinGc? || step.Wake?
    ensures Inv(t)
  {
    if SomeoneNotifies(s) && s.stopper != Waking {
      var i :| 0 <= i < |s.connections| && s.connections[i].place.Notifying?;
      assert t.connections[i].place.Notifying?;
    }
  }

  lemma StopNotifyKeeps(s: Server, step: Step, t: Server)
    requires Inv(s) && Next(s, step, t) && (step.StopFlag? || step.StopNotify?)
    ensures Inv(t)
  {
  }

  lemma StepKeeps(s: Server, step: Step, t: Server)
    requires Inv(s) && Next(s, step, t)
    ensures Inv(t)
  {
    match step {
      case Launch(_) => LaunchKeeps(s, step, t);
      case SetTerminated(_) => ThreadKeeps(s, step, t);
      case SetFlag(_) => ThreadKeeps(s, step, t);
      case Notify(_) => ThreadKeeps(s, step, t);
      case Collect => CollectKeeps(s, t);
      case StopFlag => StopNotifyKeeps(s, step, t);
      case StopNotify => StopNotifyKeeps(s, step, t);
      case _ => StopKeeps(s, step, t);
    }
  }

  ghost predicate IsRun(run: seq<Server>, steps: seq<Step>) {
    && |run| == |steps| + 1 && run[0] == START
    && forall i :: 0 <= i < |steps| ==> Next(run[i], steps[i], run[i + 1])
  }

  lemma {:induction false} RunKeeps(run: seq<Server>, steps: seq<Step>, n: nat)
    requires IsRun(run, steps) && n <= |steps|
    ensures Inv(run[n])
    decreases n
  {
    if n > 0 {
      RunKeeps(run, steps, n - 1);
      StepKeeps(run[n - 1], steps[n - 1], run[n]);
    }
  }

  // ---- The results ----

  /** A listed connection whose callback is through, but that nothing will lead the collector to. */
  predicate IsStranded(s: Server, p: nat)
    requires p < |s.listed| && s.listed[p] < |s.connections|
  {
    s.connections[s.listed[p]].signalled && !s.canContinue && !WillScan(s.collector, p)
  }

  /**
    * In every interleaving of the accept thread, any number of connection threads, the collector and stop():
    * a listed connection whose callback is through is found by a scan that is under way or still to come, or
    * the collector's flag is set; and if it is set while the collector sleeps, the collector has been notified or
    * is about to be.
    */
  lemma NoConnectionIsStranded(run: seq<Server>, steps: seq<Step>, n: nat, p: nat)
    requires IsRun(run, steps) && n <= |steps| && p < |run[n].listed|
    ensures run[n].listed[p] < |run[n].connections| && !IsStranded(run[n], p)
    ensures run[n].collector.Asleep? && run[n].canContinue ==> run[n].collector.woken || SomeoneNotifies(run[n])
  {
    RunKeeps(run, steps, n);
  }

  /** No thread is joined twice, and none before its function has returned. */
  lemma JoinedAtMostOnce(run: seq<Server>, steps: seq<Step>, n: nat, i: nat)
    requires IsRun(run, steps) && n <= |steps| && i < |run[n].connections|
    ensures run[n].connections[i].joined <= 1
    ensures run[n].connections[i].joined == 1 ==> run[n].connections[i].place == Gone
    ensures run[n].connections[i].joined == 0 <==> i in run[n].listed
  {
    RunKeeps(run, steps, n);
  }

  /** When the collector has left, the list is empty for good and every launched thread was joined, once. */
  lemma AllJoinedInTheEnd(run: seq<Server>, steps: seq<Step>, n: nat)
    requires IsRun(run, steps) && n <= |steps| && run[n].collector == Left
    ensures run[n].listed == [] && !run[n].accepting
    ensures forall i :: 0 <= i < |run[n].connections| ==> run[n].connections[i].joined == 1
  {
    RunKeeps(run, steps, n);
  }

  /** The collector joins a thread that still runs. */
  predicate WaitsForThread(s: Server) {
    && s.collector.Reaping? && s.collector.at < |s.listed| && s.listed[s.collector.at] < |s.connections|
    && s.connections[s.listed[s.collector.at]].place != Gone
  }

  /** stop() does not wait in vain: unless the collector joins a thread that still runs, it can take a step. */
  lemma StopWaitsForConnectionsOnly(run: seq<Server>, steps: seq<Step>, n: nat)
    requires IsRun(run, steps) && n <= |steps| && run[n].stopper == Waiting
    ensures var s := run[n];
      || s.collector == Left
      || CanCollect(s)
      || (s.collector.Asleep? && s.canContinue && (s.collector.woken || SomeoneNotifies(s)))
      || WaitsForThread(s)
  {
    RunKeeps(run, steps, n);
  }
}
