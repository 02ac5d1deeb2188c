/** A checker process as it runs: the set of handlers, the semaphore counter and
    the two streams, updated in place.  Each method is what the process does
    between two suspensions, and is proved to be the step of `Worker` (and so of
    `Pipeline`) that models it. */
module Process {
  import opened Wrappers
  import opened Codec
  import opened Streams
  import opened Worker
  import Probe

  class CheckerProcess {
    const name: string
    const concurrency: nat
    const iso: Iso
    var mode: Mode
    var shutdown: bool
    var permits: nat
    var handlers: map<nat, Phase>
    ghost var read: set<nat>
    ghost var raised: set<nat>
    var tasks: Stream<Wire>
    var results: Stream<Wire>

    ghost function State(): Node
      reads this
    {
      Node(name, mode, shutdown, permits, handlers, read, raised)
    }

    ghost predicate Ready()
      reads this
    {
      && Worker.Valid(State(), concurrency)
      && forall id :: id in handlers ==> id < |tasks.entries|
    }

    constructor (name: string, concurrency: nat, iso: Iso, tasks: Stream<Wire>, results: Stream<Wire>)
      ensures this.concurrency == concurrency && this.iso == iso && this.tasks == tasks && this.results == results
      ensures Ready() && State() == Start(name, concurrency)
    {
      this.name, this.concurrency, this.iso := name, concurrency, iso;
      this.tasks, this.results := tasks, results;
      mode, shutdown, permits, handlers := Looping, false, concurrency, map[];
      read, raised := {}, {};
      new;
      assert Inside(map[]) == {};
    }

    /** A handler is created for each of the entries just read. */
    method StartHandlers(start: nat, n: nat)
      modifies this`handlers
      ensures handlers == QueueAll(old(handlers), Span(start, n))
    {
      QueueNone(handlers, start);
      var i := 0;
      while i < n
        invariant 0 <= i <= n
        invariant handlers == QueueAll(old(handlers), Span(start, i))
      {
        QueueNext(old(handlers), start, i);
        handlers := handlers[start + i := Queued];
        i := i + 1;
      }
    }

    /** One turn of the loop in `run`. */
    method ReadEntries(n: nat)
      requires Ready() && mode == Looping && tasks.cursor + n <= |tasks.entries|
      requires read !! Span(tasks.cursor, n)
      modifies this`tasks, this`handlers, this`read
      ensures Ready() && tasks == Deliver(old(tasks), n, name)
      ensures State() == Read(old(State()), Span(old(tasks).cursor, n))
    {
      ReadKeepsValid(State(), Span(tasks.cursor, n), concurrency);
      StartHandlers(tasks.cursor, n);
      read := read + Span(tasks.cursor, n);
      tasks := Deliver(tasks, n, name);
    }

    method EnterSemaphore(id: nat)
      requires Ready() && CanEnter(State(), id)
      modifies this`handlers, this`permits
      ensures Ready() && State() == Enter(old(State()), id)
    {
      StepsKeepValid(State(), id, false, concurrency);
      permits := permits - 1;
      handlers := handlers[id := Probing];
    }

    /** The handler's task is done with: the permit goes back, and the callback
        discards the task. */
    method LeaveSemaphore(id: nat, raises: bool)
      requires Ready() && Alive(State()) && id in handlers
      modifies this`handlers, this`permits, this`raised
      ensures Ready() && State() == Leave(old(State()), id, raises)
    {
      StepsKeepValid(State(), id, raises, concurrency);
      if handlers[id] != Queued {
        permits := permits + 1;
      }
      handlers := handlers - {id};
      raised := raised + (if raises then {id} else {});
    }

    /** Inside the semaphore: probe and publish, or give up on the entry.  The
        attempt published is the first one that is not an error, or the last. */
    method ProbeAndReport(id: nat, outcomes: seq<Probe.Outcome>, maxRetries: nat, baseMs: nat, at: int)
      returns (reported: bool, attempt: nat)
      requires Ready() && IsIn(State(), id, Probing) && |outcomes| == maxRetries + 1
      modifies this`handlers, this`results
      ensures Ready() && attempt < |outcomes|
      ensures reported <==> ParseTask(tasks.entries[id]).Some?
      ensures results == Published(old(results), tasks.entries[id], outcomes[attempt], at)
      ensures reported ==> IsAttempt(ParseTask(tasks.entries[id]).value.expectedStatus, outcomes, attempt)
      ensures State() == if reported then Publish(old(State()), id) else old(State())
    {
      match ParseTask(tasks.entries[id])
      case None => reported, attempt := false, 0;
      case Some(task) =>
        var payload;
        payload, attempt := ProbeTask(task, outcomes, maxRetries, baseMs, at);
        ReportResult(id, payload);
        reported := true;
    }

    method ProbeTask(task: CheckTask, outcomes: seq<Probe.Outcome>, maxRetries: nat, baseMs: nat, at: int)
      returns (payload: Wire, attempt: nat)
      requires |outcomes| == maxRetries + 1
      ensures IsAttempt(task.expectedStatus, outcomes, attempt)
      ensures payload == EncodeResult(iso, task.service, name, at, task.round,
                                      Probe.Record(task.expectedStatus, outcomes[attempt]))
    {
      var probe, attempts, slept := Probe.Probe(task.expectedStatus, outcomes, maxRetries, baseMs);
      attempt := attempts - 1;
      payload := EncodeResult(iso, task.service, name, at, task.round, probe);
    }

    /** `report_result`. */
    method ReportResult(id: nat, payload: Wire)
      requires Ready() && IsIn(State(), id, Probing)
      modifies this`handlers, this`results
      ensures Ready() && results == Add(old(results), payload) && State() == Publish(old(State()), id)
    {
      StepsKeepValid(State(), id, false, concurrency);
      results := Add(results, payload);
      handlers := handlers[id := Reported];
    }

    /** The result stream after a handler: its result is added if it parses. */
    function Published(before: Stream<Wire>, raw: Wire, o: Probe.Outcome, at: int): Stream<Wire> {
      match ParseTask(raw)
      case None => before
      case Some(task) =>
        Add(before, EncodeResult(iso, task.service, name, at, task.round, Probe.Record(task.expectedStatus, o)))
    }

    /** `_handle_task` from the semaphore to the end, when nothing raises: the
        entry is acknowledged last, after its result is in the stream or because
        it cannot be parsed. */
    method HandleTask(id: nat, outcomes: seq<Probe.Outcome>, maxRetries: nat, baseMs: nat, at: int)
      returns (attempt: nat)
      requires Ready() && CanEnter(State(), id) && |outcomes| == maxRetries + 1
      modifies this`handlers, this`permits, this`raised, this`results, this`tasks
      ensures Ready() && State() == old(State()).(handlers := old(handlers) - {id})
      ensures tasks == Ack(old(tasks), id) && attempt < |outcomes|
      ensures results == Published(old(results), old(tasks).entries[id], outcomes[attempt], at)
    {
      InAndOut(State(), id);
      var reported;
      EnterSemaphore(id);
      reported, attempt := ProbeAndReport(id, outcomes, maxRetries, baseMs, at);
      tasks := Ack(tasks, id);
      LeaveSemaphore(id, false);
    }

    method HandleSignal()
      requires Ready()
      modifies this`shutdown
      ensures Ready() && State() == Signal(old(State()))
    {
      shutdown := true;
    }

    /** The end of `run`: the loop sees the flag, and `gather` returns once the
        last handler is gone. */
    method LeaveTheLoop()
      requires Ready() && mode == Looping && shutdown
      modifies this`mode
      ensures Ready() && State() == LeaveLoop(old(State()))
    {
      mode := Draining;
    }

    method StopWhenDrained() returns (stopped: bool)
      requires Ready() && mode == Draining
      modifies this`mode
      ensures Ready() && (stopped <==> old(handlers) == map[])
      ensures State() == if stopped then Stop(old(State())) else old(State())
    {
      stopped := |handlers| == 0;
      if stopped {
        assert handlers == map[];
        mode := Stopped;
      }
    }
  }

  /** A handler that goes through the semaphore leaves no trace in the process. */
  lemma InAndOut(n: Node, id: nat)
    requires CanEnter(n, id)
    ensures Leave(Enter(n, id), id, false) == n.(handlers := n.handlers - {id})
    ensures Leave(Publish(Enter(n, id), id), id, false) == n.(handlers := n.handlers - {id})
  {
    assert n.handlers[id := Probing] - {id} == n.handlers - {id};
    assert n.handlers[id := Probing][id := Reported] - {id} == n.handlers - {id};
  }

  lemma QueueNone(handlers: map<nat, Phase>, start: nat)
    ensures QueueAll(handlers, Span(start, 0)) == handlers
  {
  }

  lemma QueueNext(handlers: map<nat, Phase>, start: nat, i: nat)
    ensures QueueAll(handlers, Span(start, i))[start + i := Queued] == QueueAll(handlers, Span(start, i + 1))
  {
  }

  /** `attempt` is where the retry loop stops: everything before it was an error,
      and so is it only if it is the last. */
  ghost predicate IsAttempt(expected: int, outcomes: seq<Probe.Outcome>, attempt: nat) {
    && attempt < |outcomes|
    && (forall k :: 0 <= k < attempt ==> Probe.Record(expected, outcomes[k]).status == "error")
    && (attempt + 1 < |outcomes| ==> Probe.Record(expected, outcomes[attempt]).status != "error")
  }
}
