/** What the classes do, as runs of the pipeline: a handler of a checker process,
    and a turn of the result consumer. */
module Runs {
  import opened Wrappers
  import opened Codec
  import opened Database
  import opened Streams
  import opened Pipeline
  import Consumer
  import Ingest
  import Json
  import Probe
  import Process
  import Provenance
  import Quorum
  import Refinement
  import Stranded
  import Worker

  lemma {:induction false} Continue(cfg: Config, w: World, first: seq<Step>, mid: World, second: seq<Step>, end: World)
    requires Reaches(cfg, w, first, mid) && Reaches(cfg, mid, second, end)
    ensures Reaches(cfg, w, first + second, end)
    decreases |first|
  {
    if first == [] {
      assert first + second == second;
    } else {
      Continue(cfg, Do(cfg, w, first[0]), first[1..], mid, second, end);
      Stranded.Then(cfg, w, first[0], first[1..] + second, end);
      assert first + second == [first[0]] + (first[1..] + second);
    }
  }

  lemma OneStep(cfg: Config, w: World, step: Step)
    requires Can(cfg, w, step)
    ensures Reaches(cfg, w, [step], Do(cfg, w, step))
  {
    assert [step][1..] == [];
    assert Reaches(cfg, Do(cfg, w, step), [], Do(cfg, w, step));
  }

  // ---- A handler ----

  /** The results after an undisturbed handler: one more, which the coordinator
      reads as what the attempt tells, or none if the task cannot be parsed. */
  ghost predicate ReportedBy(iso: Iso, task: Option<CheckTask>, before: Stream<Wire>, after: Stream<Wire>,
                             src: Source)
  {
    match task
    case None => after == before
    case Some(task) =>
      var e := EncodeResult(iso, task.service, src.node, src.at, task.round,
                            Probe.Record(task.expectedStatus, src.outcome));
      && after == Add(before, e)
      && ParseResult(iso, e).Some? && Provenance.RowTells(ParseResult(iso, e).value, task, src)
  }

  /** The handler is in the semaphore. */
  lemma EnterIsAStep(cfg: Config, w: World, p: nat, id: nat)
    requires p in w.nodes && Worker.CanEnter(w.nodes[p], id) && id < |w.tasks.entries|
    ensures Can(cfg, w, EnterSemaphore(p, id))
    ensures var entered := w.(nodes := w.nodes[p := Worker.Enter(w.nodes[p], id)]);
      Do(cfg, w, EnterSemaphore(p, id)) == entered && Runs(entered, p, id, Worker.Probing)
        && Task(entered, id) == Task(w, id)
  {
  }

  lemma DropIsAStep(cfg: Config, w: World, p: nat, id: nat)
    requires Can(cfg, w, DropUnparseable(p, id))
    ensures Do(cfg, w, DropUnparseable(p, id))
      == w.(tasks := Ack(w.tasks, id), nodes := w.nodes[p := Worker.Leave(w.nodes[p], id, false)])
  {
  }

  lemma ReportIsAStep(cfg: Config, w: World, p: nat, id: nat, o: Probe.Outcome, at: int)
    requires Can(cfg, w, Report(p, id, o, at))
    ensures var reported := Do(cfg, w, Report(p, id, o, at));
      && reported.nodes == w.nodes[p := Worker.Publish(w.nodes[p], id)] && Can(cfg, reported, AckTask(p, id))
      && reported.results == Add(w.results, Payload(cfg, w.nodes[p].name, Task(w, id).value, o, at))
      && reported.tasks == w.tasks && reported.db == w.db && reported.batch == w.batch && reported.stage == w.stage
  {
  }

  lemma AckIsAStep(cfg: Config, w: World, p: nat, id: nat)
    requires Can(cfg, w, AckTask(p, id))
    ensures Do(cfg, w, AckTask(p, id))
      == w.(tasks := Ack(w.tasks, id), nodes := w.nodes[p := Worker.Leave(w.nodes[p], id, false)])
  {
  }

  lemma ReportAndAck(cfg: Config, w: World, p: nat, id: nat, o: Probe.Outcome, at: int)
    returns (steps: seq<Step>, end: World)
    requires Can(cfg, w, Report(p, id, o, at))
    ensures Reaches(cfg, w, steps, end)
    ensures end.nodes == w.nodes[p := Worker.Leave(Worker.Publish(w.nodes[p], id), id, false)]
    ensures end.tasks == Ack(w.tasks, id)
    ensures end.results == Add(w.results, Payload(cfg, w.nodes[p].name, Task(w, id).value, o, at))
    ensures end.db == w.db && end.batch == w.batch && end.stage == w.stage
  {
    ReportIsAStep(cfg, w, p, id, o, at);
    var reported := Do(cfg, w, Report(p, id, o, at));
    OneStep(cfg, w, Report(p, id, o, at));
    AckIsAStep(cfg, reported, p, id);
    end := Do(cfg, reported, AckTask(p, id));
    OneStep(cfg, reported, AckTask(p, id));
    steps := [Report(p, id, o, at)] + [AckTask(p, id)];
    Continue(cfg, w, [Report(p, id, o, at)], reported, [AckTask(p, id)], end);
  }

  /** What a handler in the semaphore does: give up on its entry, or report and
      acknowledge. */
  lemma RestIsARun(cfg: Config, w: World, p: nat, id: nat, o: Probe.Outcome, at: int)
    returns (steps: seq<Step>, end: World)
    requires Faithful(cfg.iso) && Runs(w, p, id, Worker.Probing) && (o.Response? ==> Json.IsDict(o.headers))
    ensures Reaches(cfg, w, steps, end)
    ensures var n := w.nodes[p];
      end.nodes == w.nodes[p := Worker.Leave(n, id, false)]
      || end.nodes == w.nodes[p := Worker.Leave(Worker.Publish(n, id), id, false)]
    ensures end.tasks == Ack(w.tasks, id)
    ensures ReportedBy(cfg.iso, Task(w, id), w.results, end.results, Source(id, w.nodes[p].name, at, o))
    ensures end.db == w.db && end.batch == w.batch && end.stage == w.stage
  {
    match Task(w, id)
    case None =>
      DropIsAStep(cfg, w, p, id);
      OneStep(cfg, w, DropUnparseable(p, id));
      steps, end := [DropUnparseable(p, id)], Do(cfg, w, DropUnparseable(p, id));
    case Some(task) =>
      Probe.RowTellsTheAttempt(cfg.iso, task.service, w.nodes[p].name, at, task.round, task.expectedStatus, o);
      steps, end := ReportAndAck(cfg, w, p, id, o, at);
  }

  /** A queued handler that finds a permit can run through: two or three steps,
      after which the process, the task and the results are as `HandleTask` of
      `CheckerProcess` leaves them. */
  lemma TaskIsARun(cfg: Config, w: World, p: nat, id: nat, o: Probe.Outcome, at: int)
    returns (steps: seq<Step>, end: World)
    requires p in w.nodes && Worker.CanEnter(w.nodes[p], id) && id < |w.tasks.entries|
    requires Faithful(cfg.iso) && (o.Response? ==> Json.IsDict(o.headers))
    ensures Reaches(cfg, w, steps, end)
    ensures var n := w.nodes[p]; end.nodes == w.nodes[p := n.(handlers := n.handlers - {id})]
    ensures end.tasks == Ack(w.tasks, id)
    ensures ReportedBy(cfg.iso, Task(w, id), w.results, end.results, Source(id, w.nodes[p].name, at, o))
    ensures end.db == w.db && end.batch == w.batch && end.stage == w.stage
  {
    EnterIsAStep(cfg, w, p, id);
    OneStep(cfg, w, EnterSemaphore(p, id));
    Process.InAndOut(w.nodes[p], id);
    var entered := w.(nodes := w.nodes[p := Worker.Enter(w.nodes[p], id)]);
    var rest;
    rest, end := RestIsARun(cfg, entered, p, id, o, at);
    Continue(cfg, w, [EnterSemaphore(p, id)], entered, rest, end);
    steps := [EnterSemaphore(p, id)] + rest;
  }

  // ---- One entry ----

  /** What handling the head of the batch leaves. */
  ghost predicate Handled(cfg: Config, w: World, end: World, fate: Consumer.Fate)
    requires HeadIn(w, Fresh)
  {
    var raw := w.results.entries[w.batch[0]];
    && end.batch == w.batch[1..] && end.stage == Fresh && end.results.entries == w.results.entries
    && end.results == (if Consumer.IsAcknowledged(cfg.iso, raw, fate) then Ack(w.results, w.batch[0]) else w.results)
    && w.now <= end.now && (w.now <= fate.at.window ==> end.now <= fate.at.checked)
    && Refinement.StoreOf(cfg, end) ==
         match ParseResult(cfg.iso, raw)
         case None => Refinement.StoreOf(cfg, w)
         case Some(row) => Ingest.Handle(cfg.quorum, Refinement.StoreOf(cfg, w), row,
                                         fate.dbError, fate.detectorError, fate.at)
  }

  /** An entry that is not parsed, or whose insert fails: one step. */
  lemma SkipIsARun(cfg: Config, w: World, fate: Consumer.Fate) returns (steps: seq<Step>, end: World)
    requires HeadIn(w, Fresh) && Quorum.Ordered(fate.at)
    requires Result(cfg, w, w.batch[0]) == None || fate.dbError
    ensures Reaches(cfg, w, steps, end) && Handled(cfg, w, end, fate)
  {
    var step := if Result(cfg, w, w.batch[0]) == None then SkipUnparseable else InsertFails;
    end, steps := Do(cfg, w, step), [step];
    OneStep(cfg, w, step);
  }

  lemma RefuseIsAStep(cfg: Config, w: World)
    requires Can(cfg, w, RefuseRow)
    ensures Do(cfg, w, RefuseRow) == w.(stage := Settled) && Can(cfg, w.(stage := Settled), AckResult)
  {
  }

  /** One whose row is refused: two. */
  lemma RefusalIsARun(cfg: Config, w: World, fate: Consumer.Fate) returns (steps: seq<Step>, end: World)
    requires Can(cfg, w, RefuseRow) && !fate.dbError && Quorum.Ordered(fate.at)
    ensures Reaches(cfg, w, steps, end) && Handled(cfg, w, end, fate)
  {
    var refused := Do(cfg, w, RefuseRow);
    RefuseIsAStep(cfg, w);
    AckResultIsAStep(cfg, refused);
    end := Do(cfg, refused, AckResult);
    OneStep(cfg, w, RefuseRow);
    OneStep(cfg, refused, AckResult);
    Continue(cfg, w, [RefuseRow], refused, [AckResult], end);
    steps := [RefuseRow] + [AckResult];
  }

  /** The step by which the detector is called. */
  function Call(fate: Consumer.Fate): Step {
    if fate.detectorError then DetectorFails else Detect(fate.at)
  }

  lemma InsertIsAStep(cfg: Config, w: World, fate: Consumer.Fate)
    requires Can(cfg, w, InsertRow) && Quorum.Ordered(fate.at) && w.now <= fate.at.window
    ensures var stored := Do(cfg, w, InsertRow);
      && Can(cfg, stored, Call(fate)) && Result(cfg, stored, stored.batch[0]).Some?
      && stored.batch == w.batch && stored.results == w.results && stored.now == w.now
  {
    assert Result(cfg, Do(cfg, w, InsertRow), w.batch[0]) == Result(cfg, w, w.batch[0]);
  }

  lemma CallIsAStep(cfg: Config, w: World, fate: Consumer.Fate)
    requires Can(cfg, w, Call(fate)) && Quorum.Ordered(fate.at)
    ensures var settled := Do(cfg, w, Call(fate));
      && Can(cfg, settled, AckResult)
      && settled.batch == w.batch && settled.results == w.results
      && w.now <= settled.now && (w.now <= fate.at.window ==> settled.now <= fate.at.checked)
  {
  }

  lemma AckResultIsAStep(cfg: Config, w: World)
    requires Can(cfg, w, AckResult)
    ensures Do(cfg, w, AckResult)
      == w.(results := Ack(w.results, w.batch[0]), batch := w.batch[1..], stage := Fresh)
  {
  }

  /** Insert, evaluation and acknowledgement do to the tables what handling says. */
  lemma StoringIsHandling(cfg: Config, w: World, fate: Consumer.Fate)
    requires Can(cfg, w, InsertRow) && !fate.dbError && Quorum.Ordered(fate.at) && w.now <= fate.at.window
    ensures var stored := Do(cfg, w, InsertRow);
      && Can(cfg, stored, Call(fate))
      && var settled := Do(cfg, stored, Call(fate));
         && Can(cfg, settled, AckResult)
         && Refinement.StoreOf(cfg, Do(cfg, settled, AckResult))
              == Ingest.Handle(cfg.quorum, Refinement.StoreOf(cfg, w), Result(cfg, w, w.batch[0]).value,
                               fate.dbError, fate.detectorError, fate.at)
  {
    InsertIsAStep(cfg, w, fate);
    var stored := Do(cfg, w, InsertRow);
    CallIsAStep(cfg, stored, fate);
    Refinement.TableStepIsEvent(cfg, w, InsertRow);
    Refinement.JudgementIsEvent(cfg, stored, Call(fate));
    Refinement.TurningAwayIsEvent(cfg, Do(cfg, stored, Call(fate)), AckResult);
    Ingest.HandleIsPutThenJudge(cfg.quorum, Refinement.StoreOf(cfg, w), Result(cfg, w, w.batch[0]).value,
                                fate.dbError, fate.detectorError, fate.at);
  }

  /** One whose row goes in, and whose service is evaluated or not: three. */
  lemma StoringIsARun(cfg: Config, w: World, fate: Consumer.Fate) returns (steps: seq<Step>, end: World)
    requires Can(cfg, w, InsertRow) && !fate.dbError && Quorum.Ordered(fate.at) && w.now <= fate.at.window
    ensures Reaches(cfg, w, steps, end) && Handled(cfg, w, end, fate)
  {
    StoringIsHandling(cfg, w, fate);
    InsertIsAStep(cfg, w, fate);
    var stored := Do(cfg, w, InsertRow);
    CallIsAStep(cfg, stored, fate);
    var settled := Do(cfg, stored, Call(fate));
    AckResultIsAStep(cfg, settled);
    end := Do(cfg, settled, AckResult);
    steps := ThreeSteps(cfg, w, InsertRow, Call(fate), AckResult);
  }

  lemma ThreeSteps(cfg: Config, w: World, s1: Step, s2: Step, s3: Step) returns (steps: seq<Step>)
    requires Can(cfg, w, s1) && Can(cfg, Do(cfg, w, s1), s2) && Can(cfg, Do(cfg, Do(cfg, w, s1), s2), s3)
    ensures Reaches(cfg, w, steps, Do(cfg, Do(cfg, Do(cfg, w, s1), s2), s3))
  {
    var w1 := Do(cfg, w, s1);
    var w2 := Do(cfg, w1, s2);
    OneStep(cfg, w, s1);
    OneStep(cfg, w1, s2);
    OneStep(cfg, w2, s3);
    Continue(cfg, w, [s1], w1, [s2], w2);
    Continue(cfg, w, [s1] + [s2], w2, [s3], Do(cfg, w2, s3));
    steps := [s1] + [s2] + [s3];
  }

  lemma EntryIsARun(cfg: Config, w: World, fate: Consumer.Fate) returns (steps: seq<Step>, end: World)
    requires HeadIn(w, Fresh) && Quorum.Ordered(fate.at) && w.now <= fate.at.window
    ensures Reaches(cfg, w, steps, end) && Handled(cfg, w, end, fate)
  {
    if Result(cfg, w, w.batch[0]) == None || fate.dbError {
      steps, end := SkipIsARun(cfg, w, fate);
    } else if Conflicts(w.db, Result(cfg, w, w.batch[0]).value) {
      steps, end := RefusalIsARun(cfg, w, fate);
    } else {
      steps, end := StoringIsARun(cfg, w, fate);
    }
  }

  // ---- A batch ----

  /** The batch holds entries of the result stream that have not been begun. */
  ghost predicate Holds(w: World, entries: seq<Wire>) {
    && w.stage == Fresh && |w.batch| == |entries|
    && forall i :: 0 <= i < |entries| ==>
         w.batch[i] < |w.results.entries| && w.results.entries[w.batch[i]] == entries[i]
  }

  /** The first `i` entries of the batch of `w` are done in `mid`. */
  ghost predicate DoneUpTo(cfg: Config, w: World, mid: World, entries: seq<Wire>, fates: seq<Consumer.Fate>, i: nat)
    requires |w.batch| == |entries| == |fates| && i <= |entries|
  {
    && mid.batch == w.batch[i..] && mid.stage == Fresh && mid.results.entries == w.results.entries
    && mid.results == Consumer.AckBatch(cfg.iso, w.results, w.batch[..i], entries[..i], fates[..i])
    && Refinement.StoreOf(cfg, mid)
         == Ingest.Run(cfg.quorum, Refinement.StoreOf(cfg, w), Consumer.EventsOf(cfg.iso, entries[..i], fates[..i]))
    && (i < |fates| ==> mid.now <= fates[i].at.window)
  }

  lemma OneMoreDone(cfg: Config, w: World, mid: World, end: World, entries: seq<Wire>, fates: seq<Consumer.Fate>,
                    i: nat)
    requires |w.batch| == |entries| == |fates| && i < |entries| && Holds(w, entries)
    requires Consumer.InTurn(fates, w.now) && DoneUpTo(cfg, w, mid, entries, fates, i)
    requires HeadIn(mid, Fresh) && Handled(cfg, mid, end, fates[i])
    ensures DoneUpTo(cfg, w, end, entries, fates, i + 1)
  {
    assert w.batch[i..][0] == w.batch[i] && w.batch[i..][1..] == w.batch[i + 1..];
    Consumer.OneMoreAck(cfg.iso, w.results, w.batch, entries, fates, i);
    Consumer.OneMoreEvent(cfg.quorum, cfg.iso, Refinement.StoreOf(cfg, w), entries, fates, i);
  }

  lemma NothingDone(cfg: Config, w: World, entries: seq<Wire>, fates: seq<Consumer.Fate>)
    requires |w.batch| == |entries| == |fates| && Holds(w, entries) && Consumer.InTurn(fates, w.now)
    ensures DoneUpTo(cfg, w, w, entries, fates, 0)
  {
    assert w.batch[0..] == w.batch && w.batch[..0] == [];
    assert entries[..0] == [] && fates[..0] == [];
  }

  lemma {:induction false} BatchIsARun(cfg: Config, w: World, entries: seq<Wire>, fates: seq<Consumer.Fate>, i: nat)
    returns (steps: seq<Step>, mid: World)
    requires |w.batch| == |entries| == |fates| && i <= |entries| && Holds(w, entries) && Consumer.InTurn(fates, w.now)
    ensures Reaches(cfg, w, steps, mid) && DoneUpTo(cfg, w, mid, entries, fates, i)
  {
    if i == 0 {
      steps, mid := [], w;
      NothingDone(cfg, w, entries, fates);
    } else {
      var before;
      steps, before := BatchIsARun(cfg, w, entries, fates, i - 1);
      assert w.batch[i - 1..][0] == w.batch[i - 1];
      var more;
      more, mid := EntryIsARun(cfg, before, fates[i - 1]);
      OneMoreDone(cfg, w, before, mid, entries, fates, i - 1);
      Continue(cfg, w, steps, before, more, mid);
      steps := steps + more;
    }
  }

  // ---- A turn ----

  lemma ReadHolds(cfg: Config, w: World)
    requires Streams.Valid(w.results) && w.batch == []
    ensures var n := Consumer.NextBatch(w.results);
      && Can(cfg, w, ReadResults(n))
      && var read := Do(cfg, w, ReadResults(n));
         && read.batch == Consumer.Numbers(w.results.cursor, n)
         && read.results == Deliver(w.results, n, Consumer.CONSUMER_NAME) && read.now == w.now
         && Holds(read, Consumer.NextEntries(w.results))
         && (w.stage != Stored ==> Refinement.StoreOf(cfg, read) == Refinement.StoreOf(cfg, w))
  {
  }

  /** From any world in which the consumer is between two batches, a turn of its
      loop with given fates is a run of the pipeline, which leaves the result
      stream, the tables and the counter as `Turn` of `ResultConsumer` does. */
  lemma TurnIsARun(cfg: Config, w: World, fates: seq<Consumer.Fate>) returns (steps: seq<Step>, end: World)
    requires Streams.Valid(w.results) && w.batch == [] && w.stage == Fresh
    requires |fates| == Consumer.NextBatch(w.results) && Consumer.InTurn(fates, w.now)
    ensures Reaches(cfg, w, steps, end) && end.batch == [] && end.stage == Fresh
    ensures end.results == Consumer.AfterTurn(cfg.iso, w.results, fates)
    ensures Refinement.StoreOf(cfg, end) ==
      Ingest.Run(cfg.quorum, Refinement.StoreOf(cfg, w),
                 Consumer.EventsOf(cfg.iso, Consumer.NextEntries(w.results), fates))
  {
    var n := Consumer.NextBatch(w.results);
    var entries := Consumer.NextEntries(w.results);
    ReadHolds(cfg, w);
    var read := Do(cfg, w, ReadResults(n));
    OneStep(cfg, w, ReadResults(n));
    var rest;
    rest, end := BatchIsARun(cfg, read, entries, fates, n);
    Continue(cfg, w, [ReadResults(n)], read, rest, end);
    steps := [ReadResults(n)] + rest;
    assert read.batch[..n] == read.batch && entries[..n] == entries && fates[..n] == fates && read.batch[n..] == [];
    Consumer.BatchIsPending(w.results);
    Consumer.WhatABatchAcks(cfg.iso, read.results, read.batch, entries, fates);
  }
}
