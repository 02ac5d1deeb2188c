/** What becomes of a pending entry: exactly which tasks and which results can
    still be acknowledged. */
module Stranded {
  import opened Wrappers
  import opened Codec
  import opened Database
  import opened Streams
  import opened Pipeline
  import Probe
  import Worker

  // ---- Tasks ----

  /** A pending task whose handler is gone. */
  ghost predicate Orphaned(w: World, id: nat) {
    && id in w.tasks.pending && id !in w.tasks.acked && id < w.tasks.cursor
    && forall p :: p in w.nodes ==> id !in w.nodes[p].handlers
  }

  /** A step gives a process no handler for an entry that was delivered before. */
  lemma HandlersStart(cfg: Config, w: World, step: Step, p: nat, id: nat)
    requires Can(cfg, w, step) && id < w.tasks.cursor
    requires p in Do(cfg, w, step).nodes && id in Do(cfg, w, step).nodes[p].handlers
    ensures p in w.nodes && id in w.nodes[p].handlers
  {
    if step.ReadTasks? && p == step.p {
      assert id !in Span(w.tasks.cursor, step.n);
    }
  }

  /** A step takes only the entry of one of the handlers off the pending list. */
  lemma PendingEnds(cfg: Config, w: World, step: Step, id: nat)
    requires Can(cfg, w, step) && id in w.tasks.pending && id !in w.tasks.acked
    requires forall p :: p in w.nodes ==> id !in w.nodes[p].handlers
    ensures var s := Do(cfg, w, step).tasks; id in s.pending && id !in s.acked && w.tasks.cursor <= s.cursor
  {
    TasksAfter(cfg, w, step);
    if step.AckTask? || step.DropUnparseable? {
      assert step.id in w.nodes[step.p].handlers;
    }
  }

  lemma OrphanStep(cfg: Config, w: World, step: Step, id: nat)
    requires Orphaned(w, id) && Can(cfg, w, step)
    ensures Orphaned(Do(cfg, w, step), id)
  {
    PendingEnds(cfg, w, step, id);
    forall p | p in Do(cfg, w, step).nodes
      ensures id !in Do(cfg, w, step).nodes[p].handlers
    {
      if id in Do(cfg, w, step).nodes[p].handlers {
        HandlersStart(cfg, w, step, p, id);
      }
    }
  }

  /** Reclaiming does not bring it back: it stays pending for ever. */
  lemma {:induction false} OrphansStay(cfg: Config, w: World, steps: seq<Step>, end: World, id: nat)
    requires Orphaned(w, id) && Reaches(cfg, w, steps, end)
    ensures Orphaned(end, id) && id !in end.tasks.acked
    decreases |steps|
  {
    if steps != [] {
      OrphanStep(cfg, w, steps[0], id);
      OrphansStay(cfg, Do(cfg, w, steps[0]), steps[1..], end, id);
    }
  }

  lemma Then(cfg: Config, w: World, step: Step, rest: seq<Step>, end: World)
    requires Can(cfg, w, step) && Reaches(cfg, Do(cfg, w, step), rest, end)
    ensures Reaches(cfg, w, [step] + rest, end)
  {
    assert ([step] + rest)[1..] == rest;
  }

  const ANY_OUTCOME := Probe.ConnectError("")

  /** How many more steps a handler needs at most. */
  function Distance(n: Worker.Node, id: nat): nat
    requires id in n.handlers
  {
    match n.handlers[id]
    case Queued => if n.permits > 0 then 3 else 4
    case Probing => 2
    case Reported => 1
  }

  /** What brings a handler nearer to its end. */
  lemma DistanceDrops(n: Worker.Node, id: nat, other: nat)
    requires Worker.Alive(n) && id in n.handlers
    ensures n.handlers[id] == Worker.Probing ==> Distance(Worker.Publish(n, id), id) < Distance(n, id)
    ensures Worker.CanEnter(n, id) ==> Distance(Worker.Enter(n, id), id) < Distance(n, id)
    ensures n.handlers[id] == Worker.Queued && n.permits == 0 && Worker.IsInside(n, other) ==>
      id in Worker.Leave(n, other, true).handlers && Distance(Worker.Leave(n, other, true), id) < Distance(n, id)
  {
  }

  /** A handler that has not reported can be brought nearer to its end, if need
      be by letting another one raise and give up its permit. */
  lemma HandlerCanAdvance(cfg: Config, w: World, p: nat, id: nat) returns (step: Step)
    requires StreamsOk(w) && EntriesOk(cfg, w) && NodesOk(cfg, w) && cfg.concurrency > 0
    requires p in w.nodes && id in w.nodes[p].handlers && w.nodes[p].handlers[id] != Worker.Reported
    ensures Can(cfg, w, step)
    ensures var w' := Do(cfg, w, step);
      p in w'.nodes && id in w'.nodes[p].handlers && Distance(w'.nodes[p], id) < Distance(w.nodes[p], id)
  {
    var n := w.nodes[p];
    assert Worker.Alive(n) && id in w.tasks.pending && id < |w.tasks.entries|;
    DistanceDrops(n, id, id);
    if n.handlers[id] == Worker.Probing {
      assert GoodTask(w.tasks.entries[id], w.db.used);
      step := Report(p, id, ANY_OUTCOME, 0);
    } else if n.permits > 0 {
      step := EnterSemaphore(p, id);
    } else {
      var other := SomeoneInside(n, cfg.concurrency);
      DistanceDrops(n, id, other);
      step := Raise(p, other);
    }
  }

  lemma SomeoneInside(n: Worker.Node, concurrency: nat) returns (id: nat)
    requires Worker.Valid(n, concurrency) && n.permits == 0 && concurrency > 0
    ensures id in n.handlers && n.handlers[id] != Worker.Queued
  {
    id :| id in Worker.Inside(n.handlers);
  }

  /** So it can always be run to its acknowledgement. */
  lemma HandlerCanFinish(cfg: Config, w: World, p: nat, id: nat) returns (steps: seq<Step>, end: World)
    requires Faithful(cfg.iso) && Inv(cfg, w) && cfg.concurrency > 0
    requires p in w.nodes && id in w.nodes[p].handlers
    ensures Reaches(cfg, w, steps, end) && id in end.tasks.acked
    decreases Distance(w.nodes[p], id)
  {
    if w.nodes[p].handlers[id] == Worker.Reported {
      var step := AckTask(p, id);
      assert Worker.Alive(w.nodes[p]) && id in w.tasks.pending;
      end := Do(cfg, w, step);
      Then(cfg, w, step, [], end);
      steps := [step] + [];
    } else {
      var step := HandlerCanAdvance(cfg, w, p, id);
      StepKeeps(cfg, w, step);
      steps, end := HandlerCanFinish(cfg, Do(cfg, w, step), p, id);
      Then(cfg, w, step, steps, end);
      steps := [step] + steps;
    }
  }

  ghost predicate CanBeAcked(cfg: Config, w: World, id: nat) {
    exists steps, end :: Reaches(cfg, w, steps, end) && id in end.tasks.acked
  }

  ghost predicate HasHandler(w: World, id: nat) {
    exists p :: p in w.nodes && id in w.nodes[p].handlers
  }

  lemma HandlerMeansAckable(cfg: Config, w: World, id: nat)
    requires Faithful(cfg.iso) && Inv(cfg, w) && cfg.concurrency > 0 && HasHandler(w, id)
    ensures CanBeAcked(cfg, w, id)
  {
    var p :| p in w.nodes && id in w.nodes[p].handlers;
    var steps, end := HandlerCanFinish(cfg, w, p, id);
  }

  lemma NoHandlerMeansStuck(cfg: Config, w: World, id: nat)
    requires Faithful(cfg.iso) && Inv(cfg, w) && id in w.tasks.pending && !HasHandler(w, id)
    ensures Orphaned(w, id) && !CanBeAcked(cfg, w, id)
  {
    forall steps, end | Reaches(cfg, w, steps, end)
      ensures id !in end.tasks.acked
    {
      OrphansStay(cfg, w, steps, end, id);
    }
  }

  /** A pending task can still be acknowledged exactly when some process has a
      handler for it: this is how far delivery is "at least once". */
  lemma PendingTaskCanBeAckedIff(cfg: Config, w: World, id: nat)
    requires Faithful(cfg.iso) && Inv(cfg, w) && cfg.concurrency > 0 && id in w.tasks.pending
    ensures CanBeAcked(cfg, w, id) <==> HasHandler(w, id)
  {
    if HasHandler(w, id) {
      HandlerMeansAckable(cfg, w, id);
    } else {
      NoHandlerMeansStuck(cfg, w, id);
    }
  }

  /** A crash strands every task the process had in hand: no later claim, restart
      or other step of any process gets it acknowledged. */
  lemma CrashStrandsItsTasks(cfg: Config, w: World, p: nat, id: nat)
    requires Faithful(cfg.iso) && Inv(cfg, w) && Can(cfg, w, CrashNode(p)) && id in w.nodes[p].handlers
    ensures var w' := Do(cfg, w, CrashNode(p));
      id in w'.tasks.pending && !HasHandler(w', id) && !CanBeAcked(cfg, w', id)
  {
    var w' := Do(cfg, w, CrashNode(p));
    StepKeeps(cfg, w, CrashNode(p));
    assert id in w.nodes[p].read;
    assert !HasHandler(w', id);
    NoHandlerMeansStuck(cfg, w', id);
  }

  // ---- Results ----

  /** A pending result that is not in the consumer's batch. */
  ghost predicate Abandoned(w: World, id: nat) {
    id in w.results.pending && id !in w.results.acked && id < w.results.cursor && id !in w.batch
  }

  /** What a step makes of the batch: a new one after the cursor, or what is left
      of the old one. */
  lemma BatchShrinks(cfg: Config, w: World, step: Step, id: nat)
    requires Can(cfg, w, step) && id in Do(cfg, w, step).batch
    ensures id in w.batch || id >= w.results.cursor
  {
    BatchAfter(cfg, w, step);
  }

  lemma ResultPendingEnds(cfg: Config, w: World, step: Step, id: nat)
    requires Can(cfg, w, step) && id in w.results.pending && id !in w.results.acked && id !in w.batch
    ensures var s := Do(cfg, w, step).results; id in s.pending && id !in s.acked && w.results.cursor <= s.cursor
  {
    ResultsAfter(cfg, w, step);
    if step.AckResult? || step.SkipUnparseable? {
      assert w.batch[0] in w.batch;
    }
  }

  lemma AbandonedStep(cfg: Config, w: World, step: Step, id: nat)
    requires Abandoned(w, id) && Can(cfg, w, step)
    ensures Abandoned(Do(cfg, w, step), id)
  {
    ResultPendingEnds(cfg, w, step, id);
    if id in Do(cfg, w, step).batch {
      BatchShrinks(cfg, w, step, id);
    }
  }

  lemma {:induction false} AbandonedResultsStay(cfg: Config, w: World, steps: seq<Step>, end: World, id: nat)
    requires Abandoned(w, id) && Reaches(cfg, w, steps, end)
    ensures Abandoned(end, id) && id !in end.results.acked
    decreases |steps|
  {
    if steps != [] {
      AbandonedStep(cfg, w, steps[0], id);
      AbandonedResultsStay(cfg, Do(cfg, w, steps[0]), steps[1..], end, id);
    }
  }

  /** How many more steps the batch needs at most, if nothing goes wrong. */
  function Work(w: World): nat {
    3 * |w.batch| + (match w.stage case Fresh => 2 case Stored => 1 case Settled => 0)
  }

  /** The consumer can always bring the head of its batch nearer to its
      acknowledgement, and then does not lose any other. */
  lemma ConsumerCanAdvance(cfg: Config, w: World, id: nat) returns (step: Step)
    requires StreamsOk(w) && EntriesOk(cfg, w) && ConsumerOk(cfg, w) && id in w.batch
    ensures Can(cfg, w, step)
    ensures var w' := Do(cfg, w, step); Work(w') < Work(w) && (id in w'.batch || id in w'.results.acked)
  {
    var head := w.batch[0];
    assert head in w.results.pending;
    match w.stage
    case Fresh =>
      assert GoodResult(cfg, w.results.entries[head], w.db.used);
      step := if Conflicts(w.db, Result(cfg, w, head).value) then RefuseRow else InsertRow;
    case Stored => step := DetectorFails;
    case Settled =>
      step := AckResult;
      assert w.batch == [head] + w.batch[1..];
  }

  lemma ConsumerCanFinish(cfg: Config, w: World, id: nat) returns (steps: seq<Step>, end: World)
    requires Faithful(cfg.iso) && Inv(cfg, w) && (id in w.batch || id in w.results.acked)
    ensures Reaches(cfg, w, steps, end) && id in end.results.acked
    decreases Work(w)
  {
    if id in w.results.acked {
      steps, end := [], w;
    } else {
      var step := ConsumerCanAdvance(cfg, w, id);
      StepKeeps(cfg, w, step);
      steps, end := ConsumerCanFinish(cfg, Do(cfg, w, step), id);
      Then(cfg, w, step, steps, end);
      steps := [step] + steps;
    }
  }

  ghost predicate ResultCanBeAcked(cfg: Config, w: World, id: nat) {
    exists steps, end :: Reaches(cfg, w, steps, end) && id in end.results.acked
  }

  lemma AbandonedMeansStuck(cfg: Config, w: World, id: nat)
    requires Abandoned(w, id)
    ensures !ResultCanBeAcked(cfg, w, id)
  {
    forall steps, end | Reaches(cfg, w, steps, end)
      ensures id !in end.results.acked
    {
      AbandonedResultsStay(cfg, w, steps, end, id);
    }
  }

  /** A pending result can still be acknowledged exactly when it is in the batch
      the consumer is at. */
  lemma PendingResultCanBeAckedIff(cfg: Config, w: World, id: nat)
    requires Faithful(cfg.iso) && Inv(cfg, w) && id in w.results.pending
    ensures ResultCanBeAcked(cfg, w, id) <==> id in w.batch
  {
    if id in w.batch {
      var steps, end := ConsumerCanFinish(cfg, w, id);
    } else {
      AbandonedMeansStuck(cfg, w, id);
    }
  }

  /** An insert that fails for another reason than a constraint strands its
      result: it is not delivered again. */
  lemma FailedInsertStrandsItsResult(cfg: Config, w: World)
    requires Faithful(cfg.iso) && Inv(cfg, w) && Can(cfg, w, InsertFails)
    ensures var w' := Do(cfg, w, InsertFails); Abandoned(w', w.batch[0]) && !ResultCanBeAcked(cfg, w', w.batch[0])
  {
    assert w.batch[0] in w.results.pending;
    forall i | 0 < i < |w.batch|
      ensures w.batch[i] != w.batch[0]
    {
    }
    AbandonedMeansStuck(cfg, Do(cfg, w, InsertFails), w.batch[0]);
  }

  /** A consumer that dies, or whose loop over the batch ends with an exception,
      strands what is left of its batch, stored or not. */
  lemma DroppedBatchIsStranded(cfg: Config, w: World, id: nat)
    requires Faithful(cfg.iso) && Inv(cfg, w) && id in w.batch
    ensures var w' := Do(cfg, w, DropBatch); Abandoned(w', id) && !ResultCanBeAcked(cfg, w', id)
  {
    assert id in w.results.pending;
    AbandonedMeansStuck(cfg, Do(cfg, w, DropBatch), id);
  }
}
