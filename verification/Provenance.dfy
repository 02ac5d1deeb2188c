/** Where the entries and the rows come from: each task carries the arguments of
    the job that published it and the round of that moment, each result tells how
    the attempt reported ended, and each row is such a result. */
module Provenance {
  import opened Wrappers
  import opened Codec
  import opened Database
  import opened Pipeline
  import Keys
  import Probe
  import Quorum
  import Scheduler
  import Votes

  // ---- One publication, one report ----

  /** The task is the one a job with these arguments publishes at `at`; only the
      body "None" does not arrive. */
  ghost predicate Carries(task: CheckTask, kwargs: Scheduler.Service, at: int) {
    && task.service == kwargs.id && task.url == kwargs.url && task.verb == kwargs.verb
    && task.timeoutMs == kwargs.timeoutMs && task.expectedStatus == kwargs.expectedStatus
    && task.headers == kwargs.headers && task.intervalSecs == kwargs.intervalSecs
    && task.body == (if kwargs.body == Some("None") then None else kwargs.body)
    && task.intervalSecs > 0 && Scheduler.InBucket(at, task.intervalSecs, task.round)
  }

  /** What a job publishes is what a checker reads. */
  lemma PublishedIsRead(cfg: Config, w: World, kwargs: Scheduler.Service)
    requires Can(cfg, w, PublishTask(kwargs))
    ensures var entries := Do(cfg, w, PublishTask(kwargs)).tasks.entries;
      && |entries| == |w.tasks.entries| + 1 && w.tasks.entries <= entries
      && ParseTask(entries[|w.tasks.entries|]).Some?
      && Carries(ParseTask(entries[|w.tasks.entries|]).value, kwargs, w.now)
  {
    TaskRoundTrip(Scheduler.Enqueue(kwargs, w.now));
    Scheduler.BucketOf(w.now, kwargs.intervalSecs, Scheduler.Round(w.now, kwargs.intervalSecs));
  }

  /** The row is a node's answer to the task, and tells how the attempt ended. */
  ghost predicate RowTells(row: CheckResult, task: CheckTask, src: Source) {
    && row.service == task.service && row.node == src.node && row.checkedAt == src.at
    && row.key == Keys.Key(task.service, src.node, task.round)
    && Probe.Tells(row, task.expectedStatus, src.outcome)
  }

  /** What a handler reports is what the coordinator reads. */
  lemma ReportedIsRead(cfg: Config, w: World, p: nat, id: nat, outcome: Probe.Outcome, at: int)
    requires Faithful(cfg.iso) && Can(cfg, w, Report(p, id, outcome, at))
    ensures var entries := Do(cfg, w, Report(p, id, outcome, at)).results.entries;
      && |entries| == |w.results.entries| + 1 && w.results.entries <= entries
      && ParseResult(cfg.iso, entries[|w.results.entries|]).Some?
      && RowTells(ParseResult(cfg.iso, entries[|w.results.entries|]).value, Task(w, id).value,
                  Source(id, w.nodes[p].name, at, outcome))
  {
    var task := Task(w, id).value;
    Probe.RowTellsTheAttempt(cfg.iso, task.service, w.nodes[p].name, at, task.round, task.expectedStatus, outcome);
  }

  // ---- The trace ----

  ghost predicate PublishedBy(raw: Wire, p: Publication) {
    ParseTask(raw).Some? && Carries(ParseTask(raw).value, p.kwargs, p.at)
  }

  ghost predicate TasksTraced(w: World) {
    && |w.published| == |w.tasks.entries|
    && forall t :: 0 <= t < |w.tasks.entries| ==> PublishedBy(w.tasks.entries[t], w.published[t])
  }

  /** The row is the answer of its source to the source's task. */
  ghost predicate RowOfSource(w: World, row: CheckResult, src: Source) {
    src.task < |w.tasks.entries| && Task(w, src.task).Some? && RowTells(row, Task(w, src.task).value, src)
  }

  ghost predicate Answer(cfg: Config, w: World, raw: Wire, src: Source) {
    ParseResult(cfg.iso, raw).Some? && RowOfSource(w, ParseResult(cfg.iso, raw).value, src)
  }

  ghost predicate ResultsTraced(cfg: Config, w: World) {
    && |w.sources| == |w.results.entries|
    && forall r :: 0 <= r < |w.results.entries| ==> Answer(cfg, w, w.results.entries[r], w.sources[r])
  }

  ghost predicate RowsTraced(w: World) {
    forall i :: 0 <= i < |w.db.rows| ==>
      w.db.rows[i].key in w.origin && RowOfSource(w, w.db.rows[i], w.origin[w.db.rows[i].key])
  }

  ghost predicate Traced(cfg: Config, w: World) {
    TasksTraced(w) && ResultsTraced(cfg, w) && RowsTraced(w)
  }

  // ---- Every step keeps the trace ----

  lemma PublicationsAfter(cfg: Config, w: World, step: Step)
    requires Can(cfg, w, step) && !step.PublishTask?
    ensures Do(cfg, w, step).published == w.published
  {
  }

  lemma TasksStayTraced(cfg: Config, w: World, step: Step)
    requires TasksTraced(w) && Can(cfg, w, step)
    ensures TasksTraced(Do(cfg, w, step))
  {
    if step.PublishTask? {
      PublishedIsRead(cfg, w, step.kwargs);
    } else {
      TasksAfter(cfg, w, step);
      PublicationsAfter(cfg, w, step);
    }
  }

  /** The tasks published so far are there to stay. */
  lemma TaskStays(cfg: Config, w: World, step: Step, t: nat)
    requires Can(cfg, w, step) && t < |w.tasks.entries|
    ensures t < |Do(cfg, w, step).tasks.entries| && Do(cfg, w, step).tasks.entries[t] == w.tasks.entries[t]
  {
    TasksExtend(cfg, w, step);
  }

  lemma RowStays(cfg: Config, w: World, step: Step, row: CheckResult, src: Source)
    requires Can(cfg, w, step) && RowOfSource(w, row, src)
    ensures RowOfSource(Do(cfg, w, step), row, src)
  {
    TaskStays(cfg, w, step, src.task);
  }

  lemma ResultsStayTraced(cfg: Config, w: World, step: Step)
    requires Faithful(cfg.iso) && ResultsTraced(cfg, w) && Can(cfg, w, step)
    ensures ResultsTraced(cfg, Do(cfg, w, step))
  {
    var w' := Do(cfg, w, step);
    SourcesAfter(cfg, w, step);
    forall r | 0 <= r < |w'.results.entries|
      ensures Answer(cfg, w', w'.results.entries[r], w'.sources[r])
    {
      if r < |w.results.entries| {
        AnswerStays(cfg, w, step, w.results.entries[r], w.sources[r]);
      } else if step.Duplicate? {
        AnswerStays(cfg, w, step, w.results.entries[step.r], w.sources[step.r]);
      } else {
        ReportedIsRead(cfg, w, step.p, step.id, step.outcome, step.at);
        AnswerStays(cfg, w, step, w'.results.entries[r], w'.sources[r]);
      }
    }
  }

  lemma AnswerStays(cfg: Config, w: World, step: Step, raw: Wire, src: Source)
    requires Can(cfg, w, step) && Answer(cfg, w, raw, src)
    ensures Answer(cfg, Do(cfg, w, step), raw, src)
  {
    RowStays(cfg, w, step, ParseResult(cfg.iso, raw).value, src);
  }

  /** The steps that add a result, and what they say it answers. */
  lemma SourcesAfter(cfg: Config, w: World, step: Step)
    requires Can(cfg, w, step)
    ensures match step
      case Report(p, id, outcome, at) =>
        && Do(cfg, w, step).sources == w.sources + [Source(id, w.nodes[p].name, at, outcome)]
        && |Do(cfg, w, step).results.entries| == |w.results.entries| + 1
        && w.results.entries <= Do(cfg, w, step).results.entries
      case Duplicate(r) =>
        && Do(cfg, w, step).sources == w.sources + [SourceOf(w, r)]
        && Do(cfg, w, step).results.entries == w.results.entries + [w.results.entries[r]]
      case _ =>
        Do(cfg, w, step).sources == w.sources && Do(cfg, w, step).results.entries == w.results.entries
  {
    ResultsAfter(cfg, w, step);
  }

  /** After a step a row was there before, or has just been inserted. */
  lemma RowsAfter(cfg: Config, w: World, step: Step, row: CheckResult)
    requires Can(cfg, w, step) && row in Do(cfg, w, step).db.rows
    ensures row in w.db.rows || (step.InsertRow? && row == Result(cfg, w, w.batch[0]).value)
  {
    TablesAfter(cfg, w, step);
  }

  lemma OriginOfInsert(cfg: Config, w: World)
    requires Can(cfg, w, InsertRow)
    ensures Do(cfg, w, InsertRow).origin == w.origin[Result(cfg, w, w.batch[0]).value.key := SourceOf(w, w.batch[0])]
  {
  }

  lemma OriginOfOthers(cfg: Config, w: World, step: Step)
    requires Can(cfg, w, step) && !step.InsertRow?
    ensures Do(cfg, w, step).origin == w.origin
  {
    TablesAfter(cfg, w, step);
  }

  lemma OriginAfter(cfg: Config, w: World, step: Step)
    requires Can(cfg, w, step)
    ensures Do(cfg, w, step).origin ==
      if step.InsertRow? then w.origin[Result(cfg, w, w.batch[0]).value.key := SourceOf(w, w.batch[0])] else w.origin
  {
    if step == InsertRow {
      OriginOfInsert(cfg, w);
    } else {
      OriginOfOthers(cfg, w, step);
    }
  }

  lemma RowsStayTraced(cfg: Config, w: World, step: Step)
    requires ResultsTraced(cfg, w) && RowsTraced(w) && Can(cfg, w, step)
    ensures RowsTraced(Do(cfg, w, step))
  {
    var w' := Do(cfg, w, step);
    forall i | 0 <= i < |w'.db.rows|
      ensures w'.db.rows[i].key in w'.origin && RowOfSource(w', w'.db.rows[i], w'.origin[w'.db.rows[i].key])
    {
      var row := w'.db.rows[i];
      RowsAfter(cfg, w, step, row);
      OriginAfter(cfg, w, step);
      if step.InsertRow? && row == Result(cfg, w, w.batch[0]).value {
        assert Answer(cfg, w, w.results.entries[w.batch[0]], SourceOf(w, w.batch[0]));
        RowStays(cfg, w, step, row, SourceOf(w, w.batch[0]));
      } else {
        OldRowStays(cfg, w, step, row);
      }
    }
  }

  /** An insert takes the key of no row that is there. */
  lemma OldRowStays(cfg: Config, w: World, step: Step, row: CheckResult)
    requires RowsTraced(w) && Can(cfg, w, step) && row in w.db.rows
    ensures var w' := Do(cfg, w, step); row.key in w'.origin && RowOfSource(w', row, w'.origin[row.key])
  {
    var i :| 0 <= i < |w.db.rows| && w.db.rows[i] == row;
    RowStays(cfg, w, step, row, w.origin[row.key]);
    OriginStays(cfg, w, step, i);
  }

  lemma OriginStays(cfg: Config, w: World, step: Step, i: nat)
    requires Can(cfg, w, step) && i < |w.db.rows| && w.db.rows[i].key in w.origin
    ensures var key := w.db.rows[i].key; key in Do(cfg, w, step).origin && Do(cfg, w, step).origin[key] == w.origin[key]
  {
    OriginAfter(cfg, w, step);
    if step.InsertRow? {
      assert !HasKey(w.db.rows, Result(cfg, w, w.batch[0]).value.key);
    }
  }

  lemma {:induction false} EveryRunIsTraced(cfg: Config, w: World, steps: seq<Step>, end: World)
    requires Faithful(cfg.iso) && Traced(cfg, w) && Reaches(cfg, w, steps, end)
    ensures Traced(cfg, end)
    decreases |steps|
  {
    if steps != [] {
      TasksStayTraced(cfg, w, steps[0]);
      ResultsStayTraced(cfg, w, steps[0]);
      RowsStayTraced(cfg, w, steps[0]);
      EveryRunIsTraced(cfg, Do(cfg, w, steps[0]), steps[1..], end);
    }
  }

  // ---- What that says of every reachable state ----

  /** Each task carries the arguments of the job that published it, and the round
      of that moment. */
  lemma TasksCarryArguments(cfg: Config, now: int, steps: seq<Step>, end: World, t: nat)
    requires Faithful(cfg.iso) && Reaches(cfg, Init(now), steps, end) && t < |end.tasks.entries|
    ensures t < |end.published| && Task(end, t).Some?
    ensures Carries(Task(end, t).value, end.published[t].kwargs, end.published[t].at)
  {
    EveryRunIsTraced(cfg, Init(now), steps, end);
    assert PublishedBy(end.tasks.entries[t], end.published[t]);
  }

  /** Each result entry, duplicates included, tells the attempt that was reported. */
  lemma ResultsTellAttempts(cfg: Config, now: int, steps: seq<Step>, end: World, r: nat)
    requires Faithful(cfg.iso) && Reaches(cfg, Init(now), steps, end) && r < |end.results.entries|
    ensures r < |end.sources| && Result(cfg, end, r).Some?
    ensures RowOfSource(end, Result(cfg, end, r).value, end.sources[r])
  {
    EveryRunIsTraced(cfg, Init(now), steps, end);
    assert Answer(cfg, end, end.results.entries[r], end.sources[r]);
  }

  /** Each row tells an attempt that was reported for a task of its service, with
      the round of the moment that task was published. */
  lemma RowsAnswerTasks(cfg: Config, now: int, steps: seq<Step>, end: World, i: nat) returns (src: Source)
    requires Faithful(cfg.iso) && Reaches(cfg, Init(now), steps, end) && i < |end.db.rows|
    ensures src.task < |end.published| && src.task < |end.tasks.entries| && Task(end, src.task).Some?
    ensures var task := Task(end, src.task).value;
      && RowTells(end.db.rows[i], task, src) && task.intervalSecs > 0
      && Votes.VotedIn(end.db.rows[i], Scheduler.Round(end.published[src.task].at, task.intervalSecs))
  {
    EveryRunIsTraced(cfg, Init(now), steps, end);
    src := end.origin[end.db.rows[i].key];
    assert RowOfSource(end, end.db.rows[i], src);
    var p := end.published[src.task];
    assert PublishedBy(end.tasks.entries[src.task], p);
    var task := Task(end, src.task).value;
    Scheduler.BucketOf(p.at, task.intervalSecs, task.round);
  }

  // ---- What that says of the votes ----

  /** The rows of one service and node that answer a task published in
      [from, from + length] by a job with the given interval. */
  ghost function RowsPublishedIn(w: World, service: string, node: string, from: int, length: nat,
                                 intervalSecs: int): set<int>
  {
    set i | 0 <= i < |w.db.rows| && w.db.rows[i].service == service && w.db.rows[i].node == node
      && w.db.rows[i].key in w.origin && FromWindow(w, w.origin[w.db.rows[i].key].task, from, length, intervalSecs)
  }

  ghost predicate FromWindow(w: World, t: nat, from: int, length: nat, intervalSecs: int) {
    && t < |w.published|
    && w.published[t].kwargs.intervalSecs == intervalSecs && from <= w.published[t].at <= from + length
  }

  lemma RowOfWindowIsAVote(w: World, i: nat, from: int, length: nat, intervalSecs: int)
    requires TasksTraced(w) && RowsTraced(w) && i < |w.db.rows| && intervalSecs > 0
    requires w.db.rows[i].key in w.origin && FromWindow(w, w.origin[w.db.rows[i].key].task, from, length, intervalSecs)
    ensures i in Votes.VotesPublishedIn(w.db.rows, w.db.rows[i].service, w.db.rows[i].node, from, length, intervalSecs)
  {
    var src := w.origin[w.db.rows[i].key];
    assert RowOfSource(w, w.db.rows[i], src);
    assert PublishedBy(w.tasks.entries[src.task], w.published[src.task]);
    var at := w.published[src.task].at;
    Scheduler.BucketOf(at, intervalSecs, Task(w, src.task).value.round);
    assert w.db.rows[i].key
      == Keys.Key(w.db.rows[i].service, w.db.rows[i].node, Scheduler.Round(at, intervalSecs));
  }

  /** In every reachable state one node has at most `Rounds` rows for the tasks
      of a service published within any window. */
  lemma VotesOfAWindow(cfg: Config, now: int, steps: seq<Step>, end: World,
                       service: string, node: string, from: int, length: nat, intervalSecs: int)
    requires Faithful(cfg.iso) && Reaches(cfg, Init(now), steps, end) && intervalSecs > 0
    ensures var rows := RowsPublishedIn(end, service, node, from, length, intervalSecs);
      && rows <= Votes.VotesPublishedIn(end.db.rows, service, node, from, length, intervalSecs)
      && |rows| <= Votes.Rounds(length, intervalSecs) <= length / intervalSecs + 2
  {
    Reached(cfg, now, steps, end);
    EveryRunIsTraced(cfg, Init(now), steps, end);
    var rows := RowsPublishedIn(end, service, node, from, length, intervalSecs);
    var votes := Votes.VotesPublishedIn(end.db.rows, service, node, from, length, intervalSecs);
    forall i | i in rows
      ensures i in votes
    {
      RowOfWindowIsAVote(end, i, from, length, intervalSecs);
    }
    Votes.VoteBound(end.db.rows, service, node, from, length, intervalSecs);
    Votes.Subset(rows, votes);
  }

  // ---- What no run takes back ----

  /** The services deleted on the way. */
  function Deleted(steps: seq<Step>): set<string> {
    if steps == [] then {}
    else (if steps[0].DeleteSvc? then {steps[0].s} else {}) + Deleted(steps[1..])
  }

  lemma EvaluationKeeps(cfg: Quorum.Settings, db: Db, s: string, r: Quorum.Readings)
    requires Database.Valid(db)
    ensures Keeps(db, Quorum.Evaluate(cfg, db, s, r), {})
  {
    if s in db.services && Quorum.Total(db.rows, s, r.window - cfg.window) > 0 {
      Quorum.WhatAnEvaluationWrites(cfg, db, s, r);
      Quorum.EvaluateFrame(cfg, db, s, r);
    }
  }

  lemma StepKeepsHistory(cfg: Config, w: World, step: Step)
    requires Database.Valid(w.db) && Can(cfg, w, step)
    ensures Keeps(w.db, Do(cfg, w, step).db, if step.DeleteSvc? then {step.s} else {})
  {
    TablesAfter(cfg, w, step);
    if step.DeleteSvc? {
      DeletionKeeps(w.db, step.s);
    } else if step.InsertRow? {
      InsertionKeeps(w.db, Result(cfg, w, w.batch[0]).value);
    } else if step.Detect? {
      EvaluationKeeps(cfg.quorum, w.db, Result(cfg, w, w.batch[0]).value.service, step.readings);
    }
  }

  /** Over any run an incident once committed stays, with its service and its
      start, and once resolved with its end, and a check result once stored stays
      as it is, until their own service is deleted. */
  lemma {:induction false} HistoryStays(cfg: Config, w: World, steps: seq<Step>, end: World)
    requires Faithful(cfg.iso) && Inv(cfg, w) && Reaches(cfg, w, steps, end)
    ensures Keeps(w.db, end.db, Deleted(steps))
    decreases |steps|
  {
    if steps != [] {
      StepKeepsHistory(cfg, w, steps[0]);
      StepKeeps(cfg, w, steps[0]);
      HistoryStays(cfg, Do(cfg, w, steps[0]), steps[1..], end);
      KeepsInTurn(w.db, Do(cfg, w, steps[0]).db, end.db,
                  if steps[0].DeleteSvc? then {steps[0].s} else {}, Deleted(steps[1..]));
    }
  }
}
