/** From the attempts to the incidents: which results count as failures, and what
    the detector makes of a service that stays up or stays down. */
module Detection {
  import opened Codec
  import opened Database
  import opened Quorum
  import Pipeline
  import Probe
  import Provenance

  /** A result counts as a failure exactly when the attempt was not a response
      with the expected code. */
  lemma FailingIffNotUp(row: CheckResult, expected: int, o: Probe.Outcome)
    requires Probe.Tells(row, expected, o)
    ensures IsFailing(row.status) <==> row.status != "up"
    ensures row.status != "up" <==> !(o.Response? && o.code == expected)
  {
  }

  lemma RecordIsFailingIffNotUp(expected: int, o: Probe.Outcome)
    ensures IsFailing(Probe.Record(expected, o).status) <==> Probe.Record(expected, o).status != "up"
    ensures Probe.Record(expected, o).status == "up" <==> o.Response? && o.code == expected
  {
  }

  /** The row is what the coordinator reads of some attempt. */
  ghost predicate Probed(row: CheckResult) {
    exists expected, o :: Probe.Tells(row, expected, o)
  }

  lemma ProbedFailsIffNotUp(row: CheckResult)
    requires Probed(row)
    ensures IsFailing(row.status) <==> row.status != "up"
  {
    var expected, o :| Probe.Tells(row, expected, o);
    FailingIffNotUp(row, expected, o);
  }

  /** The rows of a service since `from` are all of attempts, and all up or all not. */
  ghost predicate AllSince(rows: seq<CheckResult>, s: string, from: int, up: bool) {
    forall i :: 0 <= i < |rows| && rows[i].service == s && rows[i].checkedAt >= from ==>
      Probed(rows[i]) && (rows[i].status == "up" <==> up)
  }

  lemma CountedSince(rows: seq<CheckResult>, s: string, from: int, up: bool)
    requires AllSince(rows, s, from, up)
    ensures forall i :: 0 <= i < |rows| && Counted(rows[i], s, from) ==> (IsFailing(rows[i].status) <==> !up)
  {
    forall i | 0 <= i < |rows| && Counted(rows[i], s, from)
      ensures IsFailing(rows[i].status) <==> !up
    {
      ProbedFailsIffNotUp(rows[i]);
    }
  }

  /** If no attempt since `from` was up, an evaluation one window later that finds
      a row leaves an incident open; if all were, it leaves none. */
  lemma DetectedOrRecovered(cfg: Settings, db: Db, s: string, r: Readings, from: int, up: bool)
    requires ValidSettings(cfg)
    requires Valid(db) && s in db.services && Ordered(r) && db.status[s].lastChecked <= r.begin
    requires AllSince(db.rows, s, from, up) && r.window >= from + cfg.window
    requires Total(db.rows, s, r.window - cfg.window) > 0
    ensures OpenOf(Evaluate(cfg, db, s, r), s) == {} <==> up
  {
    CountedSince(db.rows, s, from, up);
    if up {
      RecoveredWithinAWindow(cfg, db, s, r, from);
    } else {
      DetectedWithinAWindow(cfg, db, s, r, from);
    }
  }

  /** In every reachable state of the pipeline every row is of an attempt, and
      counts as a failure exactly when that was not the expected response. */
  lemma EveryRowIsProbed(cfg: Pipeline.Config, now: int, steps: seq<Pipeline.Step>, end: Pipeline.World, i: nat)
    returns (src: Pipeline.Source)
    requires Faithful(cfg.iso) && Pipeline.Reaches(cfg, Pipeline.Init(now), steps, end) && i < |end.db.rows|
    ensures Probed(end.db.rows[i])
    ensures src.task < |end.tasks.entries| && Pipeline.Task(end, src.task).Some?
    ensures var expected := Pipeline.Task(end, src.task).value.expectedStatus;
      && Probe.Tells(end.db.rows[i], expected, src.outcome)
      && (IsFailing(end.db.rows[i].status) <==> !(src.outcome.Response? && src.outcome.code == expected))
  {
    src := Provenance.RowsAnswerTasks(cfg, now, steps, end, i);
    FailingIffNotUp(end.db.rows[i], Pipeline.Task(end, src.task).value.expectedStatus, src.outcome);
  }

  /** The rows of a service since `from` all say "up", or none does. */
  ghost predicate SayUp(rows: seq<CheckResult>, s: string, from: int, up: bool) {
    forall i :: 0 <= i < |rows| && rows[i].service == s && rows[i].checkedAt >= from ==>
      (rows[i].status == "up" <==> up)
  }

  lemma AllAreProbed(cfg: Pipeline.Config, now: int, steps: seq<Pipeline.Step>, end: Pipeline.World,
                     s: string, from: int, up: bool)
    requires Faithful(cfg.iso) && Pipeline.Reaches(cfg, Pipeline.Init(now), steps, end)
    requires SayUp(end.db.rows, s, from, up)
    ensures AllSince(end.db.rows, s, from, up)
  {
    forall i | 0 <= i < |end.db.rows|
      ensures Probed(end.db.rows[i])
    {
      var src := EveryRowIsProbed(cfg, now, steps, end, i);
    }
  }

  /** So there the statuses alone decide. */
  lemma {:induction false} ReachableDetection(cfg: Pipeline.Config, now: int, steps: seq<Pipeline.Step>,
                                             end: Pipeline.World, s: string, r: Readings, from: int, up: bool)
    requires Faithful(cfg.iso) && Pipeline.Reaches(cfg, Pipeline.Init(now), steps, end)
    requires ValidSettings(cfg.quorum) && s in end.db.services && Ordered(r) && end.now <= r.window
    requires SayUp(end.db.rows, s, from, up)
    requires r.window >= from + cfg.quorum.window && Total(end.db.rows, s, r.window - cfg.quorum.window) > 0
    ensures OpenOf(Evaluate(cfg.quorum, end.db, s, r), s) == {} <==> up
  {
    AllAreProbed(cfg, now, steps, end, s, from, up);
    Pipeline.TablesStayValid(cfg, now, steps, end, s);
    DetectedOrRecovered(cfg.quorum, end.db, s, r, from, up);
  }
}
