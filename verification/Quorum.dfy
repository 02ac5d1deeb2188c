/** The quorum rule of the incident detector: what one evaluation decides, and
    how many failing results it takes to open an incident. */
module Quorum {
  import opened Wrappers
  import opened Database

  /** `QUORUM_FRACTION` as the exact fraction num/den, and `QUORUM_WINDOW_SECS`. */
  datatype Settings = Settings(num: int, den: int, window: nat)

  /** What the settings validator accepts: a fraction in (0, 1]. */
  predicate ValidSettings(cfg: Settings) {
    0 < cfg.num <= cfg.den
  }

  predicate IsFailing(status: string) {
    status == "down" || status == "timeout" || status == "error"
  }

  /** The rows an evaluation counts: this service's, checked since `since`. */
  predicate Counted(row: CheckResult, s: string, since: int) {
    row.service == s && row.checkedAt >= since
  }

  function Total(rows: seq<CheckResult>, s: string, since: int): nat {
    if rows == [] then 0
    else Total(rows[..|rows| - 1], s, since) + (if Counted(rows[|rows| - 1], s, since) then 1 else 0)
  }

  function Failing(rows: seq<CheckResult>, s: string, since: int): nat {
    if rows == [] then 0
    else
      var last := rows[|rows| - 1];
      Failing(rows[..|rows| - 1], s, since)
      + (if Counted(last, s, since) && IsFailing(last.status) then 1 else 0)
  }

  /** The rows of the window, and the failing ones among them, as sets. */
  ghost function InWindow(rows: seq<CheckResult>, s: string, since: int): set<int> {
    set i | 0 <= i < |rows| && rows[i].service == s && rows[i].checkedAt >= since
  }

  ghost function FailingInWindow(rows: seq<CheckResult>, s: string, since: int): set<int> {
    set i | 0 <= i < |rows| && rows[i].service == s && rows[i].checkedAt >= since
      && rows[i].status in {"down", "timeout", "error"}
  }

  lemma InWindowLast(rows: seq<CheckResult>, s: string, since: int)
    requires rows != []
    ensures var n := |rows| - 1;
      && n !in InWindow(rows[..n], s, since)
      && InWindow(rows, s, since) == InWindow(rows[..n], s, since) + (if Counted(rows[n], s, since) then {n} else {})
  {
    var n := |rows| - 1;
    forall i
      ensures i in InWindow(rows, s, since)
        <==> i in InWindow(rows[..n], s, since) || (i == n && Counted(rows[n], s, since))
    {
      assert 0 <= i < n ==> rows[..n][i] == rows[i];
    }
  }

  lemma FailingInWindowLast(rows: seq<CheckResult>, s: string, since: int)
    requires rows != []
    ensures var n := |rows| - 1;
      var more := Counted(rows[n], s, since) && IsFailing(rows[n].status);
      && n !in FailingInWindow(rows[..n], s, since)
      && FailingInWindow(rows, s, since) == FailingInWindow(rows[..n], s, since) + (if more then {n} else {})
  {
    var n := |rows| - 1;
    forall i
      ensures i in FailingInWindow(rows, s, since)
        <==> i in FailingInWindow(rows[..n], s, since)
             || (i == n && Counted(rows[n], s, since) && IsFailing(rows[n].status))
    {
      assert 0 <= i < n ==> rows[..n][i] == rows[i];
    }
  }

  /** The two numbers an evaluation compares are the sizes of these sets. */
  lemma {:induction false} CountsAreSizes(rows: seq<CheckResult>, s: string, since: int)
    ensures Total(rows, s, since) == |InWindow(rows, s, since)|
    ensures Failing(rows, s, since) == |FailingInWindow(rows, s, since)|
  {
    if rows == [] {
      assert InWindow(rows, s, since) == {} && FailingInWindow(rows, s, since) == {};
    } else {
      CountsAreSizes(rows[..|rows| - 1], s, since);
      InWindowLast(rows, s, since);
      FailingInWindowLast(rows, s, since);
    }
  }

  /** The window holds a row of the service, so the service exists. */
  lemma {:induction false} SomeRowIsCounted(rows: seq<CheckResult>, s: string, since: int)
    requires Total(rows, s, since) > 0
    ensures exists i :: 0 <= i < |rows| && rows[i].service == s
  {
    var n := |rows|;
    if !Counted(rows[n - 1], s, since) {
      SomeRowIsCounted(rows[..n - 1], s, since);
      var i :| 0 <= i < n - 1 && rows[..n - 1][i].service == s;
      assert rows[i].service == s;
    }
  }

  /** `failing / total >= QUORUM_FRACTION`, without the division. */
  predicate IsDown(cfg: Settings, failing: nat, total: nat) {
    failing * cfg.den >= cfg.num * total
  }

  /** The verdict of the quorum on the rows of a window. */
  predicate Verdict(cfg: Settings, rows: seq<CheckResult>, s: string, since: int) {
    IsDown(cfg, Failing(rows, s, since), Total(rows, s, since))
  }

  /** The clock readings of one evaluation, in the order they are taken: for the
      window, at the start of the transaction, for `resolved_at`, for `since`
      and for `last_checked_at`. */
  datatype Readings = Readings(window: int, begin: int, resolve: int, since: int, checked: int)

  predicate Ordered(r: Readings) {
    r.window <= r.begin <= r.resolve <= r.since <= r.checked
  }

  /** The commit of an evaluation that says down, or does not. */
  ghost function Decide(db: Db, s: string, r: Readings, down: bool): Db
    requires |OpenOf(db, s)| <= 1
  {
    Commit(db, s, Choose(down, Found(db, s), db.nextId, r.resolve), r.begin,
           Stamp(StatusOf(db, s), down, r.since, r.checked))
  }

  /** One evaluation that is not interrupted.  It changes nothing when the
      window is empty, when the incident query raises, or when the commit
      fails because the service is gone. */
  ghost function Evaluate(cfg: Settings, db: Db, s: string, r: Readings): Db {
    if Total(db.rows, s, r.window - cfg.window) == 0 || |OpenOf(db, s)| > 1 || s !in db.services then db
    else Decide(db, s, r, Verdict(cfg, db.rows, s, r.window - cfg.window))
  }

  lemma EvaluateIsDecide(cfg: Settings, db: Db, s: string, r: Readings)
    requires Total(db.rows, s, r.window - cfg.window) > 0 && |OpenOf(db, s)| <= 1 && s in db.services
    ensures Evaluate(cfg, db, s, r) == Decide(db, s, r, Verdict(cfg, db.rows, s, r.window - cfg.window))
  {
  }

  // ---- Evaluations and the invariant ----

  lemma EvaluationMayCommit(db: Db, s: string, r: Readings, down: bool)
    requires Valid(db) && s in db.services && Ordered(r) && db.status[s].lastChecked <= r.begin
    ensures |OpenOf(db, s)| <= 1
    ensures MayCommit(db, s, down, Choose(down, Found(db, s), db.nextId, r.resolve),
                      r.begin, Stamp(StatusOf(db, s), down, r.since, r.checked))
  {
    AtMostOneOpen(db, s);
  }

  lemma EvaluateFrame(cfg: Settings, db: Db, s: string, r: Readings)
    ensures Evaluate(cfg, db, s, r).rows == db.rows && Evaluate(cfg, db, s, r).services == db.services
    ensures forall x :: x in db.status && x != s ==>
      x in Evaluate(cfg, db, s, r).status && Evaluate(cfg, db, s, r).status[x] == db.status[x]
  {
  }

  lemma DecideKeepsValid(db: Db, s: string, r: Readings, down: bool)
    requires Valid(db) && s in db.services && Ordered(r) && db.status[s].lastChecked <= r.begin
    ensures |OpenOf(db, s)| <= 1 && Valid(Decide(db, s, r, down))
  {
    EvaluationMayCommit(db, s, r, down);
    CommitKeepsValid(db, s, down, Choose(down, Found(db, s), db.nextId, r.resolve), r.begin,
                     Stamp(StatusOf(db, s), down, r.since, r.checked));
  }

  lemma EvaluateKeepsValid(cfg: Settings, db: Db, s: string, r: Readings)
    requires Valid(db) && Ordered(r)
    requires s in db.status ==> db.status[s].lastChecked <= r.begin
    ensures Valid(Evaluate(cfg, db, s, r))
    ensures Evaluate(cfg, db, s, r).rows == db.rows && Evaluate(cfg, db, s, r).services == db.services
    ensures forall x :: x in db.status && x != s ==> Evaluate(cfg, db, s, r).status[x] == db.status[x]
  {
    EvaluateFrame(cfg, db, s, r);
    if Evaluate(cfg, db, s, r) != db {
      DecideKeepsValid(db, s, r, Verdict(cfg, db.rows, s, r.window - cfg.window));
      assert Evaluate(cfg, db, s, r) == Decide(db, s, r, Verdict(cfg, db.rows, s, r.window - cfg.window));
    }
  }

  /** It leaves an incident open, and the word "down", exactly when it said down. */
  lemma DecideDecides(db: Db, s: string, r: Readings, down: bool)
    requires Valid(db) && s in db.services && Ordered(r) && db.status[s].lastChecked <= r.begin
    ensures |OpenOf(db, s)| <= 1
    ensures var db' := Decide(db, s, r, down);
      && (OpenOf(db', s) != {} <==> down)
      && s in db'.status && (db'.status[s].current == "down" <==> down)
      && (forall x :: x != s ==> OpenOf(db', x) == OpenOf(db, x))
  {
    EvaluationMayCommit(db, s, r, down);
    CommitOpens(db, s, down, Choose(down, Found(db, s), db.nextId, r.resolve), r.begin,
                Stamp(StatusOf(db, s), down, r.since, r.checked));
  }

  /** An evaluation that finds a row leaves an incident open exactly when the
      quorum says down, and the status word says the same. */
  lemma EvaluateDecides(cfg: Settings, db: Db, s: string, r: Readings)
    requires Valid(db) && s in db.services && Ordered(r) && db.status[s].lastChecked <= r.begin
    requires Total(db.rows, s, r.window - cfg.window) > 0
    ensures var db' := Evaluate(cfg, db, s, r);
      && (OpenOf(db', s) != {} <==> Verdict(cfg, db.rows, s, r.window - cfg.window))
      && s in db'.status && (db'.status[s].current == "down" <==> OpenOf(db', s) != {})
      && (forall x :: x != s ==> OpenOf(db', x) == OpenOf(db, x))
  {
    DecideDecides(db, s, r, Verdict(cfg, db.rows, s, r.window - cfg.window));
  }

  /** What an evaluation that finds a row writes, reading by reading.  A new
      incident is dated at the beginning of the transaction, a resolution when it
      is made, a change of the word when it is made, the check at the end; nothing
      else of any incident changes. */
  lemma WhatAnEvaluationWrites(cfg: Settings, db: Db, s: string, r: Readings)
    requires Valid(db) && s in db.services && Total(db.rows, s, r.window - cfg.window) > 0
    ensures |OpenOf(db, s)| <= 1
    ensures var db' := Evaluate(cfg, db, s, r);
      var down := Verdict(cfg, db.rows, s, r.window - cfg.window);
      var word := if down then "down" else "up";
      && s in db'.status && db'.status[s].current == word && db'.status[s].lastChecked == r.checked
      && db'.status[s].since == (if db.status[s].current == word then db.status[s].since else r.since)
      && (forall id :: id in db.incidents && !(id in OpenOf(db, s) && !down) ==>
            id in db'.incidents && db'.incidents[id] == db.incidents[id])
      && (forall id :: id in OpenOf(db, s) && !down ==>
            id in db'.incidents && db'.incidents[id] == db.incidents[id].(resolvedAt := Some(r.resolve)))
      && (forall id :: id in db'.incidents && id !in db.incidents ==>
            down && OpenOf(db, s) == {} && db'.incidents[id] == Incident(s, r.begin, None, None, false))
      && (down && OpenOf(db, s) == {} ==> db.nextId in db'.incidents)
  {
    AtMostOneOpen(db, s);
  }

  /** An evaluation that says what the tables already show changes no incident,
      not the status word and not `since`. */
  lemma SameVerdictChangesNothing(cfg: Settings, db: Db, s: string, r: Readings)
    requires s in db.services && s in db.status && |OpenOf(db, s)| <= 1
    requires Total(db.rows, s, r.window - cfg.window) > 0
    requires Verdict(cfg, db.rows, s, r.window - cfg.window) <==> OpenOf(db, s) != {}
    requires db.status[s].current == if OpenOf(db, s) != {} then "down" else "up"
    ensures var db' := Evaluate(cfg, db, s, r);
      && db'.incidents == db.incidents && s in db'.status
      && db'.status[s].current == db.status[s].current && db'.status[s].since == db.status[s].since
  {
  }

  /** What an evaluation that finds a row writes into the status row. */
  lemma WordAfterEvaluation(cfg: Settings, db: Db, s: string, r: Readings)
    requires s in db.services && |OpenOf(db, s)| <= 1 && Total(db.rows, s, r.window - cfg.window) > 0
    ensures var db' := Evaluate(cfg, db, s, r);
      && s in db'.status && db'.rows == db.rows && db'.services == db.services
      && db'.status[s].current == if Verdict(cfg, db.rows, s, r.window - cfg.window) then "down" else "up"
  {
  }

  lemma EmptyWindowChangesNothing(cfg: Settings, db: Db, s: string, r: Readings)
    requires Total(db.rows, s, r.window - cfg.window) == 0
    ensures Evaluate(cfg, db, s, r) == db
  {
  }

  /** Evaluating again, with the same rows in the window, changes no incident,
      not the status word and not `since`. */
  lemma EvaluateAgainChangesNothing(cfg: Settings, db: Db, s: string, r: Readings, r2: Readings)
    requires Valid(db) && s in db.services && Ordered(r) && Ordered(r2) && r.checked <= r2.begin
    requires db.status[s].lastChecked <= r.begin
    requires Total(db.rows, s, r.window - cfg.window) == Total(db.rows, s, r2.window - cfg.window)
    requires Failing(db.rows, s, r.window - cfg.window) == Failing(db.rows, s, r2.window - cfg.window)
    ensures var once := Evaluate(cfg, db, s, r);
      var twice := Evaluate(cfg, once, s, r2);
      && s in once.status && s in twice.status
      && twice.incidents == once.incidents
      && twice.status[s].current == once.status[s].current
      && twice.status[s].since == once.status[s].since
  {
    var once := Evaluate(cfg, db, s, r);
    if Total(db.rows, s, r.window - cfg.window) == 0 {
      EmptyWindowChangesNothing(cfg, db, s, r);
      EmptyWindowChangesNothing(cfg, db, s, r2);
    } else {
      AtMostOneOpen(db, s);
      WordAfterEvaluation(cfg, db, s, r);
      EvaluateKeepsValid(cfg, db, s, r);
      EvaluateDecides(cfg, db, s, r);
      AtMostOneOpen(once, s);
      SameVerdictChangesNothing(cfg, once, s, r2);
    }
  }

  // ---- One more result ----

  /** A failing result never ends an outage and an up result never starts one. */
  lemma OneMoreResult(cfg: Settings, failing: nat, total: nat)
    requires ValidSettings(cfg)
    ensures IsDown(cfg, failing, total) ==> IsDown(cfg, failing + 1, total + 1)
    ensures !IsDown(cfg, failing, total) ==> !IsDown(cfg, failing, total + 1)
  {
    assert (failing + 1) * cfg.den == failing * cfg.den + cfg.den;
    assert cfg.num * (total + 1) == cfg.num * total + cfg.num;
  }

  lemma CountsAppend(rows: seq<CheckResult>, row: CheckResult, s: string, since: int)
    ensures Total(rows + [row], s, since)
         == Total(rows, s, since) + (if Counted(row, s, since) then 1 else 0)
    ensures Failing(rows + [row], s, since)
         == Failing(rows, s, since) + (if Counted(row, s, since) && IsFailing(row.status) then 1 else 0)
  {
    assert (rows + [row])[..|rows|] == rows;
  }

  // ---- Detection and recovery within one window ----

  lemma {:induction false} AllFailing(rows: seq<CheckResult>, s: string, since: int)
    requires forall i :: 0 <= i < |rows| && Counted(rows[i], s, since) ==> IsFailing(rows[i].status)
    ensures Failing(rows, s, since) == Total(rows, s, since)
  {
    if rows != [] {
      var front := rows[..|rows| - 1];
      assert forall i :: 0 <= i < |front| ==> front[i] == rows[i];
      AllFailing(front, s, since);
    }
  }

  lemma {:induction false} NoneFailing(rows: seq<CheckResult>, s: string, since: int)
    requires forall i :: 0 <= i < |rows| && Counted(rows[i], s, since) ==> !IsFailing(rows[i].status)
    ensures Failing(rows, s, since) == 0
  {
    if rows != [] {
      var front := rows[..|rows| - 1];
      assert forall i :: 0 <= i < |front| ==> front[i] == rows[i];
      NoneFailing(front, s, since);
    }
  }

  lemma FullWindowIsDown(cfg: Settings, rows: seq<CheckResult>, s: string, since: int)
    requires ValidSettings(cfg)
    requires forall i :: 0 <= i < |rows| && Counted(rows[i], s, since) ==> IsFailing(rows[i].status)
    ensures Verdict(cfg, rows, s, since)
  {
    AllFailing(rows, s, since);
    assert Total(rows, s, since) * (cfg.den - cfg.num) >= 0;
  }

  lemma NoFailureIsUp(cfg: Settings, rows: seq<CheckResult>, s: string, since: int)
    requires ValidSettings(cfg) && Total(rows, s, since) > 0
    requires forall i :: 0 <= i < |rows| && Counted(rows[i], s, since) ==> !IsFailing(rows[i].status)
    ensures !Verdict(cfg, rows, s, since)
  {
    NoneFailing(rows, s, since);
    assert cfg.num * Total(rows, s, since) > 0;
  }

  /** If every row of the service since `from` is failing, any evaluation one
      window later that finds a row leaves an incident open. */
  lemma DetectedWithinAWindow(cfg: Settings, db: Db, s: string, r: Readings, from: int)
    requires ValidSettings(cfg)
    requires Valid(db) && s in db.services && Ordered(r) && db.status[s].lastChecked <= r.begin
    requires forall i :: 0 <= i < |db.rows| && Counted(db.rows[i], s, from) ==> IsFailing(db.rows[i].status)
    requires r.window >= from + cfg.window
    requires Total(db.rows, s, r.window - cfg.window) > 0
    ensures OpenOf(Evaluate(cfg, db, s, r), s) != {}
  {
    var since := r.window - cfg.window;
    EvaluateDecides(cfg, db, s, r);
    FullWindowIsDown(cfg, db.rows, s, since);
  }

  /** If none of them is failing, it leaves no incident open. */
  lemma RecoveredWithinAWindow(cfg: Settings, db: Db, s: string, r: Readings, from: int)
    requires ValidSettings(cfg)
    requires Valid(db) && s in db.services && Ordered(r) && db.status[s].lastChecked <= r.begin
    requires forall i :: 0 <= i < |db.rows| && Counted(db.rows[i], s, from) ==> !IsFailing(db.rows[i].status)
    requires r.window >= from + cfg.window
    requires Total(db.rows, s, r.window - cfg.window) > 0
    ensures OpenOf(Evaluate(cfg, db, s, r), s) == {}
  {
    var since := r.window - cfg.window;
    EvaluateDecides(cfg, db, s, r);
    NoFailureIsUp(cfg, db.rows, s, since);
  }

  // ---- Exactly how many failing results open an incident ----

  datatype Arrival = Arrival(row: CheckResult, readings: Readings)

  /** Results arriving one by one, each inserted and then evaluated. */
  ghost function Feed(cfg: Settings, db: Db, arrivals: seq<Arrival>): Db {
    if arrivals == [] then db
    else
      FeedOne(cfg, Feed(cfg, db, arrivals[..|arrivals| - 1]), arrivals[|arrivals| - 1])
  }

  /** The arrivals are results of `s` with keys of their own, all failing or all
      not, evaluated in turn, and at each evaluation the window holds all the
      earlier arrivals and exactly `t` older rows, `f` of them failing: nothing
      expires. */
  ghost predicate Stretch(cfg: Settings, db: Db, s: string, arrivals: seq<Arrival>, t: nat, f: nat, bad: bool) {
    && s in db.services && s in db.status
    && (forall k :: 0 <= k < |arrivals| ==>
          var r := arrivals[k].readings;
          && arrivals[k].row.service == s && IsFailing(arrivals[k].row.status) == bad
          && !HasKey(db.rows, arrivals[k].row.key)
          && Ordered(r) && db.status[s].lastChecked <= r.begin
          && Total(db.rows, s, r.window - cfg.window) == t
          && Failing(db.rows, s, r.window - cfg.window) == f)
    && (forall j, k :: 0 <= j < k < |arrivals| ==>
          && arrivals[j].row.key != arrivals[k].row.key
          && arrivals[j].readings.checked <= arrivals[k].readings.begin)
    && (forall j, k :: 0 <= j <= k < |arrivals| ==>
          arrivals[j].row.checkedAt >= arrivals[k].readings.window - cfg.window)
  }

  ghost predicate Outage(cfg: Settings, db: Db, s: string, arrivals: seq<Arrival>, t: nat, f: nat) {
    Stretch(cfg, db, s, arrivals, t, f, true)
  }

  ghost predicate Recovery(cfg: Settings, db: Db, s: string, arrivals: seq<Arrival>, t: nat, f: nat) {
    Stretch(cfg, db, s, arrivals, t, f, false)
  }

  function RowsOf(arrivals: seq<Arrival>): seq<CheckResult> {
    seq(|arrivals|, i requires 0 <= i < |arrivals| => arrivals[i].row)
  }

  /** How many of k results alike are failing. */
  function Bads(bad: bool, k: nat): nat {
    if bad then k else 0
  }

  lemma RowsOfLast(rows: seq<CheckResult>, arrivals: seq<Arrival>)
    requires arrivals != []
    ensures var n := |arrivals| - 1;
      rows + RowsOf(arrivals) == (rows + RowsOf(arrivals[..n])) + [arrivals[n].row]
  {
  }

  lemma {:induction false} CountsOfArrivals(rows: seq<CheckResult>, arrivals: seq<Arrival>, s: string, since: int,
                                           bad: bool)
    requires forall k :: 0 <= k < |arrivals| ==>
      Counted(arrivals[k].row, s, since) && IsFailing(arrivals[k].row.status) == bad
    ensures Total(rows + RowsOf(arrivals), s, since) == Total(rows, s, since) + |arrivals|
    ensures Failing(rows + RowsOf(arrivals), s, since) == Failing(rows, s, since) + Bads(bad, |arrivals|)
  {
    if arrivals == [] {
      assert rows + RowsOf(arrivals) == rows;
    } else {
      var n := |arrivals| - 1;
      CountsOfArrivals(rows, arrivals[..n], s, since, bad);
      RowsOfLast(rows, arrivals);
      CountsAppend(rows + RowsOf(arrivals[..n]), arrivals[n].row, s, since);
    }
  }

  /** What holds of the tables after the arrivals. */
  ghost predicate Outlasted(cfg: Settings, db: Db, db': Db, s: string, arrivals: seq<Arrival>)
    requires s in db.status
  {
    && Valid(db')
    && db'.rows == db.rows + RowsOf(arrivals)
    && db'.services == db.services && s in db'.status
    && (if arrivals == [] then db'.status[s] == db.status[s]
        else
          var r := arrivals[|arrivals| - 1].readings;
          && db'.status[s].lastChecked <= r.checked
          && (OpenOf(db', s) != {} <==> Verdict(cfg, db'.rows, s, r.window - cfg.window)))
  }

  /** One more row and its evaluation. */
  ghost function FeedOne(cfg: Settings, db: Db, a: Arrival): Db {
    Evaluate(cfg, Insert(db, a.row), a.row.service, a.readings)
  }

  /** The row can go in and be evaluated, and the evaluation counts it. */
  ghost predicate CanFeed(cfg: Settings, db: Db, a: Arrival) {
    && !Conflicts(db, a.row) && Ordered(a.readings)
    && a.row.service in db.status && db.status[a.row.service].lastChecked <= a.readings.begin
    && a.row.checkedAt >= a.readings.window - cfg.window
  }

  lemma FedRowIsCounted(cfg: Settings, db: Db, a: Arrival)
    requires CanFeed(cfg, db, a)
    ensures Total(Insert(db, a.row).rows, a.row.service, a.readings.window - cfg.window) > 0
  {
    CountsAppend(db.rows, a.row, a.row.service, a.readings.window - cfg.window);
  }

  lemma EvaluateChecks(cfg: Settings, db: Db, s: string, r: Readings)
    requires s in db.services && |OpenOf(db, s)| <= 1 && Total(db.rows, s, r.window - cfg.window) > 0
    ensures s in Evaluate(cfg, db, s, r).status && Evaluate(cfg, db, s, r).status[s].lastChecked == r.checked
  {
  }

  lemma FeedOneDecides(cfg: Settings, db: Db, a: Arrival)
    requires Valid(db) && CanFeed(cfg, db, a)
    ensures var db' := FeedOne(cfg, db, a);
      var s := a.row.service;
      && Valid(db') && db'.rows == db.rows + [a.row] && db'.services == db.services
      && s in db'.status && db'.status[s].lastChecked == a.readings.checked
      && (OpenOf(db', s) != {} <==> Verdict(cfg, db'.rows, s, a.readings.window - cfg.window))
  {
    var fed := Insert(db, a.row);
    InsertKeepsValid(db, a.row);
    FedRowIsCounted(cfg, db, a);
    AtMostOneOpen(fed, a.row.service);
    EvaluateKeepsValid(cfg, fed, a.row.service, a.readings);
    EvaluateDecides(cfg, fed, a.row.service, a.readings);
    EvaluateChecks(cfg, fed, a.row.service, a.readings);
  }

  /** The last arrival finds its place, and the clock past the last check. */
  lemma LastArrival(cfg: Settings, db: Db, mid: Db, s: string, arrivals: seq<Arrival>, t: nat, f: nat, bad: bool)
    requires arrivals != [] && Stretch(cfg, db, s, arrivals, t, f, bad)
    requires Outlasted(cfg, db, mid, s, arrivals[..|arrivals| - 1])
    ensures var a := arrivals[|arrivals| - 1];
      a.row.service == s && CanFeed(cfg, mid, a) && mid.rows + [a.row] == db.rows + RowsOf(arrivals)
  {
    NoConflict(cfg, db, mid, s, arrivals, t, f, bad);
    if |arrivals| > 1 {
      assert arrivals[|arrivals| - 2].readings.checked <= arrivals[|arrivals| - 1].readings.begin;
    }
  }

  lemma StretchStep(cfg: Settings, db: Db, mid: Db, s: string, arrivals: seq<Arrival>, t: nat, f: nat, bad: bool)
    requires arrivals != [] && Stretch(cfg, db, s, arrivals, t, f, bad)
    requires Outlasted(cfg, db, mid, s, arrivals[..|arrivals| - 1])
    ensures Outlasted(cfg, db, FeedOne(cfg, mid, arrivals[|arrivals| - 1]), s, arrivals)
  {
    var a := arrivals[|arrivals| - 1];
    LastArrival(cfg, db, mid, s, arrivals, t, f, bad);
    FeedOneDecides(cfg, mid, a);
    OutlastsOneMore(cfg, db, FeedOne(cfg, mid, a), s, arrivals);
  }

  lemma OutlastsOneMore(cfg: Settings, db: Db, db': Db, s: string, arrivals: seq<Arrival>)
    requires s in db.status && arrivals != []
    requires Valid(db') && db'.rows == db.rows + RowsOf(arrivals) && db'.services == db.services && s in db'.status
    requires db'.status[s].lastChecked == arrivals[|arrivals| - 1].readings.checked
    requires OpenOf(db', s) != {}
      <==> Verdict(cfg, db'.rows, s, arrivals[|arrivals| - 1].readings.window - cfg.window)
    ensures Outlasted(cfg, db, db', s, arrivals)
  {
  }

  /** During a stretch the invariant holds, the table gains the arrivals, and
      after each of them an incident is open exactly when the verdict on the
      window is down. */
  lemma {:induction false} AfterStretch(cfg: Settings, db: Db, s: string, arrivals: seq<Arrival>, t: nat, f: nat,
                                       bad: bool)
    requires Valid(db) && Stretch(cfg, db, s, arrivals, t, f, bad)
    ensures Outlasted(cfg, db, Feed(cfg, db, arrivals), s, arrivals)
  {
    if arrivals == [] {
      assert db.rows + RowsOf(arrivals) == db.rows;
    } else {
      var front := arrivals[..|arrivals| - 1];
      assert Stretch(cfg, db, s, front, t, f, bad) by {
        assert forall k :: 0 <= k < |front| ==> front[k] == arrivals[k];
      }
      AfterStretch(cfg, db, s, front, t, f, bad);
      StretchStep(cfg, db, Feed(cfg, db, front), s, arrivals, t, f, bad);
    }
  }

  /** At the last evaluation of a stretch all arrivals are in the window. */
  lemma AllArrivalsCount(cfg: Settings, db: Db, s: string, arrivals: seq<Arrival>, t: nat, f: nat, bad: bool)
    requires Stretch(cfg, db, s, arrivals, t, f, bad) && arrivals != []
    ensures var since := arrivals[|arrivals| - 1].readings.window - cfg.window;
      && Total(db.rows, s, since) == t && Failing(db.rows, s, since) == f
      && forall k :: 0 <= k < |arrivals| ==>
           Counted(arrivals[k].row, s, since) && IsFailing(arrivals[k].row.status) == bad
  {
  }

  lemma CountsAfterStretch(cfg: Settings, db: Db, s: string, arrivals: seq<Arrival>, t: nat, f: nat, bad: bool)
    requires Stretch(cfg, db, s, arrivals, t, f, bad) && arrivals != []
    ensures var since := arrivals[|arrivals| - 1].readings.window - cfg.window;
      && Total(db.rows + RowsOf(arrivals), s, since) == t + |arrivals|
      && Failing(db.rows + RowsOf(arrivals), s, since) == f + Bads(bad, |arrivals|)
  {
    AllArrivalsCount(cfg, db, s, arrivals, t, f, bad);
    CountsOfArrivals(db.rows, arrivals, s, arrivals[|arrivals| - 1].readings.window - cfg.window, bad);
  }

  lemma OutlastedSays(cfg: Settings, db: Db, db': Db, s: string, arrivals: seq<Arrival>)
    requires s in db.status && Outlasted(cfg, db, db', s, arrivals) && arrivals != []
    ensures OpenOf(db', s) != {}
      <==> Verdict(cfg, db.rows + RowsOf(arrivals), s, arrivals[|arrivals| - 1].readings.window - cfg.window)
  {
  }

  lemma VerdictAfterStretch(cfg: Settings, db: Db, s: string, arrivals: seq<Arrival>, t: nat, f: nat, bad: bool)
    requires Valid(db) && Stretch(cfg, db, s, arrivals, t, f, bad) && arrivals != []
    ensures OpenOf(Feed(cfg, db, arrivals), s) != {}
      <==> Verdict(cfg, db.rows + RowsOf(arrivals), s, arrivals[|arrivals| - 1].readings.window - cfg.window)
  {
    AfterStretch(cfg, db, s, arrivals, t, f, bad);
    OutlastedSays(cfg, db, Feed(cfg, db, arrivals), s, arrivals);
  }

  lemma NoConflict(cfg: Settings, db: Db, mid: Db, s: string, arrivals: seq<Arrival>, t: nat, f: nat, bad: bool)
    requires arrivals != [] && Stretch(cfg, db, s, arrivals, t, f, bad)
    requires mid.services == db.services
    requires mid.rows == db.rows + RowsOf(arrivals[..|arrivals| - 1])
    ensures !Conflicts(mid, arrivals[|arrivals| - 1].row)
  {
    var key := arrivals[|arrivals| - 1].row.key;
    forall i | 0 <= i < |mid.rows|
      ensures mid.rows[i].key != key
    {
      if i < |db.rows| {
        assert mid.rows[i] == db.rows[i];
      } else {
        assert mid.rows[i] == arrivals[i - |db.rows|].row;
      }
    }
  }

  lemma DownAfterFailures(cfg: Settings, t: nat, f: nat, k: nat)
    ensures IsDown(cfg, f + k, t + k) <==> k * (cfg.den - cfg.num) >= cfg.num * t - cfg.den * f
  {
    assert (f + k) * cfg.den == cfg.den * f + k * cfg.den;
    assert cfg.num * (t + k) == cfg.num * t + k * cfg.num;
    assert k * (cfg.den - cfg.num) == k * cfg.den - k * cfg.num;
  }

  lemma UpAfterSuccesses(cfg: Settings, t: nat, f: nat, k: nat)
    ensures !IsDown(cfg, f, t + k) <==> cfg.num * k > cfg.den * f - cfg.num * t
  {
    assert cfg.num * (t + k) == cfg.num * t + cfg.num * k;
  }

  lemma DownIff(cfg: Settings, rows: seq<CheckResult>, s: string, since: int, t: nat, f: nat, k: nat)
    requires Failing(rows, s, since) == f + k && Total(rows, s, since) == t + k
    ensures Verdict(cfg, rows, s, since) <==> k * (cfg.den - cfg.num) >= cfg.num * t - cfg.den * f
  {
    DownAfterFailures(cfg, t, f, k);
  }

  lemma UpIff(cfg: Settings, rows: seq<CheckResult>, s: string, since: int, t: nat, f: nat, k: nat)
    requires Failing(rows, s, since) == f && Total(rows, s, since) == t + k
    ensures !Verdict(cfg, rows, s, since) <==> cfg.num * k > cfg.den * f - cfg.num * t
  {
    UpAfterSuccesses(cfg, t, f, k);
  }

  lemma VerdictOfOutage(cfg: Settings, db: Db, s: string, arrivals: seq<Arrival>, t: nat, f: nat)
    requires Outage(cfg, db, s, arrivals, t, f) && arrivals != []
    ensures Verdict(cfg, db.rows + RowsOf(arrivals), s, arrivals[|arrivals| - 1].readings.window - cfg.window)
      <==> |arrivals| * (cfg.den - cfg.num) >= cfg.num * t - cfg.den * f
  {
    CountsAfterStretch(cfg, db, s, arrivals, t, f, true);
    var since := arrivals[|arrivals| - 1].readings.window - cfg.window;
    DownIff(cfg, db.rows + RowsOf(arrivals), s, since, t, f, |arrivals|);
  }

  lemma VerdictOfRecovery(cfg: Settings, db: Db, s: string, arrivals: seq<Arrival>, t: nat, f: nat)
    requires Recovery(cfg, db, s, arrivals, t, f) && arrivals != []
    ensures !Verdict(cfg, db.rows + RowsOf(arrivals), s, arrivals[|arrivals| - 1].readings.window - cfg.window)
      <==> cfg.num * |arrivals| > cfg.den * f - cfg.num * t
  {
    CountsAfterStretch(cfg, db, s, arrivals, t, f, false);
    var since := arrivals[|arrivals| - 1].readings.window - cfg.window;
    UpIff(cfg, db.rows + RowsOf(arrivals), s, since, t, f, |arrivals|);
  }

  /** During an outage, after k >= 1 failing results, an incident is open exactly
      when k * (den - num) >= num * t - den * f. */
  lemma OpenAfter(cfg: Settings, db: Db, s: string, arrivals: seq<Arrival>, t: nat, f: nat)
    requires Valid(db) && Outage(cfg, db, s, arrivals, t, f) && arrivals != []
    ensures OpenOf(Feed(cfg, db, arrivals), s) != {}
      <==> |arrivals| * (cfg.den - cfg.num) >= cfg.num * t - cfg.den * f
  {
    VerdictAfterStretch(cfg, db, s, arrivals, t, f, true);
    VerdictOfOutage(cfg, db, s, arrivals, t, f);
  }

  /** During a recovery, after k >= 1 results that are not failing, none is open
      exactly when num * k > den * f - num * t. */
  lemma ClosedAfter(cfg: Settings, db: Db, s: string, arrivals: seq<Arrival>, t: nat, f: nat)
    requires Valid(db) && Recovery(cfg, db, s, arrivals, t, f) && arrivals != []
    ensures OpenOf(Feed(cfg, db, arrivals), s) == {} <==> cfg.num * |arrivals| > cfg.den * f - cfg.num * t
  {
    VerdictAfterStretch(cfg, db, s, arrivals, t, f, false);
    VerdictOfRecovery(cfg, db, s, arrivals, t, f);
  }

  /** The number of results that are not failing a recovery needs. */
  function NeededUp(cfg: Settings, t: nat, f: nat): (k: nat)
    requires ValidSettings(cfg)
    ensures k >= 1
  {
    var excess := cfg.den * f - cfg.num * t;
    if excess < cfg.num then 1 else excess / cfg.num + 1
  }

  lemma Scaled(a: int, b: int, n: nat)
    requires a <= b
    ensures n * a <= n * b
  {
  }

  lemma FloorDivision(k: int, excess: int, num: int)
    requires num > 0
    ensures num * k > excess <==> k >= excess / num + 1
  {
    var q := excess / num;
    assert excess == num * q + excess % num;
    if k >= q + 1 {
      Scaled(q + 1, k, num);
      assert num * (q + 1) == num * q + num;
    } else {
      Scaled(k, q, num);
    }
  }

  lemma NeededUpIsTheThreshold(cfg: Settings, t: nat, f: nat, k: nat)
    requires ValidSettings(cfg) && k >= 1
    ensures cfg.num * k > cfg.den * f - cfg.num * t <==> k >= NeededUp(cfg, t, f)
  {
    FloorDivision(k, cfg.den * f - cfg.num * t, cfg.num);
    assert cfg.num * (k - 1) >= 0;
  }

  /** Nothing is open after the k-th such result exactly when k has reached
      `NeededUp`: the incident is resolved at the first such k and stays so. */
  lemma ClosesExactlyAtNeededUp(cfg: Settings, db: Db, s: string, arrivals: seq<Arrival>, t: nat, f: nat)
    requires ValidSettings(cfg) && arrivals != []
    requires Valid(db) && Recovery(cfg, db, s, arrivals, t, f)
    ensures OpenOf(Feed(cfg, db, arrivals), s) == {} <==> |arrivals| >= NeededUp(cfg, t, f)
  {
    ClosedAfter(cfg, db, s, arrivals, t, f);
    NeededUpIsTheThreshold(cfg, t, f, |arrivals|);
  }

  /** The number of failing results an outage needs, when num < den. */
  function Needed(cfg: Settings, t: nat, f: nat): (k: nat)
    requires ValidSettings(cfg) && cfg.num < cfg.den
    ensures k >= 1
  {
    var missing := cfg.num * t - cfg.den * f;
    var gain := cfg.den - cfg.num;
    if missing <= gain then 1 else (missing + gain - 1) / gain
  }

  lemma CeilingDivision(k: int, missing: int, gain: int)
    requires gain > 0
    ensures k * gain >= missing <==> k >= (missing + gain - 1) / gain
  {
    var c := (missing + gain - 1) / gain;
    assert c * gain <= missing + gain - 1 < c * gain + gain;
    if k >= c {
      assert k * gain >= c * gain;
    } else {
      assert k * gain <= (c - 1) * gain;
    }
  }

  lemma NeededIsTheThreshold(cfg: Settings, t: nat, f: nat, k: nat)
    requires ValidSettings(cfg) && cfg.num < cfg.den && k >= 1
    ensures k * (cfg.den - cfg.num) >= cfg.num * t - cfg.den * f <==> k >= Needed(cfg, t, f)
  {
    var missing := cfg.num * t - cfg.den * f;
    var gain := cfg.den - cfg.num;
    CeilingDivision(k, missing, gain);
    assert k * gain >= gain;
  }

  /** The incident is open after the k-th failing result exactly when k has
      reached `Needed`: it opens at the first such k and stays open. */
  lemma OpensExactlyAtNeeded(cfg: Settings, db: Db, s: string, arrivals: seq<Arrival>, t: nat, f: nat)
    requires ValidSettings(cfg) && cfg.num < cfg.den && arrivals != []
    requires Valid(db) && Outage(cfg, db, s, arrivals, t, f)
    ensures OpenOf(Feed(cfg, db, arrivals), s) != {} <==> |arrivals| >= Needed(cfg, t, f)
  {
    OpenAfter(cfg, db, s, arrivals, t, f);
    NeededIsTheThreshold(cfg, t, f, |arrivals|);
  }

  // ---- Results, not nodes, are counted ----

  /** The same results, reported by any nodes whatever. */
  predicate SameButForNodes(rows: seq<CheckResult>, rows': seq<CheckResult>) {
    && |rows'| == |rows|
    && forall i :: 0 <= i < |rows| ==>
         && rows'[i].service == rows[i].service && rows'[i].checkedAt == rows[i].checkedAt
         && rows'[i].status == rows[i].status
  }

  lemma {:induction false} NodesDoNotMatter(rows: seq<CheckResult>, rows': seq<CheckResult>, s: string, since: int)
    requires SameButForNodes(rows, rows')
    ensures Total(rows', s, since) == Total(rows, s, since)
    ensures Failing(rows', s, since) == Failing(rows, s, since)
  {
    if rows != [] {
      var n := |rows| - 1;
      NodesDoNotMatter(rows[..n], rows'[..n], s, since);
    }
  }

  /** So one failing result of one node can open an incident: it does exactly
      when, counting itself, the window holds at most den / num results. */
  lemma OneFailureOpensIff(cfg: Settings, db: Db, s: string, a: Arrival, t: nat)
    requires ValidSettings(cfg) && Valid(db) && Outage(cfg, db, s, [a], t, 0)
    ensures OpenOf(Feed(cfg, db, [a]), s) != {} <==> cfg.num * (t + 1) <= cfg.den
  {
    OpenAfter(cfg, db, s, [a], t, 0);
    assert cfg.num * (t + 1) == cfg.num * t + cfg.num;
  }
}
