/** When the quorum of results is a quorum of nodes: that an incident opens only
    if enough of the nodes that report have reported a failure. */
module Agreement {
  import opened Wrappers
  import opened Database
  import opened Quorum

  /** The nodes with a row in the window, and those with a failing one. */
  function NodesIn(rows: seq<CheckResult>, s: string, since: int): set<string> {
    set i | 0 <= i < |rows| && Counted(rows[i], s, since) :: rows[i].node
  }

  function FailingNodes(rows: seq<CheckResult>, s: string, since: int): set<string> {
    set i | 0 <= i < |rows| && Counted(rows[i], s, since) && IsFailing(rows[i].status) :: rows[i].node
  }

  /** Enough of the nodes agree: the quorum as it is documented. */
  predicate NodesSayDown(cfg: Settings, rows: seq<CheckResult>, s: string, since: int) {
    IsDown(cfg, |FailingNodes(rows, s, since)|, |NodesIn(rows, s, since)|)
  }

  /** How many rows of the window are of these nodes. */
  function Share(rows: seq<CheckResult>, s: string, since: int, ns: set<string>): nat {
    if rows == [] then 0
    else
      var last := rows[|rows| - 1];
      Share(rows[..|rows| - 1], s, since, ns) + (if Counted(last, s, since) && last.node in ns then 1 else 0)
  }

  /** The same reports with any statuses whatever. */
  ghost predicate SameButForStatuses(rows: seq<CheckResult>, rows': seq<CheckResult>) {
    && |rows'| == |rows|
    && forall i :: 0 <= i < |rows| ==> rows'[i] == rows[i].(status := rows'[i].status)
  }

  /** The quorum of results is met only if that of nodes is, whatever the reports
      of this window say. */
  ghost predicate OpensOnlyByAgreement(cfg: Settings, rows: seq<CheckResult>, s: string, since: int) {
    forall rows' :: SameButForStatuses(rows, rows') && Verdict(cfg, rows', s, since)
      ==> NodesSayDown(cfg, rows', s, since)
  }

  /** Nodes too few to be a quorum have too few of the rows to be one.  Who
      reported how often decides this, before any status is known. */
  ghost predicate NoMinorityHoldsAQuorum(cfg: Settings, rows: seq<CheckResult>, s: string, since: int) {
    forall ns :: ns <= NodesIn(rows, s, since) && !IsDown(cfg, |ns|, |NodesIn(rows, s, since)|)
      ==> !IsDown(cfg, Share(rows, s, since, ns), Total(rows, s, since))
  }

  // ---- What does not depend on the statuses ----

  lemma {:induction false} CountsWithoutStatuses(rows: seq<CheckResult>, rows': seq<CheckResult>, s: string, since: int,
                                                ns: set<string>)
    requires SameButForStatuses(rows, rows')
    ensures Total(rows', s, since) == Total(rows, s, since)
    ensures Share(rows', s, since, ns) == Share(rows, s, since, ns)
  {
    if rows != [] {
      var n := |rows| - 1;
      CountsWithoutStatuses(rows[..n], rows'[..n], s, since, ns);
      assert rows'[n] == rows[n].(status := rows'[n].status);
    }
  }

  lemma NodesWithoutStatuses(rows: seq<CheckResult>, rows': seq<CheckResult>, s: string, since: int)
    requires SameButForStatuses(rows, rows')
    ensures NodesIn(rows', s, since) == NodesIn(rows, s, since)
  {
    forall n | n in NodesIn(rows, s, since)
      ensures n in NodesIn(rows', s, since)
    {
      var i :| 0 <= i < |rows| && Counted(rows[i], s, since) && rows[i].node == n;
      assert Counted(rows'[i], s, since) && rows'[i].node == n;
    }
    forall n | n in NodesIn(rows', s, since)
      ensures n in NodesIn(rows, s, since)
    {
      var i :| 0 <= i < |rows'| && Counted(rows'[i], s, since) && rows'[i].node == n;
      assert Counted(rows[i], s, since) && rows[i].node == n;
    }
  }

  // ---- The condition is enough ----

  /** The failing rows are all of nodes that failed. */
  lemma {:induction false} FailuresAreShared(rows: seq<CheckResult>, s: string, since: int, ns: set<string>)
    requires FailingNodes(rows, s, since) <= ns
    ensures Failing(rows, s, since) <= Share(rows, s, since, ns)
  {
    if rows != [] {
      var n := |rows| - 1;
      var front := rows[..n];
      forall x | x in FailingNodes(front, s, since)
        ensures x in ns
      {
        var i :| 0 <= i < n && Counted(front[i], s, since) && IsFailing(front[i].status) && front[i].node == x;
        assert rows[i] == front[i];
      }
      FailuresAreShared(front, s, since, ns);
      assert Counted(rows[n], s, since) && IsFailing(rows[n].status) ==> rows[n].node in FailingNodes(rows, s, since);
    }
  }

  /** More failing results do not end an outage. */
  lemma MoreFailures(cfg: Settings, failing: nat, more: nat, total: nat)
    requires ValidSettings(cfg) && failing <= more && IsDown(cfg, failing, total)
    ensures IsDown(cfg, more, total)
  {
    assert (more - failing) * cfg.den >= 0;
  }

  lemma EnoughForAgreement(cfg: Settings, rows: seq<CheckResult>, rows': seq<CheckResult>, s: string, since: int)
    requires ValidSettings(cfg) && NoMinorityHoldsAQuorum(cfg, rows, s, since)
    requires SameButForStatuses(rows, rows') && Verdict(cfg, rows', s, since)
    ensures NodesSayDown(cfg, rows', s, since)
  {
    var ns := FailingNodes(rows', s, since);
    assert ns <= NodesIn(rows', s, since);
    NodesWithoutStatuses(rows, rows', s, since);
    CountsWithoutStatuses(rows, rows', s, since, ns);
    FailuresAreShared(rows', s, since, ns);
    MoreFailures(cfg, Failing(rows', s, since), Share(rows, s, since, ns), Total(rows, s, since));
  }

  // ---- And it is needed ----

  /** The reports with exactly those of `ns` failing. */
  function Labelled(rows: seq<CheckResult>, ns: set<string>): seq<CheckResult> {
    seq(|rows|, i requires 0 <= i < |rows| => rows[i].(status := if rows[i].node in ns then "down" else "up"))
  }

  lemma {:induction false} LabelledFailures(rows: seq<CheckResult>, s: string, since: int, ns: set<string>)
    ensures Failing(Labelled(rows, ns), s, since) == Share(rows, s, since, ns)
  {
    if rows != [] {
      var n := |rows| - 1;
      LabelledFailures(rows[..n], s, since, ns);
      assert Labelled(rows, ns)[..n] == Labelled(rows[..n], ns);
    }
  }

  lemma LabelledNodes(rows: seq<CheckResult>, s: string, since: int, ns: set<string>)
    requires ns <= NodesIn(rows, s, since)
    ensures FailingNodes(Labelled(rows, ns), s, since) == ns
  {
    var rows' := Labelled(rows, ns);
    forall n | n in ns
      ensures n in FailingNodes(rows', s, since)
    {
      var i :| 0 <= i < |rows| && Counted(rows[i], s, since) && rows[i].node == n;
      assert Counted(rows'[i], s, since) && IsFailing(rows'[i].status) && rows'[i].node == n;
    }
    forall n | n in FailingNodes(rows', s, since)
      ensures n in ns
    {
      var i :| 0 <= i < |rows'| && Counted(rows'[i], s, since) && IsFailing(rows'[i].status) && rows'[i].node == n;
      assert rows[i].node == n;
    }
  }

  lemma NeededForAgreement(cfg: Settings, rows: seq<CheckResult>, s: string, since: int, ns: set<string>)
    requires OpensOnlyByAgreement(cfg, rows, s, since)
    requires ns <= NodesIn(rows, s, since) && !IsDown(cfg, |ns|, |NodesIn(rows, s, since)|)
    ensures !IsDown(cfg, Share(rows, s, since, ns), Total(rows, s, since))
  {
    var rows' := Labelled(rows, ns);
    assert SameButForStatuses(rows, rows');
    LabelledFailures(rows, s, since, ns);
    LabelledNodes(rows, s, since, ns);
    NodesWithoutStatuses(rows, rows', s, since);
    CountsWithoutStatuses(rows, rows', s, since, ns);
  }

  lemma AgreementIf(cfg: Settings, rows: seq<CheckResult>, s: string, since: int)
    requires ValidSettings(cfg) && NoMinorityHoldsAQuorum(cfg, rows, s, since)
    ensures OpensOnlyByAgreement(cfg, rows, s, since)
  {
    forall rows' | SameButForStatuses(rows, rows') && Verdict(cfg, rows', s, since)
      ensures NodesSayDown(cfg, rows', s, since)
    {
      EnoughForAgreement(cfg, rows, rows', s, since);
    }
  }

  lemma AgreementOnlyIf(cfg: Settings, rows: seq<CheckResult>, s: string, since: int)
    requires OpensOnlyByAgreement(cfg, rows, s, since)
    ensures NoMinorityHoldsAQuorum(cfg, rows, s, since)
  {
    forall ns | ns <= NodesIn(rows, s, since) && !IsDown(cfg, |ns|, |NodesIn(rows, s, since)|)
      ensures !IsDown(cfg, Share(rows, s, since, ns), Total(rows, s, since))
    {
      NeededForAgreement(cfg, rows, s, since, ns);
    }
  }

  /** The quorum of results is met only by agreement of the nodes, whatever the
      reports say, exactly when no minority of the nodes holds a quorum of them. */
  lemma AgreementIff(cfg: Settings, rows: seq<CheckResult>, s: string, since: int)
    requires ValidSettings(cfg)
    ensures OpensOnlyByAgreement(cfg, rows, s, since) <==> NoMinorityHoldsAQuorum(cfg, rows, s, since)
  {
    if NoMinorityHoldsAQuorum(cfg, rows, s, since) {
      AgreementIf(cfg, rows, s, since);
    }
    if OpensOnlyByAgreement(cfg, rows, s, since) {
      AgreementOnlyIf(cfg, rows, s, since);
    }
  }

  // ---- What that means for incidents ----

  /** Other statuses leave the tables as valid as they were. */
  lemma RelabelledIsValid(db: Db, rows: seq<CheckResult>)
    requires Valid(db) && SameButForStatuses(db.rows, rows)
    ensures Valid(db.(rows := rows))
  {
    var db' := db.(rows := rows);
    assert forall i :: 0 <= i < |rows| ==> rows[i].key == db.rows[i].key && rows[i].service == db.rows[i].service;
    assert OpenIds(db') == OpenIds(db);
    forall x ensures OpenOf(db', x) == OpenOf(db, x) {}
  }

  lemma OpensByVerdict(cfg: Settings, db: Db, rows: seq<CheckResult>, s: string, r: Readings)
    requires Valid(db) && s in db.services && Ordered(r) && db.status[s].lastChecked <= r.begin
    requires Total(db.rows, s, r.window - cfg.window) > 0 && SameButForStatuses(db.rows, rows)
    ensures OpenOf(Evaluate(cfg, db.(rows := rows), s, r), s) != {} <==> Verdict(cfg, rows, s, r.window - cfg.window)
  {
    RelabelledIsValid(db, rows);
    CountsWithoutStatuses(db.rows, rows, s, r.window - cfg.window, {});
    EvaluateDecides(cfg, db.(rows := rows), s, r);
  }

  /** The evaluation leaves an incident open only by agreement of the nodes,
      whatever the reports say. */
  ghost predicate IncidentsNeedAgreement(cfg: Settings, db: Db, s: string, r: Readings) {
    forall rows :: SameButForStatuses(db.rows, rows) && OpenOf(Evaluate(cfg, db.(rows := rows), s, r), s) != {}
      ==> NodesSayDown(cfg, rows, s, r.window - cfg.window)
  }

  lemma IncidentAgreed(cfg: Settings, db: Db, rows: seq<CheckResult>, s: string, r: Readings)
    requires ValidSettings(cfg) && Valid(db) && s in db.services && Ordered(r) && db.status[s].lastChecked <= r.begin
    requires Total(db.rows, s, r.window - cfg.window) > 0 && SameButForStatuses(db.rows, rows)
    requires NoMinorityHoldsAQuorum(cfg, db.rows, s, r.window - cfg.window)
    requires OpenOf(Evaluate(cfg, db.(rows := rows), s, r), s) != {}
    ensures NodesSayDown(cfg, rows, s, r.window - cfg.window)
  {
    OpensByVerdict(cfg, db, rows, s, r);
    EnoughForAgreement(cfg, db.rows, rows, s, r.window - cfg.window);
  }

  lemma VerdictAgreed(cfg: Settings, db: Db, rows: seq<CheckResult>, s: string, r: Readings)
    requires Valid(db) && s in db.services && Ordered(r) && db.status[s].lastChecked <= r.begin
    requires Total(db.rows, s, r.window - cfg.window) > 0 && SameButForStatuses(db.rows, rows)
    requires IncidentsNeedAgreement(cfg, db, s, r) && Verdict(cfg, rows, s, r.window - cfg.window)
    ensures NodesSayDown(cfg, rows, s, r.window - cfg.window)
  {
    OpensByVerdict(cfg, db, rows, s, r);
  }

  /** For a window that holds a row, incidents need agreement if no minority of
      the nodes holds a quorum of the rows, */
  lemma IncidentsNeedAgreementIf(cfg: Settings, db: Db, s: string, r: Readings)
    requires ValidSettings(cfg) && Valid(db) && s in db.services && Ordered(r) && db.status[s].lastChecked <= r.begin
    requires Total(db.rows, s, r.window - cfg.window) > 0
    requires NoMinorityHoldsAQuorum(cfg, db.rows, s, r.window - cfg.window)
    ensures IncidentsNeedAgreement(cfg, db, s, r)
  {
    forall rows | SameButForStatuses(db.rows, rows) && OpenOf(Evaluate(cfg, db.(rows := rows), s, r), s) != {}
      ensures NodesSayDown(cfg, rows, s, r.window - cfg.window)
    {
      IncidentAgreed(cfg, db, rows, s, r);
    }
  }

  /** and only if. */
  lemma IncidentsNeedAgreementOnlyIf(cfg: Settings, db: Db, s: string, r: Readings)
    requires Valid(db) && s in db.services && Ordered(r) && db.status[s].lastChecked <= r.begin
    requires Total(db.rows, s, r.window - cfg.window) > 0 && IncidentsNeedAgreement(cfg, db, s, r)
    ensures NoMinorityHoldsAQuorum(cfg, db.rows, s, r.window - cfg.window)
  {
    assert OpensOnlyByAgreement(cfg, db.rows, s, r.window - cfg.window) by {
      forall rows | SameButForStatuses(db.rows, rows) && Verdict(cfg, rows, s, r.window - cfg.window)
        ensures NodesSayDown(cfg, rows, s, r.window - cfg.window)
      {
        VerdictAgreed(cfg, db, rows, s, r);
      }
    }
    AgreementOnlyIf(cfg, db.rows, s, r.window - cfg.window);
  }

  lemma IncidentsNeedAgreementIff(cfg: Settings, db: Db, s: string, r: Readings)
    requires ValidSettings(cfg) && Valid(db) && s in db.services && Ordered(r) && db.status[s].lastChecked <= r.begin
    requires Total(db.rows, s, r.window - cfg.window) > 0
    ensures IncidentsNeedAgreement(cfg, db, s, r)
      <==> NoMinorityHoldsAQuorum(cfg, db.rows, s, r.window - cfg.window)
  {
    if IncidentsNeedAgreement(cfg, db, s, r) {
      IncidentsNeedAgreementOnlyIf(cfg, db, s, r);
    }
    if NoMinorityHoldsAQuorum(cfg, db.rows, s, r.window - cfg.window) {
      IncidentsNeedAgreementIf(cfg, db, s, r);
    }
  }

  // ---- A window that fails, and windows that do not ----

  function Report(s: string, node: string, status: string, at: int, key: string): CheckResult {
    CheckResult(s, node, at, status, None, None, None, None, key)
  }

  /** At 51%, three failing rows of one node and two up rows of another: 60% of
      the results, 50% of the nodes. */
  function ThreeAgainstTwo(s: string, at: int): seq<CheckResult> {
    [Report(s, "a", "down", at, "1"), Report(s, "a", "down", at, "2"), Report(s, "a", "down", at, "3"),
     Report(s, "b", "up", at, "4"), Report(s, "b", "up", at, "5")]
  }

  lemma ThreeAgainstTwoCounts(s: string, at: int, since: int)
    requires since <= at
    ensures var rows := ThreeAgainstTwo(s, at);
      && Total(rows, s, since) == 5 && Failing(rows, s, since) == 3
      && NodesIn(rows, s, since) == {"a", "b"} && FailingNodes(rows, s, since) == {"a"}
  {
    var rows := ThreeAgainstTwo(s, at);
    var r1, r2, r3, r4 := rows[..1], rows[..2], rows[..3], rows[..4];
    CountsAppend([], rows[0], s, since);
    CountsAppend(r1, rows[1], s, since);
    CountsAppend(r2, rows[2], s, since);
    CountsAppend(r3, rows[3], s, since);
    CountsAppend(r4, rows[4], s, since);
    assert r1 == [] + [rows[0]] && r2 == r1 + [rows[1]] && r3 == r2 + [rows[2]];
    assert r4 == r3 + [rows[3]] && rows == r4 + [rows[4]];
    assert rows[0].node in FailingNodes(rows, s, since) && rows[3].node in NodesIn(rows, s, since);
  }

  function Monitored(s: string, at: int): Db {
    CreateService(EMPTY, s, at).(rows := ThreeAgainstTwo(s, at))
  }

  lemma MonitoredIsValid(s: string, at: int)
    ensures Valid(Monitored(s, at)) && forall x :: OpenOf(Monitored(s, at), x) == {}
  {
    var db := Monitored(s, at);
    assert OpenIds(db) == {};
    forall x ensures OpenOf(db, x) == {} {}
  }

  /** An incident opens although only half of the nodes report a failure. */
  lemma HalfTheNodesOpenAnIncident(s: string, at: int)
    ensures var cfg := Settings(51, 100, 120);
      var db := Monitored(s, at);
      && Valid(db) && OpenOf(db, s) == {}
      && OpenOf(Evaluate(cfg, db, s, Readings(at, at, at, at, at)), s) != {}
      && !NodesSayDown(cfg, db.rows, s, at - cfg.window)
  {
    MonitoredIsValid(s, at);
    ThreeAgainstTwoCounts(s, at, at - 120);
    EvaluateDecides(Settings(51, 100, 120), Monitored(s, at), s, Readings(at, at, at, at, at));
  }

  /** Rows of disjoint sets of nodes add up. */
  lemma {:induction false} SharesAdd(rows: seq<CheckResult>, s: string, since: int, ns: set<string>, n: string)
    requires n !in ns
    ensures Share(rows, s, since, ns + {n}) == Share(rows, s, since, ns) + Share(rows, s, since, {n})
  {
    if rows != [] {
      SharesAdd(rows[..|rows| - 1], s, since, ns, n);
    }
  }

  lemma {:induction false} NobodysShare(rows: seq<CheckResult>, s: string, since: int)
    ensures Share(rows, s, since, {}) == 0
  {
    if rows != [] {
      NobodysShare(rows[..|rows| - 1], s, since);
    }
  }

  lemma {:induction false} EverybodysShare(rows: seq<CheckResult>, s: string, since: int, ns: set<string>)
    requires NodesIn(rows, s, since) <= ns
    ensures Share(rows, s, since, ns) == Total(rows, s, since)
  {
    if rows != [] {
      var n := |rows| - 1;
      var front := rows[..n];
      forall x | x in NodesIn(front, s, since)
        ensures x in ns
      {
        var i :| 0 <= i < n && Counted(front[i], s, since) && front[i].node == x;
        assert rows[i] == front[i];
      }
      EverybodysShare(front, s, since, ns);
      assert Counted(rows[n], s, since) ==> rows[n].node in NodesIn(rows, s, since);
    }
  }

  lemma {:induction false} EqualShares(rows: seq<CheckResult>, s: string, since: int, ns: set<string>, k: nat)
    requires forall n :: n in ns ==> Share(rows, s, since, {n}) == k
    ensures Share(rows, s, since, ns) == k * |ns|
    decreases |ns|
  {
    if ns == {} {
      NobodysShare(rows, s, since);
    } else {
      var n :| n in ns;
      var rest := ns - {n};
      EqualShares(rows, s, since, rest, k);
      SharesAdd(rows, s, since, rest, n);
      assert rest + {n} == ns && |ns| == |rest| + 1;
      OneMoreTime(k, |rest|);
    }
  }

  lemma OneMoreTime(k: nat, m: nat)
    ensures k * (m + 1) == k * m + k
  {
  }

  lemma ScaledQuorum(cfg: Settings, k: nat, part: nat, whole: nat)
    requires k > 0
    ensures IsDown(cfg, k * part, k * whole) <==> IsDown(cfg, part, whole)
  {
    var a, b := part * cfg.den, cfg.num * whole;
    assert k * part * cfg.den == k * a && cfg.num * (k * whole) == k * b;
    if a >= b {
      assert k * (a - b) >= 0;
    } else {
      assert k * (b - a) > 0;
    }
  }

  /** Nodes that report equally often hold no quorum as a minority, so for them
      incidents do need agreement. */
  lemma EqualReportersNeedAgreement(cfg: Settings, rows: seq<CheckResult>, s: string, since: int, k: nat)
    requires ValidSettings(cfg) && k > 0
    requires forall n :: n in NodesIn(rows, s, since) ==> Share(rows, s, since, {n}) == k
    ensures OpensOnlyByAgreement(cfg, rows, s, since)
  {
    var all := NodesIn(rows, s, since);
    EverybodysShare(rows, s, since, all);
    EqualShares(rows, s, since, all, k);
    forall ns | ns <= all && !IsDown(cfg, |ns|, |all|)
      ensures !IsDown(cfg, Share(rows, s, since, ns), Total(rows, s, since))
    {
      EqualShares(rows, s, since, ns, k);
      ScaledQuorum(cfg, k, |ns|, |all|);
    }
    AgreementIf(cfg, rows, s, since);
  }
}
