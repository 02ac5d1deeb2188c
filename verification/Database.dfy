/** The tables the coordinator writes, and the transactions that change them.

    One value of `Db` is one committed state of Postgres.  A foreign key to
    `services` cascades on deletion, `check_results.idempotency_key` is unique,
    and nothing in the schema stops two open incidents of one service: that
    there is never a second one is proved, not declared. */
module Database {
  import opened Wrappers
  import Json

  /** A row of `check_results`; also the message the consumer decodes. */
  datatype CheckResult = CheckResult(
    service: string,
    node: string,
    checkedAt: int,
    status: string,
    statusCode: Option<int>,
    responseMs: Option<int>,
    errorMessage: Option<string>,
    rawHeaders: Option<Json.Headers>,
    key: string)

  datatype Incident = Incident(
    service: string,
    startedAt: int,
    resolvedAt: Option<int>,
    aiSummary: Option<string>,
    alertSent: bool)

  datatype ServiceStatus = ServiceStatus(current: string, since: int, lastChecked: int)

  /** How many incidents were ever opened, resolved, or deleted while open by
      committed transactions.  A history, not a table. */
  datatype Tally = Tally(opens: nat, resolves: nat, openDeleted: nat)

  /** `used` and `nextId` stand for `gen_random_uuid()`: service ids that were
      handed out at some time, and a bound on the incident ids handed out. */
  datatype Db = Db(
    services: set<string>,
    used: set<string>,
    rows: seq<CheckResult>,
    incidents: map<nat, Incident>,
    status: map<string, ServiceStatus>,
    nextId: nat,
    tally: Tally)

  const EMPTY := Db({}, {}, [], map[], map[], 0, Tally(0, 0, 0))

  // ---- Services ----

  /** `create_service` adds the service and its status row in one transaction. */
  function CreateService(db: Db, s: string, at: int): Db {
    db.(services := db.services + {s},
        used := db.used + {s},
        status := db.status[s := ServiceStatus("unknown", at, at)])
  }

  function RowsExcept(rows: seq<CheckResult>, s: string): (r: seq<CheckResult>)
    ensures forall x :: x in r <==> x in rows && x.service != s
  {
    if rows == [] then []
    else
      var front := RowsExcept(rows[..|rows| - 1], s);
      var last := rows[|rows| - 1];
      assert rows == rows[..|rows| - 1] + [last];
      if last.service == s then front else front + [last]
  }

  /** `delete_service`: every foreign key cascades. */
  function DeleteService(db: Db, s: string): Db {
    db.(services := db.services - {s},
        rows := RowsExcept(db.rows, s),
        incidents := map id | id in db.incidents && db.incidents[id].service != s :: db.incidents[id],
        status := db.status - {s},
        tally := db.tally.(openDeleted := db.tally.openDeleted + |OpenOf(db, s)|))
  }

  // ---- Check results ----

  predicate HasKey(rows: seq<CheckResult>, key: string) {
    exists i :: 0 <= i < |rows| && rows[i].key == key
  }

  /** The insert raises `IntegrityError`: its key is taken or its service is gone. */
  predicate Conflicts(db: Db, row: CheckResult) {
    row.service !in db.services || HasKey(db.rows, row.key)
  }

  function Insert(db: Db, row: CheckResult): Db {
    db.(rows := db.rows + [row])
  }

  // ---- Incidents ----

  /** The unresolved incidents of one service: what `_evaluate` selects. */
  function OpenOf(db: Db, s: string): set<nat> {
    set id | id in db.incidents && db.incidents[id].service == s && db.incidents[id].resolvedAt == None
  }

  function OpenIds(db: Db): set<nat> {
    set id | id in db.incidents && db.incidents[id].resolvedAt == None
  }

  /** What one evaluation does to the incidents table. */
  datatype Action = Keep | Open(id: nat) | Resolve(id: nat, at: int)

  /** The branches of `_evaluate` on the incident it found open, if any. */
  function Choose(down: bool, found: Option<nat>, newId: nat, at: int): Action {
    if down && found == None then Open(newId)
    else if !down && found.Some? then Resolve(found.value, at)
    else Keep
  }

  function ChangeIncidents(incidents: map<nat, Incident>, s: string, act: Action, begin: int): map<nat, Incident> {
    match act
    case Keep => incidents
    case Open(id) => incidents[id := Incident(s, begin, None, None, false)]
    case Resolve(id, at) =>
      if id in incidents then incidents[id := incidents[id].(resolvedAt := Some(at))] else incidents
  }

  /** `_update_status`: `since` moves only when the status word changes. */
  function Stamp(prior: Option<ServiceStatus>, down: bool, sinceAt: int, checkedAt: int): ServiceStatus {
    var word := if down then "down" else "up";
    var since := if prior == None || prior.value.current != word then sinceAt else prior.value.since;
    ServiceStatus(word, since, checkedAt)
  }

  function StatusOf(db: Db, s: string): Option<ServiceStatus> {
    if s in db.status then Some(db.status[s]) else None
  }

  /** The commit of one evaluation: its incident change and its status row. */
  function Commit(db: Db, s: string, act: Action, begin: int, status: ServiceStatus): Db {
    db.(incidents := ChangeIncidents(db.incidents, s, act, begin),
        status := db.status[s := status],
        nextId := if act.Open? && db.nextId <= act.id then act.id + 1 else db.nextId,
        tally := db.tally.(opens := db.tally.opens + (if act.Open? then 1 else 0),
                           resolves := db.tally.resolves + (if act.Resolve? then 1 else 0)))
  }

  /** `scalar_one_or_none` on the selected rows; it raises on a second one. */
  ghost function TheOne(ids: set<nat>): (r: Option<nat>)
    requires |ids| <= 1
    ensures r == None ==> ids == {}
    ensures r.Some? ==> ids == {r.value}
  {
    if ids == {} then None
    else
      var id :| id in ids;
      assert |ids - {id}| == 0;
      Some(id)
  }

  ghost function Found(db: Db, s: string): Option<nat>
    requires |OpenOf(db, s)| <= 1
  {
    TheOne(OpenOf(db, s))
  }

  /** The AI summary and alert tasks write their own columns only. */
  function Annotate(db: Db, id: nat, summary: Option<string>, sent: bool): Db {
    if id in db.incidents
    then db.(incidents := db.incidents[id := db.incidents[id].(aiSummary := summary, alertSent := sent)])
    else db
  }

  // ---- The invariant of every committed state ----

  predicate UniqueKeys(rows: seq<CheckResult>) {
    forall i, j :: 0 <= i < j < |rows| ==> rows[i].key != rows[j].key
  }

  ghost predicate RowsOk(db: Db) {
    && (forall i :: 0 <= i < |db.rows| ==> db.rows[i].service in db.services)
    && UniqueKeys(db.rows)
  }

  ghost predicate SpanOk(inc: Incident, until: int) {
    && inc.startedAt <= until
    && (inc.resolvedAt.Some? ==> inc.startedAt <= inc.resolvedAt.value <= until)
  }

  ghost predicate IncidentsOk(db: Db) {
    forall id :: id in db.incidents ==>
      && id < db.nextId
      && db.incidents[id].service in db.services
      && db.incidents[id].service in db.status
      && SpanOk(db.incidents[id], db.status[db.incidents[id].service].lastChecked)
  }

  /** The first incident is over when the second one starts. */
  predicate Before(a: Incident, b: Incident) {
    a.resolvedAt.Some? && a.resolvedAt.value <= b.startedAt
  }

  /** In the order of their ids the incidents of a service do not overlap, and
      only the last of them can be open. */
  ghost predicate Disjoint(db: Db) {
    forall i, j :: i in db.incidents && j in db.incidents && i < j
      && db.incidents[i].service == db.incidents[j].service
      ==> Before(db.incidents[i], db.incidents[j])
  }

  ghost predicate StatusOk(db: Db) {
    && db.status.Keys == db.services
    && db.services <= db.used
    && forall s :: s in db.status ==>
         && db.status[s].since <= db.status[s].lastChecked
         && (db.status[s].current == "down" <==> OpenOf(db, s) != {})
  }

  ghost predicate TallyOk(db: Db) {
    db.tally.opens == db.tally.resolves + db.tally.openDeleted + |OpenIds(db)|
  }

  ghost predicate Valid(db: Db) {
    RowsOk(db) && IncidentsOk(db) && Disjoint(db) && StatusOk(db) && TallyOk(db)
  }

  /** Nothing in the tables is dated after `now`. */
  ghost predicate Dated(db: Db, now: int) {
    forall s :: s in db.status ==> db.status[s].lastChecked <= now
  }

  // ---- What the invariant says ----

  /** A service never has a second open incident, so `scalar_one_or_none`
      never raises. */
  lemma AtMostOneOpen(db: Db, s: string)
    requires Disjoint(db)
    ensures forall i, j :: i in OpenOf(db, s) && j in OpenOf(db, s) ==> i == j
    ensures |OpenOf(db, s)| <= 1
  {
    var o := OpenOf(db, s);
    forall i, j | i in o && j in o
      ensures i == j
    {
      assert i < j ==> Before(db.incidents[i], db.incidents[j]);
      assert j < i ==> Before(db.incidents[j], db.incidents[i]);
    }
    if o != {} {
      var i :| i in o;
      assert o == {i};
    }
  }

  // ---- Every transaction keeps it ----

  lemma RowsExceptKeepsUnique(rows: seq<CheckResult>, s: string)
    requires UniqueKeys(rows)
    ensures UniqueKeys(RowsExcept(rows, s))
  {
    if rows != [] {
      var front := rows[..|rows| - 1];
      RowsExceptKeepsUnique(front, s);
      var r := RowsExcept(front, s);
      forall i | 0 <= i < |r|
        ensures r[i].key != rows[|rows| - 1].key
      {
        assert r[i] in front;
      }
    }
  }

  lemma CreateKeepsValid(db: Db, s: string, at: int)
    requires Valid(db) && s !in db.used
    ensures Valid(CreateService(db, s, at))
  {
    var db' := CreateService(db, s, at);
    forall x ensures OpenOf(db', x) == OpenOf(db, x) {}
    assert OpenIds(db') == OpenIds(db);
    assert OpenOf(db, s) == {};
  }

  lemma DeleteKeepsRows(db: Db, s: string)
    requires RowsOk(db)
    ensures RowsOk(DeleteService(db, s))
  {
    var db' := DeleteService(db, s);
    var kept := RowsExcept(db.rows, s);
    RowsExceptKeepsUnique(db.rows, s);
    assert db'.rows == kept;
    forall i | 0 <= i < |kept|
      ensures kept[i].service in db'.services
    {
      assert kept[i] in db.rows;
    }
  }

  lemma DeleteKeepsOpen(db: Db, s: string)
    ensures forall x :: x != s ==> OpenOf(DeleteService(db, s), x) == OpenOf(db, x)
    ensures |OpenIds(DeleteService(db, s))| + |OpenOf(db, s)| == |OpenIds(db)|
  {
    var db' := DeleteService(db, s);
    forall x | x != s ensures OpenOf(db', x) == OpenOf(db, x) {}
    assert OpenIds(db) == OpenIds(db') + OpenOf(db, s);
    assert OpenIds(db') !! OpenOf(db, s);
  }

  lemma DeleteKeepsValid(db: Db, s: string)
    requires Valid(db)
    ensures Valid(DeleteService(db, s))
  {
    var db' := DeleteService(db, s);
    DeleteKeepsRows(db, s);
    DeleteKeepsOpen(db, s);
    assert StatusOk(db') by {
      forall x | x in db'.status
        ensures db'.status[x].since <= db'.status[x].lastChecked
        ensures db'.status[x].current == "down" <==> OpenOf(db', x) != {}
      {
        assert db'.status[x] == db.status[x] && OpenOf(db', x) == OpenOf(db, x);
      }
    }
    assert Disjoint(db') by {
      forall i, j | i in db'.incidents && j in db'.incidents && i < j
        && db'.incidents[i].service == db'.incidents[j].service
        ensures Before(db'.incidents[i], db'.incidents[j])
      {
        assert i in db.incidents && j in db.incidents;
      }
    }
  }

  lemma InsertKeepsValid(db: Db, row: CheckResult)
    requires Valid(db) && !Conflicts(db, row)
    ensures Valid(Insert(db, row))
  {
    var db' := Insert(db, row);
    forall x ensures OpenOf(db', x) == OpenOf(db, x) {}
    assert OpenIds(db') == OpenIds(db);
  }

  lemma AnnotateKeepsValid(db: Db, id: nat, summary: Option<string>, sent: bool)
    requires Valid(db)
    ensures Valid(Annotate(db, id, summary, sent))
    ensures forall x :: OpenOf(Annotate(db, id, summary, sent), x) == OpenOf(db, x)
  {
    var db' := Annotate(db, id, summary, sent);
    forall x ensures OpenOf(db', x) == OpenOf(db, x) {}
    assert OpenIds(db') == OpenIds(db);
  }

  /** When an evaluation of `s` that saw `found` open may commit: the service is
      still there, `found` is what is open now, its clock readings follow one
      another and come after the service's last check, and a new incident gets
      an id the service has not used. */
  ghost predicate MayCommit(db: Db, s: string, down: bool, act: Action, begin: int, status: ServiceStatus) {
    && s in db.services && s in db.status
    && |OpenOf(db, s)| <= 1
    && (act.Open? ==> act.id !in db.incidents)
    && (act.Open? ==> forall i :: i in db.incidents && db.incidents[i].service == s ==> i < act.id)
    && (act.Resolve? ==> begin <= act.at <= status.lastChecked)
    && act == Choose(down, Found(db, s), if act.Open? then act.id else 0, if act.Resolve? then act.at else 0)
    && db.status[s].lastChecked <= begin <= status.lastChecked
    && status == Stamp(StatusOf(db, s), down, status.since, status.lastChecked)
    && status.since <= status.lastChecked
  }

  /** What a commit leaves: an incident is open exactly when the quorum said
      down, and no other service is touched. */
  lemma CommitOpens(db: Db, s: string, down: bool, act: Action, begin: int, status: ServiceStatus)
    requires Disjoint(db) && MayCommit(db, s, down, act, begin, status)
    ensures var db' := Commit(db, s, act, begin, status);
      && (OpenOf(db', s) != {} <==> down)
      && (forall x :: x != s ==> OpenOf(db', x) == OpenOf(db, x))
      && (act == Keep ==> OpenOf(db', s) == OpenOf(db, s))
      && (act.Open? ==> OpenIds(db') == OpenIds(db) + {act.id} && act.id !in OpenIds(db))
      && (act.Resolve? ==> OpenIds(db') == OpenIds(db) - {act.id} && act.id in OpenOf(db, s))
      && (act == Keep ==> OpenIds(db') == OpenIds(db))
  {
    AtMostOneOpen(db, s);
    var db' := Commit(db, s, act, begin, status);
    forall x | x != s ensures OpenOf(db', x) == OpenOf(db, x) {}
    match act
    case Keep => assert OpenOf(db', s) == OpenOf(db, s); assert OpenIds(db') == OpenIds(db);
    case Open(id) => assert id in OpenOf(db', s); assert OpenIds(db') == OpenIds(db) + {id};
    case Resolve(id, at) =>
      assert OpenOf(db, s) == {id};
      assert OpenOf(db', s) == {};
      assert OpenIds(db') == OpenIds(db) - {id};
  }

  lemma CommitKeepsDisjoint(db: Db, s: string, down: bool, act: Action, begin: int, status: ServiceStatus)
    requires IncidentsOk(db) && Disjoint(db) && MayCommit(db, s, down, act, begin, status)
    ensures Disjoint(Commit(db, s, act, begin, status))
  {
    AtMostOneOpen(db, s);
    var db' := Commit(db, s, act, begin, status);
    forall i, j | i in db'.incidents && j in db'.incidents && i < j
      && db'.incidents[i].service == db'.incidents[j].service
      ensures Before(db'.incidents[i], db'.incidents[j])
    {
      if act.Open? && j == act.id {
        assert db.incidents[i].resolvedAt == None ==> i in OpenOf(db, s);
        assert SpanOk(db.incidents[i], db.status[s].lastChecked);
      } else {
        assert i in db.incidents && j in db.incidents;
        assert Before(db.incidents[i], db.incidents[j]);
      }
    }
  }

  lemma CommitKeepsIncidents(db: Db, s: string, down: bool, act: Action, begin: int, status: ServiceStatus)
    requires IncidentsOk(db) && Disjoint(db) && MayCommit(db, s, down, act, begin, status)
    ensures IncidentsOk(Commit(db, s, act, begin, status))
  {
    AtMostOneOpen(db, s);
    var db' := Commit(db, s, act, begin, status);
    forall id | id in db'.incidents
      ensures id < db'.nextId && db'.incidents[id].service in db'.services
      ensures SpanOk(db'.incidents[id], db'.status[db'.incidents[id].service].lastChecked)
    {
      if id in db.incidents {
        assert SpanOk(db.incidents[id], db.status[db.incidents[id].service].lastChecked);
      }
    }
  }

  lemma CommitKeepsStatus(db: Db, s: string, down: bool, act: Action, begin: int, status: ServiceStatus)
    requires Disjoint(db) && StatusOk(db) && MayCommit(db, s, down, act, begin, status)
    ensures StatusOk(Commit(db, s, act, begin, status))
  {
    CommitOpens(db, s, down, act, begin, status);
    var db' := Commit(db, s, act, begin, status);
    forall x | x in db'.status
      ensures db'.status[x].since <= db'.status[x].lastChecked
      ensures db'.status[x].current == "down" <==> OpenOf(db', x) != {}
    {
      if x != s {
        assert OpenOf(db', x) == OpenOf(db, x);
      }
    }
  }

  lemma CommitKeepsValid(db: Db, s: string, down: bool, act: Action, begin: int, status: ServiceStatus)
    requires Valid(db) && MayCommit(db, s, down, act, begin, status)
    ensures Valid(Commit(db, s, act, begin, status))
  {
    CommitKeepsDisjoint(db, s, down, act, begin, status);
    CommitKeepsIncidents(db, s, down, act, begin, status);
    CommitKeepsStatus(db, s, down, act, begin, status);
    CommitOpens(db, s, down, act, begin, status);
  }

  // ---- What each transaction leaves as it was ----

  /** A new service is shown "unknown" since now, and has no row and no incident;
      nothing of any other service changes. */
  lemma NewServiceIsBlank(db: Db, s: string, at: int)
    requires Valid(db) && s !in db.used
    ensures var db' := CreateService(db, s, at);
      && db'.services == db.services + {s} && s in db'.status && db'.status[s] == ServiceStatus("unknown", at, at)
      && (forall i :: 0 <= i < |db'.rows| ==> db'.rows[i].service != s)
      && (forall id :: id in db'.incidents ==> db'.incidents[id].service != s)
      && db'.rows == db.rows && db'.incidents == db.incidents
      && (forall x :: x in db.services ==> x in db'.status && db'.status[x] == db.status[x])
  {
  }

  /** `kept` are the rows of the other services in order: `at` says where each is. */
  ghost predicate PicksOthers(rows: seq<CheckResult>, s: string, kept: seq<CheckResult>, at: seq<int>) {
    && |kept| == |at|
    && (forall j, k :: 0 <= j < k < |at| ==> at[j] < at[k])
    && (forall k :: 0 <= k < |at| ==> 0 <= at[k] < |rows| && kept[k] == rows[at[k]] && kept[k].service != s)
    && (forall i :: 0 <= i < |rows| && rows[i].service != s ==> i in at)
  }

  lemma SkipLast(rows: seq<CheckResult>, s: string, kept: seq<CheckResult>, at: seq<int>)
    requires rows != [] && rows[|rows| - 1].service == s && PicksOthers(rows[..|rows| - 1], s, kept, at)
    ensures PicksOthers(rows, s, kept, at)
  {
    forall i | 0 <= i < |rows| && rows[i].service != s
      ensures i in at
    {
      assert rows[..|rows| - 1][i] == rows[i];
    }
  }

  lemma PickLast(rows: seq<CheckResult>, s: string, kept: seq<CheckResult>, at: seq<int>)
    requires rows != [] && rows[|rows| - 1].service != s && PicksOthers(rows[..|rows| - 1], s, kept, at)
    ensures PicksOthers(rows, s, kept + [rows[|rows| - 1]], at + [|rows| - 1])
  {
    var n := |rows| - 1;
    forall i | 0 <= i < |rows| && rows[i].service != s
      ensures i in at + [n]
    {
      if i < n {
        assert rows[..n][i] == rows[i];
      } else {
        assert (at + [n])[|at|] == n;
      }
    }
  }

  lemma RowsExceptLast(rows: seq<CheckResult>, s: string)
    requires rows != []
    ensures var front, last := RowsExcept(rows[..|rows| - 1], s), rows[|rows| - 1];
      RowsExcept(rows, s) == if last.service == s then front else front + [last]
  {
  }

  lemma {:induction false} RowsExceptInOrder(rows: seq<CheckResult>, s: string) returns (at: seq<int>)
    ensures PicksOthers(rows, s, RowsExcept(rows, s), at)
  {
    if rows == [] {
      at := [];
    } else {
      var n := |rows| - 1;
      at := RowsExceptInOrder(rows[..n], s);
      RowsExceptLast(rows, s);
      if rows[n].service == s {
        SkipLast(rows, s, RowsExcept(rows[..n], s), at);
      } else {
        PickLast(rows, s, RowsExcept(rows[..n], s), at);
        at := at + [n];
      }
    }
  }

  /** A deletion leaves exactly what is of the other services, unchanged: their
      incidents, their status rows, and their check results in order. */
  lemma DeletionLeavesTheOthers(db: Db, s: string) returns (at: seq<int>)
    ensures var db' := DeleteService(db, s);
      && db'.services == db.services - {s}
      && (forall id :: id in db'.incidents <==> id in db.incidents && db.incidents[id].service != s)
      && (forall id :: id in db'.incidents ==> db'.incidents[id] == db.incidents[id])
      && (forall x :: x in db'.status <==> x in db.status && x != s)
      && (forall x :: x in db'.status ==> db'.status[x] == db.status[x])
      && PicksOthers(db.rows, s, db'.rows, at)
  {
    at := RowsExceptInOrder(db.rows, s);
  }

  /** The summary and alert tasks write these two columns of that incident. */
  lemma AnnotateWrites(db: Db, id: nat, summary: Option<string>, sent: bool)
    ensures var db' := Annotate(db, id, summary, sent);
      && db'.rows == db.rows && db'.status == db.status && db'.services == db.services
      && db'.incidents.Keys == db.incidents.Keys
      && (forall i :: i in db.incidents && i != id ==> db'.incidents[i] == db.incidents[i])
      && (id in db.incidents ==>
            db'.incidents[id] == Incident(db.incidents[id].service, db.incidents[id].startedAt,
                                          db.incidents[id].resolvedAt, summary, sent))
  {
  }

  /** What no later transaction changes of a committed incident. */
  predicate Continues(a: Incident, b: Incident) {
    b.service == a.service && b.startedAt == a.startedAt && (a.resolvedAt.Some? ==> b.resolvedAt == a.resolvedAt)
  }

  /** The incidents and the rows of all services but these are still there. */
  ghost predicate Keeps(db: Db, db': Db, deleted: set<string>) {
    && (forall id :: id in db.incidents && db.incidents[id].service !in deleted ==>
          id in db'.incidents && Continues(db.incidents[id], db'.incidents[id]))
    && (forall i :: 0 <= i < |db.rows| && db.rows[i].service !in deleted ==> db.rows[i] in db'.rows)
  }

  lemma KeepsInTurn(a: Db, b: Db, c: Db, first: set<string>, second: set<string>)
    requires Keeps(a, b, first) && Keeps(b, c, second)
    ensures Keeps(a, c, first + second)
  {
  }

  /** It only looks at those two tables. */
  lemma KeepsFrame(db: Db, db1: Db, db2: Db, deleted: set<string>)
    requires Keeps(db, db1, deleted) && db2.rows == db1.rows && db2.incidents == db1.incidents
    ensures Keeps(db, db2, deleted)
  {
  }

  lemma AnnotationKeeps(db: Db, id: nat, summary: Option<string>, sent: bool)
    ensures Keeps(db, Annotate(db, id, summary, sent), {})
  {
  }

  lemma DeletionKeeps(db: Db, s: string)
    ensures Keeps(db, DeleteService(db, s), {s})
  {
  }

  lemma InsertionKeeps(db: Db, row: CheckResult)
    ensures Keeps(db, Insert(db, row), {})
  {
    assert forall i :: 0 <= i < |db.rows| ==> (db.rows + [row])[i] == db.rows[i];
  }

  lemma CommitKeeps(db: Db, s: string, down: bool, act: Action, begin: int, status: ServiceStatus)
    requires MayCommit(db, s, down, act, begin, status)
    ensures Keeps(db, Commit(db, s, act, begin, status), {})
  {
    assert act.Resolve? ==> act.id in OpenOf(db, s);
  }

  // ---- Why the lock is needed ----

  /** What one evaluation brings to its commit, besides what it found open. */
  datatype Finding = Finding(down: bool, newId: nat, begin: int, resolve: int, since: int, checked: int)

  function CommitFinding(db: Db, s: string, f: Option<nat>, v: Finding): Db {
    Commit(db, s, Choose(v.down, f, v.newId, v.resolve), v.begin, Stamp(StatusOf(db, s), v.down, v.since, v.checked))
  }

  /** Two evaluations of one service that both looked at `db` and found `f`, as
      they can in two processes, which share no lock. */
  ghost predicate BothFound(db: Db, s: string, f: Option<nat>, v1: Finding, v2: Finding) {
    && OpenOf(db, s) == (if f == None then {} else {f.value})
    && v1.newId != v2.newId && v1.newId !in db.incidents && v2.newId !in db.incidents
  }

  lemma OpenAfterOne(db: Db, s: string, f: Option<nat>, v: Finding)
    requires v.newId !in db.incidents
    ensures OpenOf(CommitFinding(db, s, f, v), s) ==
      if v.down && f == None then OpenOf(db, s) + {v.newId}
      else if !v.down && f.Some? then OpenOf(db, s) - {f.value}
      else OpenOf(db, s)
  {
  }

  /** What the two leave open. */
  lemma OpenAfterBoth(db: Db, s: string, f: Option<nat>, v1: Finding, v2: Finding)
    requires BothFound(db, s, f, v1, v2)
    ensures OpenOf(CommitFinding(CommitFinding(db, s, f, v1), s, f, v2), s) ==
      if f == None then (if v1.down then {v1.newId} else {}) + (if v2.down then {v2.newId} else {})
      else if v1.down && v2.down then {f.value} else {}
  {
    OpenAfterOne(db, s, f, v1);
    OpenAfterOne(CommitFinding(db, s, f, v1), s, f, v2);
  }

  /** Two incidents are open exactly when both evaluations found none and said
      down: the schema does not object, and every later evaluation raises. */
  lemma OneOpenWithoutLockIff(db: Db, s: string, f: Option<nat>, v1: Finding, v2: Finding)
    requires BothFound(db, s, f, v1, v2)
    ensures |OpenOf(CommitFinding(CommitFinding(db, s, f, v1), s, f, v2), s)| <= 1
      <==> !(f == None && v1.down && v2.down)
  {
    OpenAfterBoth(db, s, f, v1, v2);
    assert |{v1.newId} + {v2.newId}| == 2;
  }

  /** If the second evaluation reads the status row after the first has
      committed, the status agrees with the open incidents unless the two differ
      and the second would have had to undo what the first did: if none was open,
      down then up leaves an open incident under the word "up"; if one was, up
      then down leaves none under "down". */
  lemma StatusAgreesWithoutLockIff(db: Db, s: string, f: Option<nat>, v1: Finding, v2: Finding)
    requires BothFound(db, s, f, v1, v2)
    ensures var twice := CommitFinding(CommitFinding(db, s, f, v1), s, f, v2);
      (twice.status[s].current == "down" <==> OpenOf(twice, s) != {})
      <==> (v1.down == v2.down || (v2.down <==> f == None))
  {
    OpenAfterBoth(db, s, f, v1, v2);
  }

  /** The status row if it was loaded as `loaded` and is `row` when it is written:
      a word that is as it was loaded is left out of the update, and with it
      `since`. */
  function StampStale(loaded: ServiceStatus, row: ServiceStatus, v: Finding): ServiceStatus {
    var word := if v.down then "down" else "up";
    if word == loaded.current then row.(lastChecked := v.checked) else ServiceStatus(word, v.since, v.checked)
  }

  /** If the second evaluation has read the status row before the first commits,
      the status agrees unless none was open, the first said down and the second
      up, and the service was not shown up before. */
  lemma StatusAgreesWhenReadEarlyIff(db: Db, s: string, f: Option<nat>, v1: Finding, v2: Finding)
    requires BothFound(db, s, f, v1, v2)
    requires s in db.status && (db.status[s].current == "down" <==> f.Some?)
    ensures var once := CommitFinding(db, s, f, v1);
      var row := StampStale(db.status[s], once.status[s], v2);
      var twice := Commit(once, s, Choose(v2.down, f, v2.newId, v2.resolve), v2.begin, row);
      (twice.status[s].current == "down" <==> OpenOf(twice, s) != {})
      <==> !(f == None && v1.down && !v2.down && db.status[s].current != "up")
  {
    OpenAfterBoth(db, s, f, v1, v2);
    var once := CommitFinding(db, s, f, v1);
    var act := Choose(v2.down, f, v2.newId, v2.resolve);
    SameOpenWhateverTheStatus(once, s, act, v2.begin, StampStale(db.status[s], once.status[s], v2),
                              Stamp(StatusOf(once, s), v2.down, v2.since, v2.checked));
  }

  lemma SameOpenWhateverTheStatus(db: Db, s: string, act: Action, begin: int, row1: ServiceStatus, row2: ServiceStatus)
    ensures OpenOf(Commit(db, s, act, begin, row1), s) == OpenOf(Commit(db, s, act, begin, row2), s)
  {
  }
}
