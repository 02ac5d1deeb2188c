/** The incident detector as it runs: tables and counters updated in place,
    under one lock per service.  Each call is proved to be the evaluation that
    `Quorum.Evaluate` specifies. */
module Detector {
  import opened Wrappers
  import opened Database
  import opened Quorum

  class Lock {
    var held: bool

    constructor ()
      ensures !held
    {
      held := false;
    }
  }

  /** The in-process counters of the metrics endpoint. */
  class Metrics {
    var checksIngested: nat
    var incidentsOpened: nat
    var incidentsResolved: nat

    constructor ()
      ensures checksIngested == incidentsOpened == incidentsResolved == 0
    {
      checksIngested, incidentsOpened, incidentsResolved := 0, 0, 0;
    }
  }

  class IncidentDetector {
    const cfg: Settings
    const metrics: Metrics
    var locks: map<string, Lock>
    var services: set<string>
    var used: set<string>
    var rows: seq<CheckResult>
    var incidents: map<nat, Incident>
    var status: map<string, ServiceStatus>
    var nextId: nat
    ghost var tally: Tally

    /** The committed tables. */
    ghost function Tables(): Db
      reads this
    {
      Db(services, used, rows, incidents, status, nextId, tally)
    }

    /** The tables are valid, and the lock of each service is its own. */
    ghost predicate Ready()
      reads this
    {
      && Valid(Tables())
      && forall a, b :: a in locks && b in locks && a != b ==> locks[a] != locks[b]
    }

    constructor (cfg: Settings)
      requires ValidSettings(cfg)
      ensures this.cfg == cfg && Ready() && Tables() == EMPTY && fresh(metrics)
      ensures metrics.checksIngested == metrics.incidentsOpened == metrics.incidentsResolved == 0
    {
      this.cfg := cfg;
      locks := map[];
      services, used, rows, incidents, status, nextId := {}, {}, [], map[], map[], 0;
      tally := Tally(0, 0, 0);
      metrics := new Metrics();
      new;
      assert OpenIds(Tables()) == {};
    }

    /** `_get_lock`: the same lock for the same service ever after. */
    method GetLock(s: string) returns (lock: Lock)
      requires Ready()
      modifies this`locks
      ensures Ready() && s in locks && lock == locks[s]
      ensures forall x :: x in old(locks) ==> x in locks && locks[x] == old(locks)[x]
      ensures locks.Keys == old(locks).Keys + {s}
      ensures s !in old(locks) ==> fresh(lock) && !lock.held
    {
      if s !in locks {
        var created := new Lock();
        locks := locks[s := created];
      }
      lock := locks[s];
    }

    /** The two counts over the window. */
    method CountWindow(s: string, since: int) returns (total: nat, failing: nat)
      ensures total == Total(rows, s, since) && failing == Failing(rows, s, since)
      ensures total == |InWindow(rows, s, since)| && failing == |FailingInWindow(rows, s, since)|
    {
      CountsAreSizes(rows, s, since);
      total, failing := 0, 0;
      var i := 0;
      while i < |rows|
        invariant 0 <= i <= |rows|
        invariant total == Total(rows[..i], s, since) && failing == Failing(rows[..i], s, since)
      {
        assert rows[..i + 1] == rows[..i] + [rows[i]];
        CountsAppend(rows[..i], rows[i], s, since);
        if rows[i].service == s && rows[i].checkedAt >= since {
          total := total + 1;
          if rows[i].status == "down" || rows[i].status == "timeout" || rows[i].status == "error" {
            failing := failing + 1;
          }
        }
        i := i + 1;
      }
      assert rows[..i] == rows;
    }

    /** The comparison with the quorum. */
    method CompareWithQuorum(failing: nat, total: nat) returns (down: bool)
      ensures down == IsDown(cfg, failing, total)
    {
      down := failing * cfg.den >= cfg.num * total;
    }

    /** The query for the open incident. */
    method FindOpen(s: string) returns (found: Option<nat>)
      requires Disjoint(Tables())
      ensures |OpenOf(Tables(), s)| <= 1 && found == Found(Tables(), s)
    {
      AtMostOneOpen(Tables(), s);
      found := None;
      var left := incidents.Keys;
      while left != {} && found == None
        invariant left <= incidents.Keys
        invariant found == None ==> OpenOf(Tables(), s) <= left
        invariant found.Some? ==> found.value in OpenOf(Tables(), s)
        decreases left
      {
        var id :| id in left;
        if incidents[id].service == s && incidents[id].resolvedAt == None {
          found := Some(id);
        }
        left := left - {id};
      }
    }

    method OpenIncident(s: string, begin: int) returns (id: nat)
      modifies this`incidents, this`nextId, this`tally, metrics`incidentsOpened
      ensures id == old(nextId) && nextId == id + 1
      ensures incidents == old(incidents)[id := Incident(s, begin, None, None, false)]
      ensures tally == old(tally).(opens := old(tally).opens + 1)
      ensures metrics.incidentsOpened == old(metrics.incidentsOpened) + 1
    {
      id := nextId;
      nextId := nextId + 1;
      incidents := incidents[id := Incident(s, begin, None, None, false)];
      tally := tally.(opens := tally.opens + 1);
      metrics.incidentsOpened := metrics.incidentsOpened + 1;
    }

    method ResolveIncident(id: nat, at: int)
      requires id in incidents
      modifies this`incidents, this`tally, metrics`incidentsResolved
      ensures incidents == old(incidents)[id := old(incidents)[id].(resolvedAt := Some(at))]
      ensures tally == old(tally).(resolves := old(tally).resolves + 1)
      ensures metrics.incidentsResolved == old(metrics.incidentsResolved) + 1
    {
      incidents := incidents[id := incidents[id].(resolvedAt := Some(at))];
      tally := tally.(resolves := tally.resolves + 1);
      metrics.incidentsResolved := metrics.incidentsResolved + 1;
    }

    method UpdateStatus(s: string, down: bool, sinceAt: int, checkedAt: int)
      modifies this`status
      ensures status == old(status)[s := Stamp(if s in old(status) then Some(old(status)[s]) else None,
                                               down, sinceAt, checkedAt)]
    {
      var word := if down then "down" else "up";
      var since := sinceAt;
      if s in status && status[s].current == word {
        since := status[s].since;
      }
      status := status[s := ServiceStatus(word, since, checkedAt)];
    }

    /** The second half of `_evaluate`: the incident and the status row. */
    method WriteVerdict(s: string, down: bool, r: Readings)
      requires Disjoint(Tables())
      modifies this`incidents, this`status, this`nextId, this`tally
      modifies metrics`incidentsOpened, metrics`incidentsResolved
      ensures |OpenOf(old(Tables()), s)| <= 1
      ensures Tables() == Decide(old(Tables()), s, r, down)
      ensures metrics.incidentsOpened - old(metrics.incidentsOpened) == tally.opens - old(tally).opens
      ensures metrics.incidentsResolved - old(metrics.incidentsResolved) == tally.resolves - old(tally).resolves
    {
      var found := FindOpen(s);
      if down && found == None {
        var id := OpenIncident(s, r.begin);
      } else if !down && found.Some? {
        ResolveIncident(found.value, r.resolve);
      }
      UpdateStatus(s, down, r.since, r.checked);
    }

    /** `_evaluate`, under the lock. */
    method Evaluate(s: string, r: Readings)
      requires Valid(Tables()) && Ordered(r)
      requires s in status ==> status[s].lastChecked <= r.begin
      modifies this`incidents, this`status, this`nextId, this`tally
      modifies metrics`incidentsOpened, metrics`incidentsResolved
      ensures Tables() == Quorum.Evaluate(cfg, old(Tables()), s, r)
      ensures Valid(Tables())
      ensures metrics.incidentsOpened - old(metrics.incidentsOpened) == tally.opens - old(tally).opens
      ensures metrics.incidentsResolved - old(metrics.incidentsResolved) == tally.resolves - old(tally).resolves
    {
      EvaluateKeepsValid(cfg, Tables(), s, r);
      var total, failing := CountWindow(s, r.window - cfg.window);
      if total == 0 {
        return;
      }
      EvaluateWithRows(cfg, Tables(), s, r);
      var down := CompareWithQuorum(failing, total);
      WriteVerdict(s, down, r);
    }

    /** `process_check_result`. */
    method ProcessCheckResult(s: string, r: Readings)
      requires Ready() && Ordered(r)
      requires s in status ==> status[s].lastChecked <= r.begin
      requires s in locks ==> !locks[s].held
      modifies this`locks, this`incidents, this`status, this`nextId, this`tally, locks.Values
      modifies metrics`incidentsOpened, metrics`incidentsResolved
      ensures Ready() && locks.Keys == old(locks).Keys + {s} && !locks[s].held
      ensures Tables() == Quorum.Evaluate(cfg, old(Tables()), s, r)
      ensures metrics.incidentsOpened - old(metrics.incidentsOpened) == tally.opens - old(tally).opens
      ensures metrics.incidentsResolved - old(metrics.incidentsResolved) == tally.resolves - old(tally).resolves
      ensures fresh(locks.Values - old(locks.Values))
      ensures forall x :: x in old(locks) ==> locks[x] == old(locks)[x] && locks[x].held == old(locks[x].held)
    {
      var lock := GetLock(s);
      lock.held := true;
      Evaluate(s, r);
      lock.held := false;
    }
  }

  lemma EvaluateWithRows(cfg: Settings, db: Db, s: string, r: Readings)
    requires RowsOk(db) && Disjoint(db) && Total(db.rows, s, r.window - cfg.window) > 0
    ensures |OpenOf(db, s)| <= 1
    ensures Quorum.Evaluate(cfg, db, s, r) == Decide(db, s, r, Verdict(cfg, db.rows, s, r.window - cfg.window))
  {
    AtMostOneOpen(db, s);
    SomeRowIsCounted(db.rows, s, r.window - cfg.window);
    EvaluateIsDecide(cfg, db, s, r);
  }
}
