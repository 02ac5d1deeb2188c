/** What the result consumer does to the tables over any sequence of its
    actions, and why delivering an entry twice does no harm. */
module Ingest {
  import opened Wrappers
  import opened Keys
  import opened Database
  import opened Quorum

  /** The tables, the `checks_ingested` counter, and the service of the row that
      is committed and not yet evaluated. */
  datatype Store = Store(db: Db, ingested: nat, held: Option<string>)

  /** An action of the consumer, or a change made by the services API between
      any two of them.  `Put` is an insert; `dbError` says that it fails for a
      reason other than a constraint.  `Judge` is the call of the detector, which
      raises before it commits if there are no readings.  With `Drop` the
      consumer leaves the entry it is at: it dies, or turns to the next. */
  datatype Event =
    | Put(row: CheckResult, dbError: bool)
    | Judge(at: Option<Readings>)
    | Drop
    | Create(s: string, when: int)
    | Delete(s: string)

  function PutRow(st: Store, row: CheckResult, dbError: bool): Store {
    if dbError || Conflicts(st.db, row) then st.(held := None)
    else st.(db := Insert(st.db, row), held := Some(row.service))
  }

  ghost function JudgeHeld(cfg: Settings, st: Store, at: Option<Readings>): Store {
    if st.held == None then st
    else
      var db' := if at == None then st.db else Evaluate(cfg, st.db, st.held.value, at.value);
      Store(db', st.ingested + 1, None)
  }

  ghost function Apply(cfg: Settings, st: Store, e: Event): Store {
    match e
    case Put(row, dbError) => PutRow(st, row, dbError)
    case Judge(at) => JudgeHeld(cfg, st, at)
    case Drop => st.(held := None)
    case Create(s, when) => st.(db := CreateService(st.db, s, when))
    case Delete(s) => st.(db := DeleteService(st.db, s))
  }

  ghost function Stored(cfg: Settings, db: Db, row: CheckResult, detectorError: bool, at: Readings): Db {
    var db' := Insert(db, row);
    if detectorError then db' else Evaluate(cfg, db', row.service, at)
  }

  /** `_handle_result` after a successful parse, when nothing comes between. */
  ghost function Handle(cfg: Settings, st: Store, row: CheckResult, dbError: bool, detectorError: bool,
                        at: Readings): Store {
    if dbError || Conflicts(st.db, row) then st.(held := None)
    else Store(Stored(cfg, st.db, row, detectorError, at), st.ingested + 1, None)
  }

  /** No readings if the detector raises. */
  function Given(detectorError: bool, at: Readings): Option<Readings> {
    if detectorError then None else Some(at)
  }

  lemma HandleIsPutThenJudge(cfg: Settings, st: Store, row: CheckResult, dbError: bool, detectorError: bool,
                             at: Readings)
    ensures Handle(cfg, st, row, dbError, detectorError, at)
         == Apply(cfg, Apply(cfg, st, Put(row, dbError)), Judge(Given(detectorError, at)))
  {
  }

  /** The insert is over for good: committed, now or before, or refused. */
  predicate Acknowledged(dbError: bool) {
    !dbError
  }

  ghost function Run(cfg: Settings, st: Store, events: seq<Event>): Store
    decreases |events|
  {
    if events == [] then st else Run(cfg, Apply(cfg, st, events[0]), events[1..])
  }

  lemma {:induction false} RunAppend(cfg: Settings, st: Store, events: seq<Event>, e: Event)
    ensures Run(cfg, st, events + [e]) == Apply(cfg, Run(cfg, st, events), e)
    decreases |events|
  {
    if events == [] {
      assert ([] + [e])[1..] == [];
    } else {
      RunAppend(cfg, Apply(cfg, st, events[0]), events[1..], e);
      assert (events + [e])[1..] == events[1..] + [e];
    }
  }

  // ---- What the counter counts ----

  function InHand(st: Store): nat {
    if st.held == None then 0 else 1
  }

  /** The rows stored from whose evaluation the consumer turned away: it died, or
      went on to another entry. */
  ghost function Abandoned(cfg: Settings, st: Store, events: seq<Event>): nat
    decreases |events|
  {
    if events == [] then 0
    else
      var now := if events[0].Put? || events[0].Drop? then InHand(st) else 0;
      now + Abandoned(cfg, Apply(cfg, st, events[0]), events[1..])
  }

  /** The rows that went with their services. */
  ghost function Erased(cfg: Settings, st: Store, events: seq<Event>): int
    decreases |events|
  {
    if events == [] then 0
    else
      var now := if events[0].Delete? then |st.db.rows| - |RowsExcept(st.db.rows, events[0].s)| else 0;
      now + Erased(cfg, Apply(cfg, st, events[0]), events[1..])
  }

  /** Each row stored over a run, and no other result, is counted once: only the one
      in hand is not counted yet, and those abandoned never are. */
  lemma {:induction false} CounterAccountsForRows(cfg: Settings, st: Store, events: seq<Event>)
    ensures var end := Run(cfg, st, events);
      |end.db.rows| + Erased(cfg, st, events) - |st.db.rows|
        == end.ingested - st.ingested + Abandoned(cfg, st, events) + InHand(end) - InHand(st)
    decreases |events|
  {
    if events != [] {
      CounterAccountsForRows(cfg, Apply(cfg, st, events[0]), events[1..]);
    }
  }

  /** The events with every insert of a key that was settled before replaced by
      the consumer turning away. */
  function Dedup(events: seq<Event>, seen: set<string>): seq<Event>
    decreases |events|
  {
    if events == [] then []
    else
      match events[0]
      case Put(row, dbError) =>
        if row.key in seen then [Drop] + Dedup(events[1..], seen)
        else [events[0]] + Dedup(events[1..], Seen(seen, row, dbError))
      case _ => [events[0]] + Dedup(events[1..], seen)
  }

  function Seen(seen: set<string>, row: CheckResult, dbError: bool): set<string> {
    if Acknowledged(dbError) then seen + {row.key} else seen
  }

  /** Service ids are never handed out twice, results are only produced for
      services that were created, and a key names the service of its row. */
  ghost predicate Sound(events: seq<Event>, used: set<string>)
    decreases |events|
  {
    events == [] ||
    match events[0]
    case Put(row, _) => row.service in used && ServiceOf(row.key) == row.service && Sound(events[1..], used)
    case Create(s, _) => s !in used && Sound(events[1..], used + {s})
    case _ => Sound(events[1..], used)
  }

  ghost predicate KeysOk(db: Db, used: set<string>) {
    && db.services <= used
    && forall i :: 0 <= i < |db.rows| ==> db.rows[i].service == ServiceOf(db.rows[i].key)
  }

  /** A key once settled can never be inserted again. */
  ghost predicate Spent(db: Db, used: set<string>, seen: set<string>) {
    forall k :: k in seen ==>
      ServiceOf(k) in used && (HasKey(db.rows, k) || ServiceOf(k) !in db.services)
  }

  lemma PutKeeps(st: Store, row: CheckResult, dbError: bool, used: set<string>, seen: set<string>)
    requires KeysOk(st.db, used) && Spent(st.db, used, seen)
    requires row.service in used && ServiceOf(row.key) == row.service
    ensures var st' := PutRow(st, row, dbError);
      KeysOk(st'.db, used) && Spent(st'.db, used, Seen(seen, row, dbError))
  {
    var st' := PutRow(st, row, dbError);
    if !dbError && !Conflicts(st.db, row) {
      assert st'.db.rows[|st.db.rows|].key == row.key;
      forall k | HasKey(st.db.rows, k)
        ensures HasKey(st'.db.rows, k)
      {
        var i :| 0 <= i < |st.db.rows| && st.db.rows[i].key == k;
        assert st'.db.rows[i].key == k;
      }
    }
  }

  /** The detector adds no row and no service. */
  lemma JudgeKeeps(cfg: Settings, st: Store, at: Option<Readings>)
    ensures JudgeHeld(cfg, st, at).db.rows == st.db.rows
    ensures JudgeHeld(cfg, st, at).db.services == st.db.services
  {
  }

  lemma DeleteKeeps(db: Db, s: string, used: set<string>, seen: set<string>)
    requires KeysOk(db, used) && Spent(db, used, seen)
    ensures KeysOk(DeleteService(db, s), used) && Spent(DeleteService(db, s), used, seen)
  {
    var kept := RowsExcept(db.rows, s);
    forall i | 0 <= i < |kept|
      ensures kept[i].service == ServiceOf(kept[i].key)
    {
      assert kept[i] in db.rows;
    }
    forall k | k in seen && HasKey(db.rows, k) && ServiceOf(k) != s
      ensures HasKey(kept, k)
    {
      var i :| 0 <= i < |db.rows| && db.rows[i].key == k;
      assert db.rows[i] in kept;
    }
  }

  /** The insert of a settled key is refused. */
  lemma CopyIsRefused(st: Store, row: CheckResult, dbError: bool, used: set<string>, seen: set<string>)
    requires Spent(st.db, used, seen) && row.key in seen && ServiceOf(row.key) == row.service
    ensures PutRow(st, row, dbError) == st.(held := None)
  {
  }

  /** Every later copy of a settled entry leaves the tables and the counter as
      they are, whatever the consumer was at and whatever comes between: the run
      is the run without the copies.  The first commit wins. */
  lemma {:induction false} DuplicatesStutter(cfg: Settings, st: Store, events: seq<Event>,
                                            used: set<string>, seen: set<string>)
    requires KeysOk(st.db, used) && Spent(st.db, used, seen) && Sound(events, used)
    ensures Run(cfg, st, events) == Run(cfg, st, Dedup(events, seen))
    decreases |events|
  {
    if events != [] {
      var st' := Apply(cfg, st, events[0]);
      match events[0]
      case Put(row, dbError) =>
        if row.key in seen {
          CopyIsRefused(st, row, dbError, used, seen);
          DuplicatesStutter(cfg, st', events[1..], used, seen);
        } else {
          PutKeeps(st, row, dbError, used, seen);
          DuplicatesStutter(cfg, st', events[1..], used, Seen(seen, row, dbError));
        }
      case Judge(at) =>
        JudgeKeeps(cfg, st, at);
        DuplicatesStutter(cfg, st', events[1..], used, seen);
      case Drop =>
        DuplicatesStutter(cfg, st', events[1..], used, seen);
      case Create(s, when) =>
        DuplicatesStutter(cfg, st', events[1..], used + {s}, seen);
      case Delete(s) =>
        DeleteKeeps(st.db, s, used, seen);
        DuplicatesStutter(cfg, st', events[1..], used, seen);
    }
  }

  const NOTHING := Store(EMPTY, 0, None)

  /** Starting from empty tables nothing needs to be assumed of the state. */
  lemma DuplicatesAreHarmless(cfg: Settings, events: seq<Event>)
    requires Sound(events, {})
    ensures Run(cfg, NOTHING, events) == Run(cfg, NOTHING, Dedup(events, {}))
  {
    DuplicatesStutter(cfg, NOTHING, events, {}, {});
  }

  /** No insert follows a settled insert of the same key, and none has a key of
      `seen`. */
  ghost predicate HandledOnce(events: seq<Event>, seen: set<string>) {
    && (forall i :: 0 <= i < |events| && events[i].Put? ==> events[i].row.key !in seen)
    && (forall i, j :: 0 <= i < j < |events| && events[i].Put? && events[j].Put?
          && Acknowledged(events[i].dbError)
          ==> events[i].row.key != events[j].row.key)
  }

  lemma Prepend(e: Event, events: seq<Event>, seen: set<string>)
    requires e.Put? ==> e.row.key !in seen
    requires HandledOnce(events, if e.Put? then Seen(seen, e.row, e.dbError) else seen)
    ensures HandledOnce([e] + events, seen)
  {
    var all := [e] + events;
    assert forall i :: 0 < i < |all| ==> all[i] == events[i - 1];
  }

  lemma {:induction false} DedupHandlesOnce(events: seq<Event>, seen: set<string>)
    ensures HandledOnce(Dedup(events, seen), seen)
    decreases |events|
  {
    if events != [] {
      match events[0]
      case Put(row, dbError) =>
        if row.key in seen {
          DedupHandlesOnce(events[1..], seen);
          Prepend(Drop, Dedup(events[1..], seen), seen);
        } else {
          DedupHandlesOnce(events[1..], Seen(seen, row, dbError));
          Prepend(events[0], Dedup(events[1..], Seen(seen, row, dbError)), seen);
        }
      case _ =>
        DedupHandlesOnce(events[1..], seen);
        Prepend(events[0], Dedup(events[1..], seen), seen);
    }
  }
}
