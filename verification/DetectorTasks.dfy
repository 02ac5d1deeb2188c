/** Any number of `process_check_result` tasks in one process, interleaved at
    every `await`, together with everything else that writes the tables.

    A task holds its service's lock from `Acquire` to `Finish` or `Fail`.  Its
    transaction begins at its first query, and what it writes is invisible to
    the others until `Commit`.  One process is assumed: the lock lives in
    memory, and with a second worker two tasks could both see no open incident. */
module DetectorTasks {
  import opened Wrappers
  import opened Database
  import opened Quorum

  /** Where a task is suspended, and the locals it will still use. */
  datatype Task =
    | Waiting(s: string)
    | Locked(s: string, window: int)
    | Measured(s: string, window: int, begin: int, total: nat)
    | Judged(s: string, begin: int, down: bool)
    | Looked(s: string, begin: int, down: bool, found: Option<nat>)
    | Flushed(s: string, begin: int, down: bool, act: Action)
    | Stamped(s: string, begin: int, down: bool, act: Action, status: ServiceStatus, at: int)
    | Committed(s: string, act: Action)

  /** One committed evaluation, or the creation of the status row. */
  datatype Entry = Entry(word: string, at: int)

  /** `opened` and `resolved` are the metrics counters.  The last five fields
      are history: evaluations given up after they had counted an incident,
      which task committed which incident change, and the follow-up tasks that
      were started; `log` lists the committed evaluations of each service. */
  datatype State = State(
    now: int,
    db: Db,
    tasks: map<nat, Task>,
    holder: map<string, nat>,
    called: set<nat>,
    opensCounted: int,
    resolvesCounted: int,
    abortedOpens: nat,
    abortedResolves: nat,
    openedBy: map<nat, nat>,
    resolvedBy: map<nat, nat>,
    openTasks: set<nat>,
    resolveTasks: set<nat>,
    log: map<string, seq<Entry>>)

  function Init(now: int): State {
    State(now, EMPTY, map[], map[], {}, 0, 0, 0, 0, map[], map[], {}, {}, map[])
  }

  datatype Step =
    | Call(t: nat, s: string)
    | Acquire(t: nat)
    | Measure(t: nat)
    | Judge(t: nat)
    | Look(t: nat)
    | Flush(t: nat)
    | StampStatus(t: nat, checked: int)
    | CommitTask(t: nat)
    | Finish(t: nat)
    | Fail(t: nat)
    | AddService(s: string)
    | DropService(s: string)
    | AddRow(row: CheckResult)
    | Describe(id: nat, summary: Option<string>, sent: bool)
    | Tick(later: int)

  ghost predicate Can(cfg: Settings, st: State, step: Step) {
    match step
    case Call(t, s) => t !in st.called && s in st.db.used
    case Acquire(t) => t in st.tasks && st.tasks[t].Waiting? && st.tasks[t].s !in st.holder
    case Measure(t) => t in st.tasks && st.tasks[t].Locked?
    case Judge(t) => t in st.tasks && st.tasks[t].Measured?
    // With two open incidents the query raises: that is a Fail.
    case Look(t) => t in st.tasks && st.tasks[t].Judged? && |OpenOf(st.db, st.tasks[t].s)| <= 1
    case Flush(t) => t in st.tasks && st.tasks[t].Looked?
    case StampStatus(t, checked) => t in st.tasks && st.tasks[t].Flushed? && st.now <= checked
    // Once the service is gone the foreign key makes the commit fail.
    case CommitTask(t) => t in st.tasks && st.tasks[t].Stamped? && st.tasks[t].s in st.db.services
    case Finish(t) => t in st.tasks && st.tasks[t].Committed?
    case Fail(t) => t in st.tasks && !st.tasks[t].Committed?
    case AddService(s) => s !in st.db.used
    case DropService(s) => true
    case AddRow(row) => !Conflicts(st.db, row)
    case Describe(id, summary, sent) => true
    case Tick(later) => st.now <= later
  }

  function Move(st: State, t: nat, task: Task): State {
    st.(tasks := st.tasks[t := task])
  }

  /** The task is over and its lock, if it had it, is free. */
  function Leave(st: State, t: nat): State
    requires t in st.tasks
  {
    st.(tasks := st.tasks - {t},
        holder := if st.tasks[t].Waiting? then st.holder else st.holder - {st.tasks[t].s})
  }

  /** The incident change a task has flushed but not committed. */
  function Pending(task: Task): Action {
    if task.Flushed? || task.Stamped? then task.act else Keep
  }

  ghost function Do(cfg: Settings, st: State, step: Step): State
    requires Can(cfg, st, step)
  {
    match step
    case Call(t, s) => Move(st, t, Waiting(s)).(called := st.called + {t})
    case Acquire(t) =>
      var s := st.tasks[t].s;
      Move(st, t, Locked(s, st.now - cfg.window)).(holder := st.holder[s := t])
    case Measure(t) =>
      var k := st.tasks[t];
      var total := Total(st.db.rows, k.s, k.window);
      if total == 0 then Leave(st, t) else Move(st, t, Measured(k.s, k.window, st.now, total))
    case Judge(t) =>
      var k := st.tasks[t];
      Move(st, t, Judged(k.s, k.begin, IsDown(cfg, Failing(st.db.rows, k.s, k.window), k.total)))
    case Look(t) =>
      var k := st.tasks[t];
      Move(st, t, Looked(k.s, k.begin, k.down, Found(st.db, k.s)))
    case Flush(t) =>
      var k := st.tasks[t];
      var act := Choose(k.down, k.found, st.db.nextId, st.now);
      Move(st, t, Flushed(k.s, k.begin, k.down, act))
        .(db := st.db.(nextId := st.db.nextId + (if act.Open? then 1 else 0)),
          opensCounted := st.opensCounted + (if act.Open? then 1 else 0),
          resolvesCounted := st.resolvesCounted + (if act.Resolve? then 1 else 0))
    case StampStatus(t, checked) =>
      var k := st.tasks[t];
      Move(st, t, Stamped(k.s, k.begin, k.down, k.act, Stamp(StatusOf(st.db, k.s), k.down, st.now, checked), st.now))
        .(now := checked)
    case CommitTask(t) =>
      var k := st.tasks[t];
      Move(st, t, Committed(k.s, k.act))
        .(db := Commit(st.db, k.s, k.act, k.begin, k.status),
          openedBy := if k.act.Open? then st.openedBy[k.act.id := t] else st.openedBy,
          resolvedBy := if k.act.Resolve? then st.resolvedBy[k.act.id := t] else st.resolvedBy,
          log := st.log[k.s := LogOf(st, k.s) + [Entry(k.status.current, k.at)]])
    case Finish(t) =>
      var k := st.tasks[t];
      Leave(st, t)
        .(openTasks := st.openTasks + (if k.act.Open? then {k.act.id} else {}),
          resolveTasks := st.resolveTasks + (if k.act.Resolve? then {k.act.id} else {}))
    case Fail(t) =>
      var k := st.tasks[t];
      Leave(st, t)
        .(abortedOpens := st.abortedOpens + (if Pending(k).Open? then 1 else 0),
          abortedResolves := st.abortedResolves + (if Pending(k).Resolve? then 1 else 0))
    case AddService(s) =>
      st.(db := CreateService(st.db, s, st.now), log := st.log[s := [Entry("unknown", st.now)]])
    case DropService(s) => st.(db := DeleteService(st.db, s))
    case AddRow(row) => st.(db := Insert(st.db, row))
    case Describe(id, summary, sent) => st.(db := Annotate(st.db, id, summary, sent))
    case Tick(later) => st.(now := later)
  }

  function LogOf(st: State, s: string): seq<Entry> {
    if s in st.log then st.log[s] else []
  }

  /** `end` is reached from `st` by taking these steps, each possible in turn. */
  ghost predicate Reaches(cfg: Settings, st: State, steps: seq<Step>, end: State)
    decreases |steps|
  {
    if steps == [] then end == st
    else Can(cfg, st, steps[0]) && Reaches(cfg, Do(cfg, st, steps[0]), steps[1..], end)
  }

  // ---- The invariant ----

  /** Whoever is past the lock holds it, so no two tasks of one service are. */
  ghost predicate LocksOk(st: State) {
    && (forall t :: t in st.tasks && !st.tasks[t].Waiting? ==>
          st.tasks[t].s in st.holder && st.holder[st.tasks[t].s] == t)
    && (forall s :: s in st.holder ==>
          st.holder[s] in st.tasks && !st.tasks[st.holder[s]].Waiting? && st.tasks[st.holder[s]].s == s)
    && (forall t :: t in st.tasks ==> t in st.called)
  }

  ghost predicate BegunOk(db: Db, now: int, s: string, begin: int) {
    begin <= now && (s in db.services ==> s in db.status && db.status[s].lastChecked <= begin)
  }

  /** What a flushed change was chosen on is still so. */
  ghost predicate FlushedOk(db: Db, now: int, s: string, begin: int, down: bool, act: Action) {
    && (act.Open? ==> act.id < db.nextId && act.id !in db.incidents)
    && (act.Open? ==> forall i :: i in db.incidents && db.incidents[i].service == s ==> i < act.id)
    && (act.Resolve? ==> begin <= act.at <= now)
    && (s in db.services ==>
          && |OpenOf(db, s)| <= 1
          && act == Choose(down, Found(db, s), if act.Open? then act.id else 0, if act.Resolve? then act.at else 0))
  }

  /** What each task read under its lock is still what the tables hold, as long
      as its service exists. */
  ghost predicate TaskOk(db: Db, now: int, task: Task) {
    task.s in db.used &&
    match task
    case Waiting(s) => true
    case Locked(s, window) => window <= now
    case Measured(s, window, begin, total) => BegunOk(db, now, s, begin)
    case Judged(s, begin, down) => BegunOk(db, now, s, begin)
    case Looked(s, begin, down, found) =>
      BegunOk(db, now, s, begin) && (s in db.services ==> |OpenOf(db, s)| <= 1 && found == Found(db, s))
    case Flushed(s, begin, down, act) =>
      BegunOk(db, now, s, begin) && FlushedOk(db, now, s, begin, down, act)
    case Stamped(s, begin, down, act, status, at) =>
      && BegunOk(db, now, s, begin) && FlushedOk(db, now, s, begin, down, act)
      && status.lastChecked <= now
      && (s in db.services ==> MayCommit(db, s, down, act, begin, status))
      && (s in db.services ==> status == Stamp(StatusOf(db, s), down, at, status.lastChecked))
    case Committed(s, act) => true
  }

  ghost predicate TasksOk(st: State) {
    && (forall t :: t in st.tasks ==> TaskOk(st.db, st.now, st.tasks[t]))
    && (forall t, u :: t in st.tasks && u in st.tasks && t != u
          && Pending(st.tasks[t]).Open? && Pending(st.tasks[u]).Open?
          ==> Pending(st.tasks[t]).id != Pending(st.tasks[u]).id)
  }

  function PendingOpens(tasks: map<nat, Task>): set<nat> {
    set t | t in tasks && Pending(tasks[t]).Open?
  }

  function PendingResolves(tasks: map<nat, Task>): set<nat> {
    set t | t in tasks && Pending(tasks[t]).Resolve?
  }

  /** The counters are raised at the flush, before the commit. */
  ghost predicate CountersOk(st: State) {
    && st.opensCounted == st.db.tally.opens + st.abortedOpens + |PendingOpens(st.tasks)|
    && st.resolvesCounted == st.db.tally.resolves + st.abortedResolves + |PendingResolves(st.tasks)|
  }

  ghost predicate OwesOpen(st: State, t: nat, id: nat) {
    t in st.tasks && st.tasks[t].Committed? && st.tasks[t].act.Open? && st.tasks[t].act.id == id
  }

  ghost predicate OwesResolve(st: State, t: nat, id: nat) {
    t in st.tasks && st.tasks[t].Committed? && st.tasks[t].act.Resolve? && st.tasks[t].act.id == id
  }

  /** Every committed opening has had its follow-up task started, once, or the
      task that committed it is about to start it. */
  ghost predicate OpenTasksOk(st: State) {
    && st.db.incidents.Keys <= st.openedBy.Keys
    && st.openTasks <= st.openedBy.Keys
    && (forall id :: id in st.openedBy ==>
          && id < st.db.nextId && st.openedBy[id] in st.called
          && (id in st.openTasks <==> !OwesOpen(st, st.openedBy[id], id)))
    && (forall t, id :: OwesOpen(st, t, id) ==> id in st.openedBy && st.openedBy[id] == t)
    && (forall t :: t in st.tasks && Pending(st.tasks[t]).Open? ==> Pending(st.tasks[t]).id !in st.openedBy)
  }

  /** The same for every committed resolution; an incident is resolved once. */
  ghost predicate ResolveTasksOk(st: State) {
    && st.resolvedBy.Keys <= st.openedBy.Keys
    && st.resolveTasks <= st.resolvedBy.Keys
    && (forall id :: id in st.resolvedBy ==>
          && id !in OpenIds(st.db) && st.resolvedBy[id] in st.called
          && (id in st.resolveTasks <==> !OwesResolve(st, st.resolvedBy[id], id)))
    && (forall t, id :: OwesResolve(st, t, id) ==> id in st.resolvedBy && st.resolvedBy[id] == t)
  }

  ghost predicate LogOk(st: State) {
    forall s :: s in st.db.services ==>
      && s in st.db.status && s in st.log && st.log[s] != []
      && st.db.status[s].current == st.log[s][|st.log[s]| - 1].word
      && st.db.status[s].since == WordSince(st.log[s])
  }

  /** When the last word of the log was first said without a break since. */
  function WordSince(log: seq<Entry>): int
    requires log != []
  {
    var n := |log|;
    if n > 1 && log[n - 2].word == log[n - 1].word then WordSince(log[..n - 1]) else log[n - 1].at
  }

  ghost predicate Inv(st: State) {
    && Valid(st.db) && Dated(st.db, st.now)
    && LocksOk(st) && TasksOk(st) && CountersOk(st) && OpenTasksOk(st) && ResolveTasksOk(st) && LogOk(st)
  }

  // ---- Every step keeps it ----

  /** The follow-up clauses only look at who owes what and what is pending. */
  lemma FollowUpsFrame(st: State, st': State)
    requires OpenTasksOk(st) && ResolveTasksOk(st)
    requires forall t, id :: OwesOpen(st', t, id) <==> OwesOpen(st, t, id)
    requires forall t, id :: OwesResolve(st', t, id) <==> OwesResolve(st, t, id)
    requires st'.openedBy == st.openedBy && st'.resolvedBy == st.resolvedBy
    requires st'.openTasks == st.openTasks && st'.resolveTasks == st.resolveTasks
    requires st'.db.incidents.Keys <= st.db.incidents.Keys && OpenIds(st'.db) <= OpenIds(st.db)
    requires st.db.nextId <= st'.db.nextId && st.called <= st'.called
    requires forall t :: t in st'.tasks && Pending(st'.tasks[t]).Open? ==>
      t in st.tasks && Pending(st.tasks[t]) == Pending(st'.tasks[t])
    ensures OpenTasksOk(st') && ResolveTasksOk(st')
  {
  }

  /** A task that has nothing pending and owes nothing. */
  predicate Quiet(task: Task) {
    !task.Flushed? && !task.Stamped? && !task.Committed?
  }

  function One(b: bool): nat {
    if b then 1 else 0
  }

  /** How moving one task changes the numbers of pending changes. */
  lemma MovePending(tasks: map<nat, Task>, t: nat, task: Task)
    requires t in tasks
    ensures |PendingOpens(tasks[t := task])| + One(Pending(tasks[t]).Open?)
         == |PendingOpens(tasks)| + One(Pending(task).Open?)
    ensures |PendingResolves(tasks[t := task])| + One(Pending(tasks[t]).Resolve?)
         == |PendingResolves(tasks)| + One(Pending(task).Resolve?)
  {
    MovePendingOpens(tasks, t, task);
    MovePendingResolves(tasks, t, task);
  }

  lemma MovePendingOpens(tasks: map<nat, Task>, t: nat, task: Task)
    requires t in tasks
    ensures |PendingOpens(tasks[t := task])| + One(Pending(tasks[t]).Open?)
         == |PendingOpens(tasks)| + One(Pending(task).Open?)
  {
    var before, after := PendingOpens(tasks), PendingOpens(tasks[t := task]);
    assert after - {t} == before - {t};
    Without(after, t);
    Without(before, t);
  }

  lemma MovePendingResolves(tasks: map<nat, Task>, t: nat, task: Task)
    requires t in tasks
    ensures |PendingResolves(tasks[t := task])| + One(Pending(tasks[t]).Resolve?)
         == |PendingResolves(tasks)| + One(Pending(task).Resolve?)
  {
    var before, after := PendingResolves(tasks), PendingResolves(tasks[t := task]);
    assert after - {t} == before - {t};
    Without(after, t);
    Without(before, t);
  }

  lemma LeavePending(tasks: map<nat, Task>, t: nat)
    requires t in tasks
    ensures |PendingOpens(tasks - {t})| + One(Pending(tasks[t]).Open?) == |PendingOpens(tasks)|
    ensures |PendingResolves(tasks - {t})| + One(Pending(tasks[t]).Resolve?) == |PendingResolves(tasks)|
  {
    assert PendingOpens(tasks - {t}) == PendingOpens(tasks) - {t};
    assert PendingResolves(tasks - {t}) == PendingResolves(tasks) - {t};
    Without(PendingOpens(tasks), t);
    Without(PendingResolves(tasks), t);
  }

  lemma Without(s: set<nat>, t: nat)
    ensures |s - {t}| + One(t in s) == |s|
  {
    if t in s {
      assert s == (s - {t}) + {t};
    } else {
      assert s - {t} == s;
    }
  }

  lemma QuietFollowUps(st: State, t: nat, st': State)
    requires OpenTasksOk(st) && ResolveTasksOk(st)
    requires t in st.tasks ==> Quiet(st.tasks[t])
    requires t in st'.tasks ==> Quiet(st'.tasks[t])
    requires st'.tasks - {t} == st.tasks - {t}
    requires st' == st.(tasks := st'.tasks, holder := st'.holder, called := st'.called)
    requires st.called <= st'.called
    ensures OpenTasksOk(st') && ResolveTasksOk(st')
  {
    assert forall u :: u != t ==> (u in st.tasks <==> u in st.tasks - {t});
    assert forall u :: u != t ==> (u in st'.tasks <==> u in st'.tasks - {t});
    assert forall u :: u != t && u in st.tasks ==> st.tasks[u] == (st.tasks - {t})[u];
    assert forall u :: u != t && u in st'.tasks ==> st'.tasks[u] == (st'.tasks - {t})[u];
    assert forall u, id :: OwesOpen(st', u, id) <==> OwesOpen(st, u, id);
    assert forall u, id :: OwesResolve(st', u, id) <==> OwesResolve(st, u, id);
    FollowUpsFrame(st, st');
  }

  lemma QuietTasks(st: State, t: nat, task: Task, st': State)
    requires TasksOk(st) && TaskOk(st.db, st.now, task) && Quiet(task)
    requires st'.tasks == st.tasks[t := task] && st'.db == st.db && st'.now == st.now
    ensures TasksOk(st')
  {
    OtherTasksFrame(st, st', t);
  }

  lemma QuietCounters(st: State, t: nat, st': State)
    requires CountersOk(st)
    requires t in st.tasks ==> Quiet(st.tasks[t])
    requires t in st'.tasks ==> Quiet(st'.tasks[t])
    requires st' == st.(tasks := st'.tasks, holder := st'.holder, called := st'.called)
    requires st'.tasks - {t} == st.tasks - {t}
    ensures CountersOk(st')
  {
    assert PendingOpens(st'.tasks) == PendingOpens(st'.tasks - {t});
    assert PendingOpens(st.tasks) == PendingOpens(st.tasks - {t});
    assert PendingResolves(st'.tasks) == PendingResolves(st'.tasks - {t});
    assert PendingResolves(st.tasks) == PendingResolves(st.tasks - {t});
  }

  lemma QuietMove(st: State, t: nat, task: Task, st': State)
    requires Inv(st) && TaskOk(st.db, st.now, task) && Quiet(task)
    requires t in st.tasks ==> Quiet(st.tasks[t])
    requires st' == st.(tasks := st.tasks[t := task], holder := st'.holder, called := st'.called)
    requires st.called <= st'.called && LocksOk(st')
    ensures Inv(st')
  {
    assert st'.tasks - {t} == st.tasks - {t};
    QuietTasks(st, t, task, st');
    QuietCounters(st, t, st');
    QuietFollowUps(st, t, st');
    SameLog(st, st');
  }

  lemma SameLog(st: State, st': State)
    requires LogOk(st) && st'.log == st.log
    requires st'.db.services == st.db.services && st'.db.status == st.db.status
    ensures LogOk(st')
  {
  }

  lemma LeaveKeepsLocks(st: State, t: nat, st': State)
    requires LocksOk(st) && t in st.tasks
    requires st'.tasks == Leave(st, t).tasks && st'.holder == Leave(st, t).holder && st'.called == st.called
    ensures LocksOk(st')
  {
    forall s | s in st'.holder
      ensures st'.holder[s] in st'.tasks && !st'.tasks[st'.holder[s]].Waiting? && st'.tasks[st'.holder[s]].s == s
    {
      assert st.holder[s] in st.tasks;
    }
  }

  lemma LeaveKeepsTasks(st: State, t: nat, st': State)
    requires TasksOk(st) && t in st.tasks
    requires st'.tasks == st.tasks - {t} && st'.db == st.db && st'.now == st.now
    ensures TasksOk(st')
  {
  }

  lemma QuietLeave(st: State, t: nat, st': State)
    requires Inv(st) && t in st.tasks && Quiet(st.tasks[t])
    requires st' == Leave(st, t)
    ensures Inv(st')
  {
    assert st'.tasks - {t} == st.tasks - {t};
    LeaveKeepsLocks(st, t, st');
    LeaveKeepsTasks(st, t, st');
    QuietCounters(st, t, st');
    QuietFollowUps(st, t, st');
    SameLog(st, st');
  }

  /** What a task relies on, seen from its service `s`: the service is the one
      it was, with the same status row and the same open incidents, and it has
      gained no incident.  Deleting the service is no exception, because a
      deleted service never returns. */
  ghost predicate SameFor(db: Db, db': Db, s: string) {
    && db.used <= db'.used && db.nextId <= db'.nextId
    && (s in db'.services ==>
          && s in db.services && s in db.status && s in db'.status
          && db'.status[s] == db.status[s] && OpenOf(db', s) == OpenOf(db, s))
    && (forall i :: i in db'.incidents && db'.incidents[i].service == s ==>
          i in db.incidents && db.incidents[i].service == s)
  }

  lemma TaskFrame(db: Db, db': Db, now: int, now': int, task: Task)
    requires TaskOk(db, now, task) && now <= now' && SameFor(db, db', task.s)
    requires Pending(task).Open? ==> Pending(task).id !in db'.incidents
    ensures TaskOk(db', now', task)
  {
  }

  /** Only task `t` changed, and the tables stayed good for the others. */
  lemma OtherTasksFrame(st: State, st': State, t: nat)
    requires TasksOk(st)
    requires forall u :: u in st'.tasks && u != t ==> u in st.tasks && st'.tasks[u] == st.tasks[u]
    requires forall u :: u in st'.tasks && u != t ==> TaskOk(st'.db, st'.now, st'.tasks[u])
    requires t in st'.tasks ==> TaskOk(st'.db, st'.now, st'.tasks[t])
    requires t in st'.tasks && Pending(st'.tasks[t]).Open? ==>
      forall u :: u in st'.tasks && u != t && Pending(st'.tasks[u]).Open? ==>
        Pending(st'.tasks[t]).id != Pending(st'.tasks[u]).id
    ensures TasksOk(st')
  {
  }

  lemma CallKeeps(cfg: Settings, st: State, t: nat, s: string)
    requires Inv(st) && Can(cfg, st, Call(t, s))
    ensures Inv(Do(cfg, st, Call(t, s)))
  {
    QuietMove(st, t, Waiting(s), Do(cfg, st, Call(t, s)));
  }

  lemma AcquireKeeps(cfg: Settings, st: State, t: nat)
    requires Inv(st) && Can(cfg, st, Acquire(t))
    ensures Inv(Do(cfg, st, Acquire(t)))
  {
    var st' := Do(cfg, st, Acquire(t));
    QuietMove(st, t, st'.tasks[t], st');
  }

  lemma MeasureKeeps(cfg: Settings, st: State, t: nat)
    requires Inv(st) && Can(cfg, st, Measure(t))
    ensures Inv(Do(cfg, st, Measure(t)))
  {
    var st' := Do(cfg, st, Measure(t));
    if t in st'.tasks {
      QuietMove(st, t, st'.tasks[t], st');
    } else {
      QuietLeave(st, t, st');
    }
  }

  lemma JudgeKeeps(cfg: Settings, st: State, t: nat)
    requires Inv(st) && Can(cfg, st, Judge(t))
    ensures Inv(Do(cfg, st, Judge(t)))
  {
    var st' := Do(cfg, st, Judge(t));
    QuietMove(st, t, st'.tasks[t], st');
  }

  lemma LookKeeps(cfg: Settings, st: State, t: nat)
    requires Inv(st) && Can(cfg, st, Look(t))
    ensures Inv(Do(cfg, st, Look(t)))
  {
    var st' := Do(cfg, st, Look(t));
    QuietMove(st, t, st'.tasks[t], st');
  }

  lemma FlushedTaskOk(cfg: Settings, st: State, t: nat)
    requires IncidentsOk(st.db) && TasksOk(st) && Can(cfg, st, Flush(t))
    ensures var st' := Do(cfg, st, Flush(t)); TaskOk(st'.db, st'.now, st'.tasks[t])
  {
    var st' := Do(cfg, st, Flush(t));
    var k := st.tasks[t];
    assert OpenOf(st'.db, k.s) == OpenOf(st.db, k.s);
  }

  lemma FlushKeepsTasks(cfg: Settings, st: State, t: nat)
    requires IncidentsOk(st.db) && StatusOk(st.db) && TasksOk(st) && Can(cfg, st, Flush(t))
    ensures TasksOk(Do(cfg, st, Flush(t)))
  {
    var st' := Do(cfg, st, Flush(t));
    FlushedTaskOk(cfg, st, t);
    forall u | u in st'.tasks && u != t
      ensures TaskOk(st'.db, st'.now, st'.tasks[u])
    {
      assert OpenOf(st'.db, st.tasks[u].s) == OpenOf(st.db, st.tasks[u].s);
      TaskFrame(st.db, st'.db, st.now, st'.now, st.tasks[u]);
    }
    OtherTasksFrame(st, st', t);
  }

  lemma FlushKeepsFollowUps(cfg: Settings, st: State, t: nat)
    requires OpenTasksOk(st) && ResolveTasksOk(st) && Can(cfg, st, Flush(t))
    ensures var st' := Do(cfg, st, Flush(t)); OpenTasksOk(st') && ResolveTasksOk(st')
  {
    var st' := Do(cfg, st, Flush(t));
    assert OpenIds(st'.db) == OpenIds(st.db);
    assert forall u, id :: OwesOpen(st', u, id) <==> OwesOpen(st, u, id);
    assert forall u, id :: OwesResolve(st', u, id) <==> OwesResolve(st, u, id);
  }

  lemma FlushKeepsCounters(cfg: Settings, st: State, t: nat)
    requires CountersOk(st) && Can(cfg, st, Flush(t))
    ensures CountersOk(Do(cfg, st, Flush(t)))
  {
    MovePending(st.tasks, t, Do(cfg, st, Flush(t)).tasks[t]);
  }

  lemma SameOpen(db: Db, db': Db)
    requires db' == db.(nextId := db'.nextId) && db.nextId <= db'.nextId && Valid(db)
    ensures Valid(db') && OpenIds(db') == OpenIds(db)
    ensures forall s :: OpenOf(db', s) == OpenOf(db, s)
  {
    forall s ensures OpenOf(db', s) == OpenOf(db, s) {}
    assert OpenIds(db') == OpenIds(db);
  }

  lemma FlushKeeps(cfg: Settings, st: State, t: nat)
    requires Inv(st) && Can(cfg, st, Flush(t))
    ensures Inv(Do(cfg, st, Flush(t)))
  {
    var st' := Do(cfg, st, Flush(t));
    FlushKeepsTasks(cfg, st, t);
    FlushKeepsFollowUps(cfg, st, t);
    FlushKeepsCounters(cfg, st, t);
    SameOpen(st.db, st'.db);
    FlushKeepsLocks(cfg, st, t);
    SameLog(st, st');
  }

  lemma FlushKeepsLocks(cfg: Settings, st: State, t: nat)
    requires LocksOk(st) && Can(cfg, st, Flush(t))
    ensures LocksOk(Do(cfg, st, Flush(t)))
  {
  }

  lemma StampedTaskOk(db: Db, now: int, task: Task, checked: int)
    requires task.Flushed? && TaskOk(db, now, task) && StatusOk(db) && now <= checked
    ensures TaskOk(db, checked, Stamped(task.s, task.begin, task.down, task.act,
                                        Stamp(StatusOf(db, task.s), task.down, now, checked), now))
  {
    if task.s in db.services {
      var status := Stamp(StatusOf(db, task.s), task.down, now, checked);
      assert db.status[task.s].since <= db.status[task.s].lastChecked;
      assert MayCommit(db, task.s, task.down, task.act, task.begin, status);
    }
  }

  lemma StampKeepsTasks(cfg: Settings, st: State, t: nat, checked: int)
    requires Inv(st) && Can(cfg, st, StampStatus(t, checked))
    ensures TasksOk(Do(cfg, st, StampStatus(t, checked)))
  {
    var st' := Do(cfg, st, StampStatus(t, checked));
    StampedTaskOk(st.db, st.now, st.tasks[t], checked);
    forall u | u in st'.tasks && u != t
      ensures TaskOk(st'.db, st'.now, st'.tasks[u])
    {
      TaskFrame(st.db, st'.db, st.now, st'.now, st.tasks[u]);
    }
    OtherTasksFrame(st, st', t);
  }

  lemma StampKeepsFollowUps(cfg: Settings, st: State, t: nat, checked: int)
    requires OpenTasksOk(st) && ResolveTasksOk(st) && Can(cfg, st, StampStatus(t, checked))
    ensures var st' := Do(cfg, st, StampStatus(t, checked)); OpenTasksOk(st') && ResolveTasksOk(st')
  {
    var st' := Do(cfg, st, StampStatus(t, checked));
    assert forall u, id :: OwesOpen(st', u, id) <==> OwesOpen(st, u, id);
    assert forall u, id :: OwesResolve(st', u, id) <==> OwesResolve(st, u, id);
    FollowUpsFrame(st, st');
  }

  lemma StampKeeps(cfg: Settings, st: State, t: nat, checked: int)
    requires Inv(st) && Can(cfg, st, StampStatus(t, checked))
    ensures Inv(Do(cfg, st, StampStatus(t, checked)))
  {
    var st' := Do(cfg, st, StampStatus(t, checked));
    MovePending(st.tasks, t, st'.tasks[t]);
    StampKeepsTasks(cfg, st, t, checked);
    StampKeepsFollowUps(cfg, st, t, checked);
    assert LocksOk(st') && LogOk(st');
  }

  // ---- The commit ----

  /** A commit is one atomic evaluation of the tables as they are at the commit,
      although it was chosen on what the task read before. */
  lemma CommitIsAtomic(cfg: Settings, st: State, t: nat)
    requires Inv(st) && Can(cfg, st, CommitTask(t))
    ensures var k := st.tasks[t];
      && MayCommit(st.db, k.s, k.down, k.act, k.begin, k.status)
      && Do(cfg, st, CommitTask(t)).db == Commit(st.db, k.s, k.act, k.begin, k.status)
      && k.act == Choose(k.down, Found(st.db, k.s), if k.act.Open? then k.act.id else 0,
                         if k.act.Resolve? then k.act.at else 0)
  {
    assert TaskOk(st.db, st.now, st.tasks[t]);
  }

  lemma CommitSameForOthers(db: Db, s: string, down: bool, act: Action, begin: int, status: ServiceStatus, x: string)
    requires Valid(db) && MayCommit(db, s, down, act, begin, status) && x != s
    requires act.Open? ==> act.id < db.nextId
    ensures SameFor(db, Commit(db, s, act, begin, status), x)
  {
    CommitOpens(db, s, down, act, begin, status);
    AtMostOneOpen(db, s);
  }

  lemma OthersAreElsewhere(st: State, t: nat, u: nat)
    requires LocksOk(st) && t in st.tasks && u in st.tasks && t != u
    requires !st.tasks[t].Waiting? && !st.tasks[u].Waiting?
    ensures st.tasks[t].s != st.tasks[u].s
  {
  }

  /** What another task has pending does not collide with what is committed. */
  lemma CommitKeepsApart(db: Db, now: int, k: Task, other: Task)
    requires k.Stamped? && k.s in db.services && TaskOk(db, now, other)
    requires Pending(other).Open? && k.act.Open? ==> Pending(other).id != k.act.id
    ensures Pending(other).Open? ==>
      Pending(other).id !in Commit(db, k.s, k.act, k.begin, k.status).incidents
  {
    CommitAddsOneIncident(db, k);
  }

  lemma CommitKeepsOther(db: Db, now: int, k: Task, other: Task)
    requires Valid(db) && k.Stamped? && MayCommit(db, k.s, k.down, k.act, k.begin, k.status)
    requires k.act.Open? ==> k.act.id < db.nextId
    requires TaskOk(db, now, other) && (!other.Waiting? ==> other.s != k.s)
    requires Pending(other).Open? && k.act.Open? ==> Pending(other).id != k.act.id
    ensures TaskOk(Commit(db, k.s, k.act, k.begin, k.status), now, other)
  {
    if !other.Waiting? {
      CommitKeepsApart(db, now, k, other);
      CommitSameForOthers(db, k.s, k.down, k.act, k.begin, k.status, other.s);
      TaskFrame(db, Commit(db, k.s, k.act, k.begin, k.status), now, now, other);
    }
  }

  lemma CommitKeepsTasks(cfg: Settings, st: State, t: nat)
    requires Valid(st.db) && LocksOk(st) && TasksOk(st) && Can(cfg, st, CommitTask(t))
    ensures TasksOk(Do(cfg, st, CommitTask(t)))
  {
    var st' := Do(cfg, st, CommitTask(t));
    var k := st.tasks[t];
    assert TaskOk(st.db, st.now, k);
    forall u | u in st'.tasks && u != t
      ensures TaskOk(st'.db, st'.now, st'.tasks[u])
    {
      if !st.tasks[u].Waiting? {
        OthersAreElsewhere(st, t, u);
      }
      CommitKeepsOther(st.db, st.now, k, st.tasks[u]);
    }
    OtherTasksFrame(st, st', t);
  }

  lemma CommitKeepsCounters(cfg: Settings, st: State, t: nat)
    requires CountersOk(st) && Can(cfg, st, CommitTask(t))
    ensures CountersOk(Do(cfg, st, CommitTask(t)))
  {
    MovePending(st.tasks, t, Do(cfg, st, CommitTask(t)).tasks[t]);
  }

  lemma CommitKeepsLog(cfg: Settings, st: State, t: nat)
    requires StatusOk(st.db) && LogOk(st) && Can(cfg, st, CommitTask(t))
    requires var k := st.tasks[t]; k.status == Stamp(StatusOf(st.db, k.s), k.down, k.at, k.status.lastChecked)
    ensures LogOk(Do(cfg, st, CommitTask(t)))
  {
    var k := st.tasks[t];
    var log := st.log[k.s];
    var log' := log + [Entry(k.status.current, k.at)];
    assert log'[..|log|] == log;
    assert WordSince(log') == k.status.since;
  }

  lemma CommitKeepsOpenTasks(cfg: Settings, st: State, t: nat)
    requires OpenTasksOk(st) && TasksOk(st) && LocksOk(st) && Can(cfg, st, CommitTask(t))
    ensures OpenTasksOk(Do(cfg, st, CommitTask(t)))
  {
    var st' := Do(cfg, st, CommitTask(t));
    var k := st.tasks[t];
    assert TaskOk(st.db, st.now, k);
    assert k.act.Open? ==> k.act.id < st.db.nextId && Pending(k).id !in st.openedBy;
    forall u, id
      ensures OwesOpen(st', u, id) <==> OwesOpen(st, u, id) || (u == t && k.act == Open(id))
    {
    }
    assert forall id :: !OwesOpen(st, t, id);
    assert st'.db.incidents.Keys <= st'.openedBy.Keys by {
      CommitAddsOneIncident(st.db, k);
    }
  }

  lemma CommitAddsOneIncident(db: Db, task: Task)
    requires task.Stamped? && task.s in db.services
    ensures Commit(db, task.s, task.act, task.begin, task.status).incidents.Keys
         <= db.incidents.Keys + (if task.act.Open? then {task.act.id} else {})
  {
  }

  /** An incident is open after a commit only if it was before or is the one
      opened; the one resolved was open and is not. */
  ghost predicate OpensFollow(db: Db, db': Db, act: Action) {
    && OpenIds(db') <= OpenIds(db) + (if act.Open? then {act.id} else {})
    && (act.Resolve? ==> act.id in OpenIds(db) && act.id in db.incidents && act.id !in OpenIds(db'))
  }

  lemma CommitOpensFollow(db: Db, k: Task)
    requires k.Stamped? && Disjoint(db) && MayCommit(db, k.s, k.down, k.act, k.begin, k.status)
    ensures OpensFollow(db, Commit(db, k.s, k.act, k.begin, k.status), k.act)
  {
    CommitOpens(db, k.s, k.down, k.act, k.begin, k.status);
  }

  lemma CommitOwes(cfg: Settings, st: State, t: nat, u: nat, id: nat)
    requires Can(cfg, st, CommitTask(t))
    ensures OwesResolve(Do(cfg, st, CommitTask(t)), u, id) <==>
      OwesResolve(st, u, id) || (u == t && st.tasks[t].act.Resolve? && st.tasks[t].act.id == id)
  {
  }

  lemma CommitKeepsResolveTasks(cfg: Settings, st: State, t: nat)
    requires OpenTasksOk(st) && ResolveTasksOk(st) && t in st.called && Can(cfg, st, CommitTask(t))
    requires OpensFollow(st.db, Do(cfg, st, CommitTask(t)).db, st.tasks[t].act)
    ensures ResolveTasksOk(Do(cfg, st, CommitTask(t)))
  {
    var st' := Do(cfg, st, CommitTask(t));
    var k := st.tasks[t];
    forall u, id
      ensures OwesResolve(st', u, id) <==> OwesResolve(st, u, id) || (u == t && k.act.Resolve? && k.act.id == id)
    {
      CommitOwes(cfg, st, t, u, id);
    }
    assert forall id :: !OwesResolve(st, t, id);
    assert k.act.Open? ==> k.act.id !in st.openedBy;
  }

  lemma CommitKeepsLocks(cfg: Settings, st: State, t: nat)
    requires LocksOk(st) && Can(cfg, st, CommitTask(t))
    ensures LocksOk(Do(cfg, st, CommitTask(t)))
  {
  }

  lemma CommitKeeps(cfg: Settings, st: State, t: nat)
    requires Inv(st) && Can(cfg, st, CommitTask(t))
    ensures Inv(Do(cfg, st, CommitTask(t)))
  {
    var k := st.tasks[t];
    CommitIsAtomic(cfg, st, t);
    CommitKeepsValid(st.db, k.s, k.down, k.act, k.begin, k.status);
    CommitKeepsLocks(cfg, st, t);
    CommitKeepsTasks(cfg, st, t);
    CommitKeepsCounters(cfg, st, t);
    CommitKeepsOpenTasks(cfg, st, t);
    CommitOpensFollow(st.db, k);
    CommitKeepsResolveTasks(cfg, st, t);
    assert TaskOk(st.db, st.now, k);
    CommitKeepsLog(cfg, st, t);
  }

  // ---- Leaving ----

  lemma FinishKeepsFollowUps(cfg: Settings, st: State, t: nat)
    requires OpenTasksOk(st) && ResolveTasksOk(st) && Can(cfg, st, Finish(t))
    ensures var st' := Do(cfg, st, Finish(t)); OpenTasksOk(st') && ResolveTasksOk(st')
  {
    var st' := Do(cfg, st, Finish(t));
    var k := st.tasks[t];
    assert k.act.Open? ==> OwesOpen(st, t, k.act.id);
    assert k.act.Resolve? ==> OwesResolve(st, t, k.act.id);
    assert forall u, id :: OwesOpen(st', u, id) <==> OwesOpen(st, u, id) && u != t;
    assert forall u, id :: OwesResolve(st', u, id) <==> OwesResolve(st, u, id) && u != t;
  }

  lemma FinishKeepsCounters(cfg: Settings, st: State, t: nat)
    requires CountersOk(st) && Can(cfg, st, Finish(t))
    ensures CountersOk(Do(cfg, st, Finish(t)))
  {
    LeavePending(st.tasks, t);
  }

  lemma FinishKeeps(cfg: Settings, st: State, t: nat)
    requires Inv(st) && Can(cfg, st, Finish(t))
    ensures Inv(Do(cfg, st, Finish(t)))
  {
    var st' := Do(cfg, st, Finish(t));
    LeaveKeepsLocks(st, t, st');
    LeaveKeepsTasks(st, t, st');
    FinishKeepsCounters(cfg, st, t);
    FinishKeepsFollowUps(cfg, st, t);
    SameLog(st, st');
  }

  lemma FailKeepsFollowUps(cfg: Settings, st: State, t: nat)
    requires OpenTasksOk(st) && ResolveTasksOk(st) && Can(cfg, st, Fail(t))
    ensures var st' := Do(cfg, st, Fail(t)); OpenTasksOk(st') && ResolveTasksOk(st')
  {
    var st' := Do(cfg, st, Fail(t));
    assert forall u, id :: OwesOpen(st', u, id) <==> OwesOpen(st, u, id);
    assert forall u, id :: OwesResolve(st', u, id) <==> OwesResolve(st, u, id);
    FollowUpsFrame(st, st');
  }

  lemma FailKeepsCounters(cfg: Settings, st: State, t: nat)
    requires CountersOk(st) && Can(cfg, st, Fail(t))
    ensures CountersOk(Do(cfg, st, Fail(t)))
  {
    LeavePending(st.tasks, t);
  }

  lemma FailKeeps(cfg: Settings, st: State, t: nat)
    requires Inv(st) && Can(cfg, st, Fail(t))
    ensures Inv(Do(cfg, st, Fail(t)))
  {
    var st' := Do(cfg, st, Fail(t));
    LeaveKeepsLocks(st, t, st');
    LeaveKeepsTasks(st, t, st');
    FailKeepsCounters(cfg, st, t);
    FailKeepsFollowUps(cfg, st, t);
    SameLog(st, st');
  }

  // ---- Everything else that writes the tables ----

  lemma OutsideKeepsTasks(st: State, st': State)
    requires TasksOk(st) && st'.tasks == st.tasks && st.now <= st'.now
    requires forall t :: t in st.tasks ==> SameFor(st.db, st'.db, st.tasks[t].s)
    requires st'.db.incidents.Keys <= st.db.incidents.Keys
    ensures TasksOk(st')
  {
    forall t | t in st'.tasks
      ensures TaskOk(st'.db, st'.now, st'.tasks[t])
    {
      assert TaskOk(st.db, st.now, st.tasks[t]);
      TaskFrame(st.db, st'.db, st.now, st'.now, st.tasks[t]);
    }
  }

  lemma UsedByTasks(st: State)
    requires TasksOk(st)
    ensures forall t :: t in st.tasks ==> st.tasks[t].s in st.db.used
  {
    assert forall t :: t in st.tasks ==> TaskOk(st.db, st.now, st.tasks[t]);
  }

  lemma OutsideKeepsFollowUps(st: State, st': State)
    requires OpenTasksOk(st) && ResolveTasksOk(st)
    requires st' == st.(db := st'.db, now := st'.now, log := st'.log)
    requires st'.db.incidents.Keys <= st.db.incidents.Keys && OpenIds(st'.db) <= OpenIds(st.db)
    requires st'.db.nextId == st.db.nextId
    ensures OpenTasksOk(st') && ResolveTasksOk(st')
  {
    assert forall u, id :: OwesOpen(st', u, id) <==> OwesOpen(st, u, id);
    assert forall u, id :: OwesResolve(st', u, id) <==> OwesResolve(st, u, id);
    FollowUpsFrame(st, st');
  }

  lemma OutsideKeeps(st: State, st': State)
    requires Inv(st) && Valid(st'.db) && Dated(st'.db, st'.now) && LogOk(st')
    requires st' == st.(db := st'.db, now := st'.now, log := st'.log) && st.now <= st'.now
    requires forall t :: t in st.tasks ==> SameFor(st.db, st'.db, st.tasks[t].s)
    requires st'.db.incidents.Keys <= st.db.incidents.Keys && OpenIds(st'.db) <= OpenIds(st.db)
    requires st'.db.nextId == st.db.nextId
    requires st'.db.tally.opens == st.db.tally.opens && st'.db.tally.resolves == st.db.tally.resolves
    ensures Inv(st')
  {
    OutsideKeepsTasks(st, st');
    OutsideKeepsFollowUps(st, st');
    assert LocksOk(st');
  }

  lemma AddServiceSame(db: Db, s: string, at: int)
    requires Valid(db) && s !in db.used
    ensures forall x :: x in db.used ==> SameFor(db, CreateService(db, s, at), x)
    ensures OpenIds(CreateService(db, s, at)) == OpenIds(db)
  {
    var db' := CreateService(db, s, at);
    forall x | x in db.used
      ensures SameFor(db, db', x)
    {
      assert OpenOf(db', x) == OpenOf(db, x);
    }
    assert OpenIds(db') == OpenIds(db);
  }

  lemma AddServiceKeeps(cfg: Settings, st: State, s: string)
    requires Inv(st) && Can(cfg, st, AddService(s))
    ensures Inv(Do(cfg, st, AddService(s)))
  {
    var st' := Do(cfg, st, AddService(s));
    CreateKeepsValid(st.db, s, st.now);
    AddServiceSame(st.db, s, st.now);
    UsedByTasks(st);
    AddServiceKeepsLog(cfg, st, s);
    OutsideKeeps(st, st');
  }

  lemma AddServiceKeepsLog(cfg: Settings, st: State, s: string)
    requires LogOk(st) && Can(cfg, st, AddService(s))
    ensures LogOk(Do(cfg, st, AddService(s)))
  {
  }

  lemma DropServiceSame(db: Db, s: string)
    requires Valid(db)
    ensures forall x :: x in db.used ==> SameFor(db, DeleteService(db, s), x)
    ensures OpenIds(DeleteService(db, s)) <= OpenIds(db)
  {
    DeleteKeepsOpen(db, s);
  }

  lemma DropServiceKeeps(cfg: Settings, st: State, s: string)
    requires Inv(st) && Can(cfg, st, DropService(s))
    ensures Inv(Do(cfg, st, DropService(s)))
  {
    var st' := Do(cfg, st, DropService(s));
    DeleteKeepsValid(st.db, s);
    DropServiceSame(st.db, s);
    UsedByTasks(st);
    DropServiceKeepsLog(cfg, st, s);
    OutsideKeeps(st, st');
  }

  lemma DropServiceKeepsLog(cfg: Settings, st: State, s: string)
    requires LogOk(st) && Can(cfg, st, DropService(s))
    ensures LogOk(Do(cfg, st, DropService(s)))
  {
  }

  lemma AddRowKeeps(cfg: Settings, st: State, row: CheckResult)
    requires Inv(st) && Can(cfg, st, AddRow(row))
    ensures Inv(Do(cfg, st, AddRow(row)))
  {
    var st' := Do(cfg, st, AddRow(row));
    InsertKeepsValid(st.db, row);
    AddRowSame(st.db, row);
    UsedByTasks(st);
    SameLog(st, st');
    OutsideKeeps(st, st');
  }

  lemma AddRowSame(db: Db, row: CheckResult)
    requires Valid(db)
    ensures forall s :: s in db.used ==> SameFor(db, Insert(db, row), s)
    ensures OpenIds(Insert(db, row)) == OpenIds(db)
  {
    forall s ensures OpenOf(Insert(db, row), s) == OpenOf(db, s) {}
    assert OpenIds(Insert(db, row)) == OpenIds(db);
  }

  lemma DescribeSame(db: Db, id: nat, summary: Option<string>, sent: bool)
    requires Valid(db)
    ensures forall s :: s in db.used ==> SameFor(db, Annotate(db, id, summary, sent), s)
    ensures OpenIds(Annotate(db, id, summary, sent)) == OpenIds(db)
  {
    AnnotateKeepsValid(db, id, summary, sent);
  }

  lemma DescribeKeeps(cfg: Settings, st: State, id: nat, summary: Option<string>, sent: bool)
    requires Inv(st) && Can(cfg, st, Describe(id, summary, sent))
    ensures Inv(Do(cfg, st, Describe(id, summary, sent)))
  {
    var st' := Do(cfg, st, Describe(id, summary, sent));
    AnnotateKeepsValid(st.db, id, summary, sent);
    DescribeSame(st.db, id, summary, sent);
    UsedByTasks(st);
    SameLog(st, st');
    OutsideKeeps(st, st');
  }

  lemma TickKeeps(cfg: Settings, st: State, later: int)
    requires Inv(st) && Can(cfg, st, Tick(later))
    ensures Inv(Do(cfg, st, Tick(later)))
  {
    var st' := Do(cfg, st, Tick(later));
    assert forall t :: t in st.tasks ==> SameFor(st.db, st'.db, st.tasks[t].s);
    assert LogOk(st');
    OutsideKeeps(st, st');
  }

  // ---- Over whole runs ----

  lemma StepKeeps(cfg: Settings, st: State, step: Step)
    requires Inv(st) && Can(cfg, st, step)
    ensures Inv(Do(cfg, st, step))
  {
    match step
    case Call(t, s) => CallKeeps(cfg, st, t, s);
    case Acquire(t) => AcquireKeeps(cfg, st, t);
    case Measure(t) => MeasureKeeps(cfg, st, t);
    case Judge(t) => JudgeKeeps(cfg, st, t);
    case Look(t) => LookKeeps(cfg, st, t);
    case Flush(t) => FlushKeeps(cfg, st, t);
    case StampStatus(t, checked) => StampKeeps(cfg, st, t, checked);
    case CommitTask(t) => CommitKeeps(cfg, st, t);
    case Finish(t) => FinishKeeps(cfg, st, t);
    case Fail(t) => FailKeeps(cfg, st, t);
    case AddService(s) => AddServiceKeeps(cfg, st, s);
    case DropService(s) => DropServiceKeeps(cfg, st, s);
    case AddRow(row) => AddRowKeeps(cfg, st, row);
    case Describe(id, summary, sent) => DescribeKeeps(cfg, st, id, summary, sent);
    case Tick(later) => TickKeeps(cfg, st, later);
  }

  lemma {:induction false} EveryRunKeepsInv(cfg: Settings, st: State, steps: seq<Step>, end: State)
    requires Inv(st) && Reaches(cfg, st, steps, end)
    ensures Inv(end)
    decreases |steps|
  {
    if steps != [] {
      StepKeeps(cfg, st, steps[0]);
      EveryRunKeepsInv(cfg, Do(cfg, st, steps[0]), steps[1..], end);
    }
  }

  lemma InitInv(now: int)
    ensures Inv(Init(now))
  {
    var st := Init(now);
    assert OpenIds(st.db) == {} && PendingOpens(st.tasks) == {} && PendingResolves(st.tasks) == {};
  }

  // ---- What that says of every reachable state ----

  /** At most one incident of a service is open, so the query that must return
      at most one row never raises: every task that gets to it can go on. */
  lemma NeverTwoOpen(cfg: Settings, now: int, steps: seq<Step>, end: State)
    requires Reaches(cfg, Init(now), steps, end)
    ensures forall s :: |OpenOf(end.db, s)| <= 1
    ensures forall t :: t in end.tasks && end.tasks[t].Judged? ==> Can(cfg, end, Look(t))
  {
    InitInv(now);
    EveryRunKeepsInv(cfg, Init(now), steps, end);
    forall s ensures |OpenOf(end.db, s)| <= 1 {
      AtMostOneOpen(end.db, s);
    }
  }

  /** A service is shown down exactly when it has an open incident. */
  lemma StatusAgreesWithIncidents(cfg: Settings, now: int, steps: seq<Step>, end: State, s: string)
    requires Reaches(cfg, Init(now), steps, end) && s in end.db.services
    ensures s in end.db.status
    ensures end.db.status[s].current == "down" <==>
      exists id :: id in end.db.incidents
        && end.db.incidents[id].service == s && end.db.incidents[id].resolvedAt == None
  {
    InitInv(now);
    EveryRunKeepsInv(cfg, Init(now), steps, end);
    OpenOfMeans(end.db, s);
  }

  lemma OpenOfMeans(db: Db, s: string)
    ensures OpenOf(db, s) != {} <==>
      exists id :: id in db.incidents && db.incidents[id].service == s && db.incidents[id].resolvedAt == None
  {
    if OpenOf(db, s) != {} {
      var id :| id in OpenOf(db, s);
    } else if id :| id in db.incidents && db.incidents[id].service == s && db.incidents[id].resolvedAt == None {
      assert id in OpenOf(db, s);
    }
  }

  /** The incidents of a service are successive, non-overlapping intervals of
      the past, and only the last can be open. */
  lemma IncidentsAreSuccessive(cfg: Settings, now: int, steps: seq<Step>, end: State, i: nat, j: nat)
    requires Reaches(cfg, Init(now), steps, end)
    requires i in end.db.incidents && j in end.db.incidents && i != j
    requires end.db.incidents[i].service == end.db.incidents[j].service
    ensures var a, b := end.db.incidents[if i < j then i else j], end.db.incidents[if i < j then j else i];
      && a.resolvedAt.Some?
      && a.startedAt <= a.resolvedAt.value <= b.startedAt <= end.now
      && (b.resolvedAt.Some? ==> b.startedAt <= b.resolvedAt.value <= end.now)
  {
    InitInv(now);
    EveryRunKeepsInv(cfg, Init(now), steps, end);
    var a, b := if i < j then i else j, if i < j then j else i;
    assert Before(end.db.incidents[a], end.db.incidents[b]);
    assert SpanOk(end.db.incidents[a], end.db.status[end.db.incidents[a].service].lastChecked);
    assert SpanOk(end.db.incidents[b], end.db.status[end.db.incidents[b].service].lastChecked);
  }

  /** The two counters differ by the open incidents, plus what they count and
      the tables do not show: incidents deleted while open, and changes not yet
      committed or given up. */
  lemma CountersAccountForEveryIncident(cfg: Settings, now: int, steps: seq<Step>, end: State)
    requires Reaches(cfg, Init(now), steps, end)
    ensures end.opensCounted - end.resolvesCounted ==
      |OpenIds(end.db)| + end.db.tally.openDeleted
      + end.abortedOpens + |PendingOpens(end.tasks)| - end.abortedResolves - |PendingResolves(end.tasks)|
    ensures end.abortedOpens == end.abortedResolves == end.db.tally.openDeleted == 0 && end.tasks == map[] ==>
      end.opensCounted - end.resolvesCounted == |OpenIds(end.db)|
  {
    InitInv(now);
    EveryRunKeepsInv(cfg, Init(now), steps, end);
    if end.tasks == map[] {
      assert PendingOpens(end.tasks) == {} && PendingResolves(end.tasks) == {};
    }
  }

  /** When no task is left unfinished, the follow-up tasks started are exactly
      those of the committed openings and resolutions; and each `Finish` starts
      one that was not started before. */
  lemma OneFollowUpPerCommit(cfg: Settings, now: int, steps: seq<Step>, end: State)
    requires Reaches(cfg, Init(now), steps, end)
    ensures end.tasks == map[] ==>
      end.openTasks == end.openedBy.Keys && end.resolveTasks == end.resolvedBy.Keys
    ensures forall t, id :: OwesOpen(end, t, id) ==> id in end.openedBy && id !in end.openTasks
    ensures forall t, id :: OwesResolve(end, t, id) ==> id in end.resolvedBy && id !in end.resolveTasks
    ensures end.openTasks <= end.openedBy.Keys && end.resolveTasks <= end.resolvedBy.Keys
    ensures end.db.incidents.Keys <= end.openedBy.Keys
  {
    InitInv(now);
    EveryRunKeepsInv(cfg, Init(now), steps, end);
    if end.tasks == map[] {
      assert forall t, id :: !OwesOpen(end, t, id) && !OwesResolve(end, t, id);
    }
  }

  /** `since` is when the current word was first said without a break since, in
      the order of the committed evaluations. */
  lemma SinceIsTheLastChange(cfg: Settings, now: int, steps: seq<Step>, end: State, s: string) returns (i: nat)
    requires Reaches(cfg, Init(now), steps, end) && s in end.db.services
    ensures s in end.db.status && s in end.log && i < |end.log[s]|
    ensures end.db.status[s].since == end.log[s][i].at <= end.db.status[s].lastChecked <= end.now
    ensures forall j :: i <= j < |end.log[s]| ==> end.log[s][j].word == end.db.status[s].current
    ensures i > 0 ==> end.log[s][i - 1].word != end.db.status[s].current
  {
    InitInv(now);
    EveryRunKeepsInv(cfg, Init(now), steps, end);
    i := StartOfFinalRun(end.log[s]);
  }

  lemma {:induction false} StartOfFinalRun(log: seq<Entry>) returns (i: nat)
    requires log != []
    ensures i < |log| && WordSince(log) == log[i].at
    ensures forall j :: i <= j < |log| ==> log[j].word == log[|log| - 1].word
    ensures i > 0 ==> log[i - 1].word != log[|log| - 1].word
  {
    var n := |log|;
    if n > 1 && log[n - 2].word == log[n - 1].word {
      i := StartOfFinalRun(log[..n - 1]);
    } else {
      i := n - 1;
    }
  }

  // ---- What no run takes back ----

  /** The services deleted on the way. */
  function Dropped(steps: seq<Step>): set<string> {
    if steps == [] then {}
    else (if steps[0].DropService? then {steps[0].s} else {}) + Dropped(steps[1..])
  }

  lemma CommitTaskKeepsHistory(cfg: Settings, st: State, t: nat)
    requires Inv(st) && Can(cfg, st, CommitTask(t))
    ensures Keeps(st.db, Do(cfg, st, CommitTask(t)).db, {})
  {
    var k := st.tasks[t];
    CommitIsAtomic(cfg, st, t);
    Database.CommitKeeps(st.db, k.s, k.down, k.act, k.begin, k.status);
  }

  /** What the other steps do to the tables. */
  lemma OtherStepsOnTables(cfg: Settings, st: State, step: Step)
    requires Can(cfg, st, step) && !step.CommitTask?
    ensures Do(cfg, st, step).db.rows ==
      match step
      case AddRow(row) => st.db.rows + [row]
      case DropService(s) => RowsExcept(st.db.rows, s)
      case _ => st.db.rows
    ensures Do(cfg, st, step).db.incidents ==
      match step
      case DropService(s) => DeleteService(st.db, s).incidents
      case Describe(id, summary, sent) => Annotate(st.db, id, summary, sent).incidents
      case _ => st.db.incidents
  {
  }

  lemma StepKeepsHistory(cfg: Settings, st: State, step: Step)
    requires Inv(st) && Can(cfg, st, step)
    ensures Keeps(st.db, Do(cfg, st, step).db, if step.DropService? then {step.s} else {})
  {
    if step.CommitTask? {
      CommitTaskKeepsHistory(cfg, st, step.t);
    } else {
      OtherStepsKeepHistory(cfg, st, step);
    }
  }

  lemma OtherStepsKeepHistory(cfg: Settings, st: State, step: Step)
    requires Can(cfg, st, step) && !step.CommitTask?
    ensures Keeps(st.db, Do(cfg, st, step).db, if step.DropService? then {step.s} else {})
  {
    OtherStepsOnTables(cfg, st, step);
    var db := Do(cfg, st, step).db;
    if step.AddRow? {
      InsertionKeeps(st.db, step.row);
      KeepsFrame(st.db, Insert(st.db, step.row), db, {});
    } else if step.DropService? {
      DeletionKeeps(st.db, step.s);
      KeepsFrame(st.db, DeleteService(st.db, step.s), db, {step.s});
    } else if step.Describe? {
      AnnotationKeeps(st.db, step.id, step.summary, step.sent);
      KeepsFrame(st.db, Annotate(st.db, step.id, step.summary, step.sent), db, {});
    } else {
      KeepsFrame(st.db, st.db, db, {});
    }
  }

  /** Over any run an incident once committed stays, with its service and its
      start, and once resolved with its end, and a check result once stored stays
      as it is, until their own service is deleted. */
  lemma {:induction false} HistoryStays(cfg: Settings, st: State, steps: seq<Step>, end: State)
    requires Inv(st) && Reaches(cfg, st, steps, end)
    ensures Keeps(st.db, end.db, Dropped(steps))
    decreases |steps|
  {
    if steps != [] {
      StepKeepsHistory(cfg, st, steps[0]);
      StepKeeps(cfg, st, steps[0]);
      HistoryStays(cfg, Do(cfg, st, steps[0]), steps[1..], end);
      KeepsInTurn(st.db, Do(cfg, st, steps[0]).db, end.db,
                  if steps[0].DropService? then {steps[0].s} else {}, Dropped(steps[1..]));
    }
  }

  /** The word of a service that was never evaluated is "unknown", and every
      evaluation says "up" or "down". */
  ghost predicate WordsOk(st: State) {
    forall s :: s in st.db.services ==>
      && s in st.log && st.log[s] != [] && st.log[s][0].word == "unknown"
      && forall i :: 0 < i < |st.log[s]| ==> st.log[s][i].word == "up" || st.log[s][i].word == "down"
  }

  lemma StepKeepsWords(cfg: Settings, st: State, step: Step)
    requires WordsOk(st) && TasksOk(st) && Can(cfg, st, step)
    ensures WordsOk(Do(cfg, st, step))
  {
    LogAfter(cfg, st, step);
    if step.CommitTask? {
      assert TaskOk(st.db, st.now, st.tasks[step.t]);
    }
  }

  lemma LogAfter(cfg: Settings, st: State, step: Step)
    requires Can(cfg, st, step)
    ensures Do(cfg, st, step).db.services ==
      match step
      case AddService(s) => st.db.services + {s}
      case DropService(s) => st.db.services - {s}
      case _ => st.db.services
    ensures Do(cfg, st, step).log ==
      match step
      case AddService(s) => st.log[s := [Entry("unknown", st.now)]]
      case CommitTask(t) =>
        var k := st.tasks[t];
        st.log[k.s := LogOf(st, k.s) + [Entry(k.status.current, k.at)]]
      case _ => st.log
  {
  }

  lemma {:induction false} EveryRunKeepsWords(cfg: Settings, st: State, steps: seq<Step>, end: State)
    requires Inv(st) && WordsOk(st) && Reaches(cfg, st, steps, end)
    ensures WordsOk(end)
    decreases |steps|
  {
    if steps != [] {
      StepKeepsWords(cfg, st, steps[0]);
      StepKeeps(cfg, st, steps[0]);
      EveryRunKeepsWords(cfg, Do(cfg, st, steps[0]), steps[1..], end);
    }
  }

  /** A service is shown "unknown" exactly until its first committed evaluation,
      and "up" or "down" from then on. */
  lemma UnknownUntilEvaluated(cfg: Settings, now: int, steps: seq<Step>, end: State, s: string)
    requires Reaches(cfg, Init(now), steps, end) && s in end.db.services
    ensures s in end.db.status && s in end.log
    ensures end.db.status[s].current == "unknown" <==> |end.log[s]| == 1
    ensures end.db.status[s].current in {"unknown", "up", "down"}
  {
    InitInv(now);
    EveryRunKeepsInv(cfg, Init(now), steps, end);
    EveryRunKeepsWords(cfg, Init(now), steps, end);
    WordOfLog(end, s);
  }

  lemma WordOfLog(st: State, s: string)
    requires LogOk(st) && WordsOk(st) && s in st.db.services
    ensures s in st.db.status && s in st.log
    ensures st.db.status[s].current == "unknown" <==> |st.log[s]| == 1
    ensures st.db.status[s].current in {"unknown", "up", "down"}
  {
    var n := |st.log[s]|;
    assert n > 1 ==> st.log[s][n - 1].word == "up" || st.log[s][n - 1].word == "down";
  }

  // ---- A task that is not interrupted ----

  lemma {:induction false} Continue(cfg: Settings, st: State, first: seq<Step>, mid: State, second: seq<Step>,
                                   end: State)
    requires Reaches(cfg, st, first, mid) && Reaches(cfg, mid, second, end)
    ensures Reaches(cfg, st, first + second, end)
    decreases |first|
  {
    if first == [] {
      assert first + second == second;
    } else {
      Continue(cfg, Do(cfg, st, first[0]), first[1..], mid, second, end);
      assert (first + second)[1..] == first[1..] + second;
    }
  }

  /** The clock moves on, and then the step is taken. */
  lemma At(cfg: Settings, st: State, before: seq<Step>, mid: State, later: int, step: Step) returns (steps: seq<Step>)
    requires Reaches(cfg, st, before, mid)
    requires mid.now <= later && Can(cfg, mid.(now := later), step)
    ensures Reaches(cfg, st, steps, Do(cfg, mid.(now := later), step))
  {
    var end := Do(cfg, mid.(now := later), step);
    assert Reaches(cfg, end, [], end);
    assert [step][1..] == [] && [Tick(later), step][1..] == [step];
    assert Reaches(cfg, mid.(now := later), [step], end);
    assert Do(cfg, mid, Tick(later)) == mid.(now := later);
    Continue(cfg, st, before, mid, [Tick(later), step], end);
    steps := before + [Tick(later), step];
  }

  /** Up to the query for the open incident, when the window holds a row and at
      most one incident is open. */
  lemma FirstHalf(cfg: Settings, st: State, t: nat, r: Readings) returns (steps: seq<Step>, looked: State)
    requires Can(cfg, st, Acquire(t)) && Ordered(r) && st.now <= r.window
    requires |OpenOf(st.db, st.tasks[t].s)| <= 1 && Total(st.db.rows, st.tasks[t].s, r.window - cfg.window) > 0
    ensures Reaches(cfg, st, steps, looked)
    ensures looked.db == st.db && looked.now == r.begin && t in looked.tasks
    ensures var s := st.tasks[t].s;
      looked.tasks[t] == Looked(s, r.begin, Verdict(cfg, st.db.rows, s, r.window - cfg.window), Found(st.db, s))
  {
    var locked := Do(cfg, st.(now := r.window), Acquire(t));
    steps := At(cfg, st, [], st, r.window, Acquire(t));
    var measured := Do(cfg, locked.(now := r.begin), Measure(t));
    steps := At(cfg, st, steps, locked, r.begin, Measure(t));
    var judged := Do(cfg, measured.(now := r.begin), Judge(t));
    steps := At(cfg, st, steps, measured, r.begin, Judge(t));
    looked := Do(cfg, judged.(now := r.begin), Look(t));
    steps := At(cfg, st, steps, judged, r.begin, Look(t));
  }

  /** From there to the end. */
  lemma SecondHalf(cfg: Settings, st: State, t: nat, r: Readings) returns (steps: seq<Step>, end: State)
    requires t in st.tasks && st.tasks[t].Looked? && st.tasks[t].s in st.db.services
    requires Ordered(r) && st.now <= r.resolve
    ensures Reaches(cfg, st, steps, end) && t !in end.tasks && st.tasks[t].s !in end.holder
    ensures var k := st.tasks[t];
      end.db == Commit(st.db, k.s, Choose(k.down, k.found, st.db.nextId, r.resolve), k.begin,
                       Stamp(StatusOf(st.db, k.s), k.down, r.since, r.checked))
  {
    var flushed := Do(cfg, st.(now := r.resolve), Flush(t));
    steps := At(cfg, st, [], st, r.resolve, Flush(t));
    var stamped := Do(cfg, flushed.(now := r.since), StampStatus(t, r.checked));
    steps := At(cfg, st, steps, flushed, r.since, StampStatus(t, r.checked));
    var committed := Do(cfg, stamped.(now := r.checked), CommitTask(t));
    steps := At(cfg, st, steps, stamped, r.checked, CommitTask(t));
    end := Do(cfg, committed.(now := r.checked), Finish(t));
    steps := At(cfg, st, steps, committed, r.checked, Finish(t));
  }

  /** With no row in the window the task leaves after the first count. */
  lemma EmptyWindow(cfg: Settings, st: State, t: nat, r: Readings) returns (steps: seq<Step>, end: State)
    requires Can(cfg, st, Acquire(t)) && Ordered(r) && st.now <= r.window
    requires Total(st.db.rows, st.tasks[t].s, r.window - cfg.window) == 0
    ensures Reaches(cfg, st, steps, end) && t !in end.tasks && st.tasks[t].s !in end.holder && end.db == st.db
  {
    var locked := Do(cfg, st.(now := r.window), Acquire(t));
    steps := At(cfg, st, [], st, r.window, Acquire(t));
    end := Do(cfg, locked.(now := r.begin), Measure(t));
    steps := At(cfg, st, steps, locked, r.begin, Measure(t));
  }

  /** A waiting task whose lock is free can run through at any readings of the
      clock from now on, is then over with its lock free again, and has done to
      the tables what `Quorum.Evaluate` says. */
  lemma UninterruptedTaskEvaluates(cfg: Settings, st: State, t: nat, r: Readings) returns (steps: seq<Step>, end: State)
    requires RowsOk(st.db) && Disjoint(st.db)
    requires Can(cfg, st, Acquire(t)) && Ordered(r) && st.now <= r.window
    ensures Reaches(cfg, st, steps, end) && t !in end.tasks && st.tasks[t].s !in end.holder
    ensures end.db == Evaluate(cfg, st.db, st.tasks[t].s, r)
  {
    var s := st.tasks[t].s;
    AtMostOneOpen(st.db, s);
    if Total(st.db.rows, s, r.window - cfg.window) == 0 {
      steps, end := EmptyWindow(cfg, st, t, r);
    } else {
      SomeRowIsCounted(st.db.rows, s, r.window - cfg.window);
      var first, looked := FirstHalf(cfg, st, t, r);
      var second;
      second, end := SecondHalf(cfg, looked, t, r);
      Continue(cfg, st, first, looked, second, end);
      steps := first + second;
    }
  }

  /** A task whose service is deleted while it runs cannot commit; it fails and
      changes nothing, and `Quorum.Evaluate` changes nothing either. */
  lemma TaskOfDeletedServiceFails(cfg: Settings, st: State, t: nat, r: Readings)
    requires t in st.tasks && st.tasks[t].s !in st.db.services && !st.tasks[t].Committed?
    ensures !Can(cfg, st, CommitTask(t)) && Can(cfg, st, Fail(t))
    ensures Do(cfg, st, Fail(t)).db == st.db == Evaluate(cfg, st.db, st.tasks[t].s, r)
  {
  }
}
