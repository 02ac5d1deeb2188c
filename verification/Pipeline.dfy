/** The whole delivery protocol: scheduler, task stream, checker processes,
    result stream, consumer and tables, with crashes, claims, duplicates and
    service deletion in any interleaving. */
module Pipeline {
  import opened Wrappers
  import opened Keys
  import opened Codec
  import opened Database
  import opened Streams
  import Quorum
  import Scheduler
  import Votes
  import Json
  import Probe
  import Worker

  datatype Config = Config(quorum: Quorum.Settings, iso: Iso, concurrency: nat)

  /** How far the consumer is with the entry at the head of its batch: not begun,
      its row committed, or only its acknowledgement left. */
  datatype Stage = Fresh | Stored | Settled

  /** When a task was published, and the arguments of the job. */
  datatype Publication = Publication(at: int, kwargs: Scheduler.Service)

  /** Where a result comes from: its task, the node that handled it, the time of
      the report, and how the attempt that was reported ended. */
  datatype Source = Source(task: nat, node: string, at: int, outcome: Probe.Outcome)

  /** `ingested` is the `checks_ingested` counter.  The last three fields are
      history: the publication of each task, the source of each result, and the
      source of the result that brought each key into the table. */
  datatype World = World(
    now: int,
    tasks: Stream<Wire>,
    results: Stream<Wire>,
    nodes: map<nat, Worker.Node>,
    batch: seq<nat>,
    stage: Stage,
    db: Db,
    ingested: nat,
    published: seq<Publication>,
    sources: seq<Source>,
    origin: map<string, Source>)

  function Init(now: int): World {
    World(now, New(), New(), map[], [], Fresh, EMPTY, 0, [], [], map[])
  }

  datatype Step =
    | CreateSvc(s: string)
    | DeleteSvc(s: string)
    | PublishTask(kwargs: Scheduler.Service)
    | StartNode(p: nat, name: string)
    | ReadTasks(p: nat, n: nat)
    | EnterSemaphore(p: nat, id: nat)
    | DropUnparseable(p: nat, id: nat)
    | Report(p: nat, id: nat, outcome: Probe.Outcome, at: int)
    | AckTask(p: nat, id: nat)
    | Raise(p: nat, id: nat)
    | Signal(p: nat)
    | LeaveLoop(p: nat)
    | StopNode(p: nat)
    | CrashNode(p: nat)
    | ClaimTasks(p: nat, ids: set<nat>)
    | Duplicate(r: nat)
    | ReadResults(n: nat)
    | SkipUnparseable
    | InsertRow
    | RefuseRow
    | InsertFails
    | Detect(readings: Quorum.Readings)
    | DetectorFails
    | AckResult
    | DropBatch
    | Tick(later: int)

  ghost predicate HasNode(w: World, p: nat, mode: Worker.Mode) {
    p in w.nodes && w.nodes[p].mode == mode
  }

  /** Handler `id` of process `p` is in the given phase. */
  ghost predicate Runs(w: World, p: nat, id: nat, phase: Worker.Phase) {
    p in w.nodes && Worker.IsIn(w.nodes[p], id, phase) && id < |w.tasks.entries|
  }

  ghost predicate HeadIn(w: World, stage: Stage) {
    w.batch != [] && w.stage == stage && w.batch[0] < |w.results.entries|
  }

  function Task(w: World, id: nat): Option<CheckTask>
    requires id < |w.tasks.entries|
  {
    ParseTask(w.tasks.entries[id])
  }

  function Result(cfg: Config, w: World, id: nat): Option<CheckResult>
    requires id < |w.results.entries|
  {
    ParseResult(cfg.iso, w.results.entries[id])
  }

  ghost predicate Can(cfg: Config, w: World, step: Step) {
    match step
    case CreateSvc(s) => s !in w.db.used && PlainId(s)
    case DeleteSvc(s) => true
    // A job may outlive its service by up to a minute.
    case PublishTask(kwargs) =>
      kwargs.id in w.db.used && Json.IsDict(kwargs.headers) && kwargs.intervalSecs > 0
    case StartNode(p, name) => p !in w.nodes
    case ReadTasks(p, n) => HasNode(w, p, Worker.Looping) && w.tasks.cursor + n <= |w.tasks.entries|
    case EnterSemaphore(p, id) => Runs(w, p, id, Worker.Queued) && w.nodes[p].permits > 0
    case DropUnparseable(p, id) => Runs(w, p, id, Worker.Probing) && Task(w, id) == None
    case Report(p, id, outcome, at) =>
      && Runs(w, p, id, Worker.Probing) && Task(w, id).Some?
      && (outcome.Response? ==> Json.IsDict(outcome.headers))
    case AckTask(p, id) => Runs(w, p, id, Worker.Reported)
    case Raise(p, id) => p in w.nodes && Worker.Alive(w.nodes[p]) && id in w.nodes[p].handlers
    case Signal(p) => p in w.nodes
    case LeaveLoop(p) => HasNode(w, p, Worker.Looping) && w.nodes[p].shutdown
    case StopNode(p) => HasNode(w, p, Worker.Draining) && w.nodes[p].handlers == map[]
    case CrashNode(p) => p in w.nodes && Worker.Alive(w.nodes[p])
    case ClaimTasks(p, ids) => p in w.nodes
    case Duplicate(r) => r < |w.results.entries|
    case ReadResults(n) => w.batch == [] && w.results.cursor + n <= |w.results.entries|
    case SkipUnparseable => HeadIn(w, Fresh) && Result(cfg, w, w.batch[0]) == None
    case InsertRow => HeadIn(w, Fresh) && Result(cfg, w, w.batch[0]).Some?
                      && !Conflicts(w.db, Result(cfg, w, w.batch[0]).value)
    case RefuseRow => HeadIn(w, Fresh) && Result(cfg, w, w.batch[0]).Some?
                      && Conflicts(w.db, Result(cfg, w, w.batch[0]).value)
    case InsertFails => HeadIn(w, Fresh) && Result(cfg, w, w.batch[0]).Some?
    case Detect(r) => HeadIn(w, Stored) && Result(cfg, w, w.batch[0]).Some?
                      && Quorum.Ordered(r) && w.now <= r.window
    case DetectorFails => HeadIn(w, Stored)
    case AckResult => HeadIn(w, Settled)
    case DropBatch => true
    case Tick(later) => w.now <= later
  }

  const NOBODY := Source(0, "", 0, Probe.ConnectError(""))

  function SourceOf(w: World, r: nat): Source {
    if r < |w.sources| then w.sources[r] else NOBODY
  }

  /** The entry a handler publishes for its task. */
  function Payload(cfg: Config, node: string, task: CheckTask, outcome: Probe.Outcome, at: int): Wire {
    EncodeResult(cfg.iso, task.service, node, at, task.round, Probe.Record(task.expectedStatus, outcome))
  }

  ghost function Do(cfg: Config, w: World, step: Step): World
    requires Can(cfg, w, step)
  {
    match step
    case CreateSvc(s) => w.(db := CreateService(w.db, s, w.now))
    case DeleteSvc(s) => w.(db := DeleteService(w.db, s))
    case PublishTask(kwargs) =>
      w.(tasks := Add(w.tasks, EncodeTask(Scheduler.Enqueue(kwargs, w.now))),
         published := w.published + [Publication(w.now, kwargs)])
    case StartNode(p, name) => w.(nodes := w.nodes[p := Worker.Start(name, cfg.concurrency)])
    case ReadTasks(p, n) =>
      w.(tasks := Deliver(w.tasks, n, w.nodes[p].name),
         nodes := w.nodes[p := Worker.Read(w.nodes[p], Span(w.tasks.cursor, n))])
    case EnterSemaphore(p, id) => w.(nodes := w.nodes[p := Worker.Enter(w.nodes[p], id)])
    case DropUnparseable(p, id) =>
      w.(tasks := Ack(w.tasks, id), nodes := w.nodes[p := Worker.Leave(w.nodes[p], id, false)])
    case Report(p, id, outcome, at) =>
      w.(results := Add(w.results, Payload(cfg, w.nodes[p].name, Task(w, id).value, outcome, at)),
         nodes := w.nodes[p := Worker.Publish(w.nodes[p], id)],
         sources := w.sources + [Source(id, w.nodes[p].name, at, outcome)])
    case AckTask(p, id) =>
      w.(tasks := Ack(w.tasks, id), nodes := w.nodes[p := Worker.Leave(w.nodes[p], id, false)])
    case Raise(p, id) => w.(nodes := w.nodes[p := Worker.Leave(w.nodes[p], id, true)])
    case Signal(p) => w.(nodes := w.nodes[p := Worker.Signal(w.nodes[p])])
    case LeaveLoop(p) => w.(nodes := w.nodes[p := Worker.LeaveLoop(w.nodes[p])])
    case StopNode(p) => w.(nodes := w.nodes[p := Worker.Stop(w.nodes[p])])
    case CrashNode(p) => w.(nodes := w.nodes[p := Worker.Crash(w.nodes[p], cfg.concurrency)])
    // The claimed entries are counted for the log and not looked at again.
    case ClaimTasks(p, ids) => w.(tasks := Claim(w.tasks, ids, w.nodes[p].name))
    case Duplicate(r) => w.(results := Add(w.results, w.results.entries[r]), sources := w.sources + [SourceOf(w, r)])
    case ReadResults(n) =>
      w.(results := Deliver(w.results, n, "coordinator-0"),
         batch := seq(n, i requires 0 <= i < n => w.results.cursor + i), stage := Fresh)
    case SkipUnparseable => Next(w.(results := Ack(w.results, w.batch[0])))
    case InsertRow =>
      var row := Result(cfg, w, w.batch[0]).value;
      w.(db := Insert(w.db, row), stage := Stored, origin := w.origin[row.key := SourceOf(w, w.batch[0])])
    case RefuseRow => w.(stage := Settled)
    case InsertFails => Next(w)
    case Detect(r) =>
      w.(db := Quorum.Evaluate(cfg.quorum, w.db, Result(cfg, w, w.batch[0]).value.service, r),
         stage := Settled, now := r.checked, ingested := w.ingested + 1)
    case DetectorFails => w.(stage := Settled, ingested := w.ingested + 1)
    case AckResult => Next(w.(results := Ack(w.results, w.batch[0])))
    // The coordinator dies, or an exception ends the loop over the batch.
    case DropBatch => w.(batch := [], stage := Fresh)
    case Tick(later) => w.(now := later)
  }

  function Next(w: World): World
    requires w.batch != []
  {
    w.(batch := w.batch[1..], stage := Fresh)
  }

  ghost predicate Reaches(cfg: Config, w: World, steps: seq<Step>, end: World)
    decreases |steps|
  {
    if steps == [] then end == w
    else Can(cfg, w, steps[0]) && Reaches(cfg, Do(cfg, w, steps[0]), steps[1..], end)
  }

  // ---- The invariant ----

  ghost predicate StreamsOk(w: World) {
    Streams.Valid(w.tasks) && Streams.Valid(w.results)
  }

  /** A task entry its reader can parse, for a service that was created. */
  ghost predicate GoodTask(raw: Wire, used: set<string>) {
    ParseTask(raw).Some? && ParseTask(raw).value.service in used
  }

  /** A result entry its reader can parse, with the key of its own service, node
      and round. */
  ghost predicate GoodResult(cfg: Config, raw: Wire, used: set<string>) {
    ParseResult(cfg.iso, raw).Some? &&
    var m := ParseResult(cfg.iso, raw).value;
    m.service in used && exists round :: Votes.VotedIn(m, round)
  }

  ghost predicate EntriesOk(cfg: Config, w: World) {
    && (forall i :: 0 <= i < |w.tasks.entries| ==> GoodTask(w.tasks.entries[i], w.db.used))
    && (forall i :: 0 <= i < |w.results.entries| ==> GoodResult(cfg, w.results.entries[i], w.db.used))
  }

  /** Each delivered task was read by one process only; its handler is still
      there, or it raised, or it acknowledged the entry, or the process died. */
  ghost predicate NodesOk(cfg: Config, w: World) {
    && (forall p :: p in w.nodes ==> Worker.Valid(w.nodes[p], cfg.concurrency))
    && (forall p, id :: p in w.nodes && id in w.nodes[p].read ==> id < w.tasks.cursor)
    && (forall p, q, id :: p in w.nodes && q in w.nodes && id in w.nodes[p].read && id in w.nodes[q].read ==> p == q)
    && (forall p, id :: p in w.nodes && id in w.nodes[p].handlers ==> id in w.tasks.pending)
    && (forall p, id :: p in w.nodes && id in w.nodes[p].read && w.nodes[p].mode != Worker.Crashed ==>
          id in w.nodes[p].handlers || id in w.nodes[p].raised || id in w.tasks.acked)
  }

  /** A result entry answers a task: same service, and the key of its round. */
  ghost predicate Answers(cfg: Config, raw: Wire, service: string, round: int) {
    ParseResult(cfg.iso, raw).Some? &&
    var m := ParseResult(cfg.iso, raw).value;
    m.service == service && Votes.VotedIn(m, round)
  }

  ghost predicate Answered(cfg: Config, results: seq<Wire>, raw: Wire) {
    ParseTask(raw).Some? ==>
      var task := ParseTask(raw).value;
      exists i :: 0 <= i < |results| && Answers(cfg, results[i], task.service, task.round)
  }

  /** A handler has published its result and not yet acknowledged its task. */
  ghost predicate Owed(w: World, p: nat, id: nat) {
    && p in w.nodes && id in w.nodes[p].handlers && w.nodes[p].handlers[id] == Worker.Reported
    && id < |w.tasks.entries|
  }

  ghost predicate TasksAnswered(cfg: Config, w: World) {
    && (forall id :: id in w.tasks.acked && id < |w.tasks.entries| ==>
          Answered(cfg, w.results.entries, w.tasks.entries[id]))
    && (forall p: nat, id: nat :: Owed(w, p, id) ==> Answered(cfg, w.results.entries, w.tasks.entries[id]))
  }

  /** The row of a result is in the table, or its service is gone for good. */
  ghost predicate Kept(cfg: Config, db: Db, raw: Wire) {
    ParseResult(cfg.iso, raw).Some? ==>
      var m := ParseResult(cfg.iso, raw).value;
      m.service in db.used && (HasKey(db.rows, m.key) || m.service !in db.services)
  }

  ghost predicate ConsumerOk(cfg: Config, w: World) {
    && (forall i :: 0 <= i < |w.batch| ==> w.batch[i] in w.results.pending)
    && (forall i, j :: 0 <= i < j < |w.batch| ==> w.batch[i] != w.batch[j])
    && (w.stage != Fresh ==> w.batch != [])
    && (w.stage != Fresh && w.batch[0] < |w.results.entries| ==> Kept(cfg, w.db, w.results.entries[w.batch[0]]))
    && (forall id :: id in w.results.acked && id < |w.results.entries| ==> Kept(cfg, w.db, w.results.entries[id]))
  }

  ghost predicate DbOk(w: World) {
    && Database.Valid(w.db) && Dated(w.db, w.now)
    && Votes.Genuine(w.db.rows)
    && forall s :: s in w.db.used ==> PlainId(s)
  }

  ghost predicate Inv(cfg: Config, w: World) {
    && StreamsOk(w) && EntriesOk(cfg, w) && NodesOk(cfg, w) && TasksAnswered(cfg, w)
    && ConsumerOk(cfg, w) && DbOk(w)
  }

  // ---- What each part depends on ----

  lemma EntriesFrame(cfg: Config, w: World, w': World)
    requires EntriesOk(cfg, w) && w.db.used <= w'.db.used
    requires w'.tasks.entries == w.tasks.entries && w'.results.entries == w.results.entries
    ensures EntriesOk(cfg, w')
  {
  }

  lemma NodesFrame(cfg: Config, w: World, w': World)
    requires NodesOk(cfg, w) && w'.nodes == w.nodes && w'.tasks == w.tasks
    ensures NodesOk(cfg, w')
    ensures forall q: nat, id: nat :: Owed(w', q, id) ==> Owed(w, q, id)
  {
  }

  /** Only process `p` changed. */
  lemma NodeChanges(cfg: Config, w: World, w': World, p: nat, n: Worker.Node)
    requires NodesOk(cfg, w) && w'.nodes == w.nodes[p := n] && Worker.Valid(n, cfg.concurrency)
    requires w.tasks.cursor <= w'.tasks.cursor && w.tasks.acked <= w'.tasks.acked
    requires forall id :: id in n.read ==> id < w'.tasks.cursor
    requires forall q, id :: q in w.nodes && q != p && id in w.nodes[q].read ==> id !in n.read
    requires forall id :: id in n.handlers ==> id in w'.tasks.pending
    requires n.mode != Worker.Crashed ==>
      forall id :: id in n.read ==> id in n.handlers || id in n.raised || id in w'.tasks.acked
    requires forall q, id :: q in w.nodes && q != p && id in w.nodes[q].handlers ==> id in w'.tasks.pending
    ensures NodesOk(cfg, w')
  {
  }

  /** A task once answered stays answered: the result stream only grows. */
  lemma AnsweredGrows(cfg: Config, results: seq<Wire>, more: seq<Wire>, raw: Wire)
    requires Answered(cfg, results, raw)
    ensures Answered(cfg, results + more, raw)
  {
    if ParseTask(raw).Some? {
      var t := ParseTask(raw).value;
      var i :| 0 <= i < |results| && Answers(cfg, results[i], t.service, t.round);
      assert (results + more)[i] == results[i];
    }
  }

  lemma AnsweredFrame(cfg: Config, w: World, w': World)
    requires TasksAnswered(cfg, w)
    requires w'.tasks.entries == w.tasks.entries && w'.tasks.acked == w.tasks.acked
    requires w.results.entries <= w'.results.entries
    requires forall p: nat, id: nat :: Owed(w', p, id) ==> Owed(w, p, id)
    ensures TasksAnswered(cfg, w')
  {
    var more := w'.results.entries[|w.results.entries|..];
    assert w'.results.entries == w.results.entries + more;
    forall id | id in w'.tasks.acked && id < |w'.tasks.entries|
      ensures Answered(cfg, w'.results.entries, w'.tasks.entries[id])
    {
      AnsweredGrows(cfg, w.results.entries, more, w.tasks.entries[id]);
    }
    forall p: nat, id: nat | Owed(w', p, id)
      ensures Answered(cfg, w'.results.entries, w'.tasks.entries[id])
    {
      AnsweredGrows(cfg, w.results.entries, more, w.tasks.entries[id]);
    }
  }

  /** The consumer's part, when the tables only keep what they had. */
  lemma ConsumerFrame(cfg: Config, w: World, w': World)
    requires ConsumerOk(cfg, w) && Streams.Valid(w.results)
    requires w'.batch == w.batch && w'.stage == w.stage
    requires w.results.entries <= w'.results.entries
    requires w'.results.pending == w.results.pending && w'.results.acked == w.results.acked
    requires forall i :: 0 <= i < |w.results.entries| && Kept(cfg, w.db, w.results.entries[i]) ==>
      Kept(cfg, w'.db, w.results.entries[i])
    ensures ConsumerOk(cfg, w')
  {
    forall id | id in w.results.pending || id in w.results.acked
      ensures id < |w.results.entries| && w'.results.entries[id] == w.results.entries[id]
    {
    }
  }

  // ---- Steps of one process ----

  /** Steps that change one process and not the streams. */
  lemma NodeStepKeeps(cfg: Config, w: World, w': World, p: nat, n: Worker.Node)
    requires Inv(cfg, w) && w' == w.(nodes := w.nodes[p := n])
    requires Worker.Valid(n, cfg.concurrency)
    requires if p in w.nodes then Worker.Follows(w.nodes[p], n) else n.read == {} && n.handlers == map[]
    ensures Inv(cfg, w')
  {
    NodeFollows(cfg, w, w', p, n);
    OwedFollows(w, w', p, n);
    AnsweredFrame(cfg, w, w');
    EntriesFrame(cfg, w, w');
    ConsumerFrame(cfg, w, w');
  }

  lemma NodeFollows(cfg: Config, w: World, w': World, p: nat, n: Worker.Node)
    requires NodesOk(cfg, w) && w' == w.(nodes := w.nodes[p := n])
    requires Worker.Valid(n, cfg.concurrency)
    requires if p in w.nodes then Worker.Follows(w.nodes[p], n) else n.read == {} && n.handlers == map[]
    ensures NodesOk(cfg, w')
  {
    NodeChanges(cfg, w, w', p, n);
  }

  lemma OwedFollows(w: World, w': World, p: nat, n: Worker.Node)
    requires w' == w.(nodes := w.nodes[p := n])
    requires if p in w.nodes then Worker.Follows(w.nodes[p], n) else n.handlers == map[]
    ensures forall q: nat, id: nat :: Owed(w', q, id) ==> Owed(w, q, id)
  {
  }

  /** Steps that change one process and no stream. */
  predicate IsNodeStep(step: Step) {
    step.StartNode? || step.EnterSemaphore? || step.Raise?
    || step.Signal? || step.LeaveLoop? || step.StopNode? || step.CrashNode?
  }

  /** The process such a step leaves. */
  function NodeAfter(cfg: Config, w: World, step: Step): Worker.Node
    requires Can(cfg, w, step) && IsNodeStep(step)
  {
    match step
    case StartNode(p, name) => Worker.Start(name, cfg.concurrency)
    case EnterSemaphore(p, id) => Worker.Enter(w.nodes[p], id)
    case Raise(p, id) => Worker.Leave(w.nodes[p], id, true)
    case Signal(p) => Worker.Signal(w.nodes[p])
    case LeaveLoop(p) => Worker.LeaveLoop(w.nodes[p])
    case StopNode(p) => Worker.Stop(w.nodes[p])
    case CrashNode(p) => Worker.Crash(w.nodes[p], cfg.concurrency)
  }

  lemma NodeStepChanges(cfg: Config, w: World, step: Step)
    requires Can(cfg, w, step) && IsNodeStep(step)
    ensures Do(cfg, w, step) == w.(nodes := w.nodes[step.p := NodeAfter(cfg, w, step)])
  {
  }

  lemma NodeStepFollows(cfg: Config, w: World, step: Step)
    requires Can(cfg, w, step) && IsNodeStep(step)
    requires step.p in w.nodes ==> Worker.Valid(w.nodes[step.p], cfg.concurrency)
    ensures var n := NodeAfter(cfg, w, step);
      && Worker.Valid(n, cfg.concurrency)
      && if step.p in w.nodes then Worker.Follows(w.nodes[step.p], n) else n.read == {} && n.handlers == map[]
  {
    if step.StartNode? {
      assert Worker.Inside(map[]) == {};
    } else {
      var id := if step.EnterSemaphore? || step.Raise? then step.id else 0;
      Worker.StepsKeepValid(w.nodes[step.p], id, true, cfg.concurrency);
      Worker.StepsFollow(w.nodes[step.p], id, cfg.concurrency);
    }
  }

  lemma NodeStepsKeep(cfg: Config, w: World, step: Step)
    requires Inv(cfg, w) && Can(cfg, w, step) && IsNodeStep(step)
    ensures Inv(cfg, Do(cfg, w, step))
  {
    NodeStepChanges(cfg, w, step);
    NodeStepFollows(cfg, w, step);
    NodeStepKeeps(cfg, w, Do(cfg, w, step), step.p, NodeAfter(cfg, w, step));
  }

  // ---- Steps on the task stream ----

  lemma PublishTaskKeepsAnswered(cfg: Config, w: World, kwargs: Scheduler.Service)
    requires Streams.Valid(w.tasks) && NodesOk(cfg, w) && TasksAnswered(cfg, w) && Can(cfg, w, PublishTask(kwargs))
    ensures TasksAnswered(cfg, Do(cfg, w, PublishTask(kwargs)))
  {
    var w' := Do(cfg, w, PublishTask(kwargs));
    assert forall id :: 0 <= id < |w.tasks.entries| ==> w'.tasks.entries[id] == w.tasks.entries[id];
    assert forall q: nat, id: nat :: Owed(w', q, id) ==> Owed(w, q, id) by {
      assert forall q, id :: q in w.nodes && id in w.nodes[q].handlers ==> id in w.tasks.pending;
    }
  }

  lemma PublishTaskKeepsEntries(cfg: Config, w: World, kwargs: Scheduler.Service)
    requires EntriesOk(cfg, w) && Can(cfg, w, PublishTask(kwargs))
    ensures EntriesOk(cfg, Do(cfg, w, PublishTask(kwargs)))
  {
    TaskRoundTrip(Scheduler.Enqueue(kwargs, w.now));
  }

  lemma PublishTaskKeeps(cfg: Config, w: World, kwargs: Scheduler.Service)
    requires Inv(cfg, w) && Can(cfg, w, PublishTask(kwargs))
    ensures Inv(cfg, Do(cfg, w, PublishTask(kwargs)))
  {
    var w' := Do(cfg, w, PublishTask(kwargs));
    PublishTaskKeepsEntries(cfg, w, kwargs);
    PublishTaskKeepsAnswered(cfg, w, kwargs);
    ConsumerFrame(cfg, w, w');
    assert NodesOk(cfg, w');
  }

  /** Steps that change the places of the tasks and one process. */
  lemma TaskStepKeeps(cfg: Config, w: World, w': World)
    requires Inv(cfg, w) && w' == w.(tasks := w'.tasks, nodes := w'.nodes)
    requires w'.tasks.entries == w.tasks.entries && Streams.Valid(w'.tasks)
    requires NodesOk(cfg, w') && TasksAnswered(cfg, w')
    ensures Inv(cfg, w')
  {
    EntriesFrame(cfg, w, w');
    ConsumerFrame(cfg, w, w');
  }

  lemma ReadTasksKeepsNodes(cfg: Config, w: World, p: nat, n: nat)
    requires StreamsOk(w) && NodesOk(cfg, w) && Can(cfg, w, ReadTasks(p, n))
    ensures NodesOk(cfg, Do(cfg, w, ReadTasks(p, n)))
  {
    var w' := Do(cfg, w, ReadTasks(p, n));
    var ids := Span(w.tasks.cursor, n);
    Worker.ReadKeepsValid(w.nodes[p], ids, cfg.concurrency);
    NodeChanges(cfg, w, w', p, Worker.Read(w.nodes[p], ids));
  }

  lemma ReadTasksKeepsAnswered(cfg: Config, w: World, p: nat, n: nat)
    requires TasksAnswered(cfg, w) && Can(cfg, w, ReadTasks(p, n))
    ensures TasksAnswered(cfg, Do(cfg, w, ReadTasks(p, n)))
  {
    var w' := Do(cfg, w, ReadTasks(p, n));
    assert forall q: nat, id: nat :: Owed(w', q, id) ==> Owed(w, q, id);
    AnsweredFrame(cfg, w, w');
  }

  lemma ReadTasksKeeps(cfg: Config, w: World, p: nat, n: nat)
    requires Inv(cfg, w) && Can(cfg, w, ReadTasks(p, n))
    ensures Inv(cfg, Do(cfg, w, ReadTasks(p, n)))
  {
    ReadTasksKeepsNodes(cfg, w, p, n);
    ReadTasksKeepsAnswered(cfg, w, p, n);
    OperationsKeepValid(w.tasks, map[], n, w.nodes[p].name, 0, {});
    TaskStepKeeps(cfg, w, Do(cfg, w, ReadTasks(p, n)));
  }

  lemma AckTaskKeepsNodes(cfg: Config, w: World, p: nat, id: nat)
    requires StreamsOk(w) && NodesOk(cfg, w) && Can(cfg, w, AckTask(p, id))
    ensures NodesOk(cfg, Do(cfg, w, AckTask(p, id)))
  {
    var w' := Do(cfg, w, AckTask(p, id));
    Worker.StepsKeepValid(w.nodes[p], id, false, cfg.concurrency);
    assert id in w.nodes[p].read;
    NodeChanges(cfg, w, w', p, Worker.Leave(w.nodes[p], id, false));
  }

  lemma AckTaskKeepsAnswered(cfg: Config, w: World, p: nat, id: nat)
    requires StreamsOk(w) && NodesOk(cfg, w) && TasksAnswered(cfg, w) && Can(cfg, w, AckTask(p, id))
    ensures TasksAnswered(cfg, Do(cfg, w, AckTask(p, id)))
  {
    var w' := Do(cfg, w, AckTask(p, id));
    assert Owed(w, p, id);
    assert forall q: nat, i: nat :: Owed(w', q, i) ==> Owed(w, q, i);
  }

  lemma AckTaskKeeps(cfg: Config, w: World, p: nat, id: nat)
    requires Inv(cfg, w) && Can(cfg, w, AckTask(p, id))
    ensures Inv(cfg, Do(cfg, w, AckTask(p, id)))
  {
    AckTaskKeepsNodes(cfg, w, p, id);
    AckTaskKeepsAnswered(cfg, w, p, id);
    OperationsKeepValid(w.tasks, map[], 0, "", id, {});
    TaskStepKeeps(cfg, w, Do(cfg, w, AckTask(p, id)));
  }

  lemma ClaimTasksKeeps(cfg: Config, w: World, p: nat, ids: set<nat>)
    requires Inv(cfg, w) && Can(cfg, w, ClaimTasks(p, ids))
    ensures Inv(cfg, Do(cfg, w, ClaimTasks(p, ids)))
  {
    var w' := Do(cfg, w, ClaimTasks(p, ids));
    OperationsKeepValid(w.tasks, map[], 0, w.nodes[p].name, 0, ids);
    assert forall q: nat, id: nat :: Owed(w', q, id) ==> Owed(w, q, id);
    AnsweredFrame(cfg, w, w');
    assert NodesOk(cfg, w');
    TaskStepKeeps(cfg, w, w');
  }

  // ---- Steps on the result stream ----

  lemma PayloadIsGood(cfg: Config, node: string, task: CheckTask, outcome: Probe.Outcome, at: int, used: set<string>)
    requires Faithful(cfg.iso) && task.service in used
    requires outcome.Response? ==> Json.IsDict(outcome.headers)
    ensures GoodResult(cfg, Payload(cfg, node, task, outcome, at), used)
    ensures Answers(cfg, Payload(cfg, node, task, outcome, at), task.service, task.round)
  {
    Probe.RowTellsTheAttempt(cfg.iso, task.service, node, at, task.round, task.expectedStatus, outcome);
    var row := ParseResult(cfg.iso, Payload(cfg, node, task, outcome, at)).value;
    assert Votes.VotedIn(row, task.round);
  }

  lemma ReportKeepsAnswered(cfg: Config, w: World, p: nat, id: nat, outcome: Probe.Outcome, at: int)
    requires Faithful(cfg.iso) && EntriesOk(cfg, w) && TasksAnswered(cfg, w) && Can(cfg, w, Report(p, id, outcome, at))
    ensures TasksAnswered(cfg, Do(cfg, w, Report(p, id, outcome, at)))
  {
    var w' := Do(cfg, w, Report(p, id, outcome, at));
    var task := Task(w, id).value;
    var payload := Payload(cfg, w.nodes[p].name, task, outcome, at);
    PayloadIsGood(cfg, w.nodes[p].name, task, outcome, at, w.db.used);
    forall i: nat | (i in w'.tasks.acked && i < |w'.tasks.entries|) || exists q: nat :: Owed(w', q, i)
      ensures Answered(cfg, w'.results.entries, w'.tasks.entries[i])
    {
      if i == id {
        var last := |w.results.entries|;
        assert w'.results.entries[last] == payload;
      } else {
        assert forall q: nat :: Owed(w', q, i) ==> Owed(w, q, i);
        AnsweredGrows(cfg, w.results.entries, [payload], w.tasks.entries[i]);
      }
    }
  }

  lemma ReportKeepsNodes(cfg: Config, w: World, p: nat, id: nat, outcome: Probe.Outcome, at: int)
    requires NodesOk(cfg, w) && Can(cfg, w, Report(p, id, outcome, at))
    ensures NodesOk(cfg, Do(cfg, w, Report(p, id, outcome, at)))
  {
    var w' := Do(cfg, w, Report(p, id, outcome, at));
    Worker.StepsKeepValid(w.nodes[p], id, false, cfg.concurrency);
    NodeChanges(cfg, w, w', p, Worker.Publish(w.nodes[p], id));
  }

  lemma ReportKeepsEntries(cfg: Config, w: World, p: nat, id: nat, outcome: Probe.Outcome, at: int)
    requires Faithful(cfg.iso) && EntriesOk(cfg, w) && Can(cfg, w, Report(p, id, outcome, at))
    ensures EntriesOk(cfg, Do(cfg, w, Report(p, id, outcome, at)))
  {
    PayloadIsGood(cfg, w.nodes[p].name, Task(w, id).value, outcome, at, w.db.used);
  }

  lemma ReportKeeps(cfg: Config, w: World, p: nat, id: nat, outcome: Probe.Outcome, at: int)
    requires Faithful(cfg.iso) && Inv(cfg, w) && Can(cfg, w, Report(p, id, outcome, at))
    ensures Inv(cfg, Do(cfg, w, Report(p, id, outcome, at)))
  {
    var w' := Do(cfg, w, Report(p, id, outcome, at));
    ReportKeepsAnswered(cfg, w, p, id, outcome, at);
    ReportKeepsNodes(cfg, w, p, id, outcome, at);
    ReportKeepsEntries(cfg, w, p, id, outcome, at);
    ConsumerFrame(cfg, w, w');
    OperationsKeepValid(w.results, Payload(cfg, w.nodes[p].name, Task(w, id).value, outcome, at), 0, "", 0, {});
  }

  lemma DuplicateKeepsEntries(cfg: Config, w: World, r: nat)
    requires EntriesOk(cfg, w) && Can(cfg, w, Duplicate(r))
    ensures EntriesOk(cfg, Do(cfg, w, Duplicate(r)))
  {
    assert GoodResult(cfg, w.results.entries[r], w.db.used);
  }

  lemma DuplicateKeeps(cfg: Config, w: World, r: nat)
    requires Inv(cfg, w) && Can(cfg, w, Duplicate(r))
    ensures Inv(cfg, Do(cfg, w, Duplicate(r)))
  {
    var w' := Do(cfg, w, Duplicate(r));
    OperationsKeepValid(w.results, w.results.entries[r], 0, "", 0, {});
    DuplicateKeepsEntries(cfg, w, r);
    NodesFrame(cfg, w, w');
    AnsweredFrame(cfg, w, w');
    ConsumerFrame(cfg, w, w');
  }

  // ---- Steps of the consumer ----

  /** Steps that only move the consumer on; the tables stay. */
  lemma ConsumerStepKeeps(cfg: Config, w: World, w': World)
    requires Inv(cfg, w)
    requires w' == w.(results := w'.results, batch := w'.batch, stage := w'.stage, ingested := w'.ingested)
    requires w'.results.entries == w.results.entries && Streams.Valid(w'.results)
    requires ConsumerOk(cfg, w')
    ensures Inv(cfg, w')
  {
    NodesFrame(cfg, w, w');
    AnsweredFrame(cfg, w, w');
    EntriesFrame(cfg, w, w');
  }

  /** Steps of the consumer that leave the tables alone. */
  predicate IsConsumerStep(step: Step) {
    step.ReadResults? || step.RefuseRow? || step.AckResult?
    || step.InsertFails? || step.DetectorFails? || step.DropBatch?
  }

  lemma ConsumerStepChanges(cfg: Config, w: World, step: Step)
    requires Can(cfg, w, step) && IsConsumerStep(step)
    ensures var w' := Do(cfg, w, step);
      && w' == w.(results := w'.results, batch := w'.batch, stage := w'.stage, ingested := w'.ingested)
      && w'.results.entries == w.results.entries
  {
  }

  lemma ReadResultsKeepsConsumer(cfg: Config, w: World, n: nat)
    requires StreamsOk(w) && ConsumerOk(cfg, w) && Can(cfg, w, ReadResults(n))
    ensures ConsumerOk(cfg, Do(cfg, w, ReadResults(n)))
  {
  }

  lemma AckResultKeepsConsumer(cfg: Config, w: World)
    requires StreamsOk(w) && ConsumerOk(cfg, w) && Can(cfg, w, AckResult)
    ensures ConsumerOk(cfg, Do(cfg, w, AckResult))
  {
    var w' := Do(cfg, w, AckResult);
    forall i | 0 <= i < |w'.batch|
      ensures w'.batch[i] in w'.results.pending
    {
      assert w'.batch[i] == w.batch[i + 1] && w.batch[i + 1] != w.batch[0];
    }
  }

  lemma RefuseRowKeepsConsumer(cfg: Config, w: World)
    requires ConsumerOk(cfg, w) && EntriesOk(cfg, w) && Can(cfg, w, RefuseRow)
    ensures ConsumerOk(cfg, Do(cfg, w, RefuseRow))
  {
    assert GoodResult(cfg, w.results.entries[w.batch[0]], w.db.used);
  }

  lemma MoveOnKeepsConsumer(cfg: Config, w: World, step: Step)
    requires ConsumerOk(cfg, w) && Can(cfg, w, step)
    requires step.InsertFails? || step.DetectorFails? || step.DropBatch?
    ensures ConsumerOk(cfg, Do(cfg, w, step))
  {
  }

  lemma ConsumerStepsKeepResults(cfg: Config, w: World, step: Step)
    requires Streams.Valid(w.results) && Can(cfg, w, step) && IsConsumerStep(step)
    ensures Streams.Valid(Do(cfg, w, step).results)
  {
    if step.ReadResults? {
      OperationsKeepValid(w.results, map[], step.n, "coordinator-0", 0, {});
    } else if step.AckResult? {
      OperationsKeepValid(w.results, map[], 0, "", w.batch[0], {});
    }
  }

  lemma ConsumerStepsKeep(cfg: Config, w: World, step: Step)
    requires Inv(cfg, w) && Can(cfg, w, step) && IsConsumerStep(step)
    ensures Inv(cfg, Do(cfg, w, step))
  {
    ConsumerStepChanges(cfg, w, step);
    ConsumerStepsKeepResults(cfg, w, step);
    if step.ReadResults? {
      ReadResultsKeepsConsumer(cfg, w, step.n);
    } else if step.AckResult? {
      AckResultKeepsConsumer(cfg, w);
    } else if step.RefuseRow? {
      RefuseRowKeepsConsumer(cfg, w);
    } else {
      MoveOnKeepsConsumer(cfg, w, step);
    }
    ConsumerStepKeeps(cfg, w, Do(cfg, w, step));
  }

  /** In a reachable state nothing on the streams is unparseable. */
  lemma NothingIsUnparseable(cfg: Config, w: World, p: nat, id: nat)
    requires Inv(cfg, w)
    ensures !Can(cfg, w, SkipUnparseable) && !Can(cfg, w, DropUnparseable(p, id))
  {
  }

  lemma StepParses(cfg: Config, w: World, step: Step)
    requires Inv(cfg, w) && Can(cfg, w, step)
    ensures !step.SkipUnparseable? && !step.DropUnparseable?
  {
    forall p: nat, id: nat
      ensures !Can(cfg, w, SkipUnparseable) && !Can(cfg, w, DropUnparseable(p, id))
    {
      NothingIsUnparseable(cfg, w, p, id);
    }
  }

  // ---- Steps on the tables ----

  /** Steps that change the tables and not the streams. */
  lemma TableStepKeeps(cfg: Config, w: World, w': World)
    requires Inv(cfg, w) && DbOk(w')
    requires w' == w.(db := w'.db, stage := w'.stage, now := w'.now, ingested := w'.ingested, origin := w'.origin)
    requires w.db.used <= w'.db.used && (w'.stage == Fresh || w.batch != [])
    requires forall i :: 0 <= i < |w.results.entries| && Kept(cfg, w.db, w.results.entries[i]) ==>
      Kept(cfg, w'.db, w.results.entries[i])
    requires w'.stage != Fresh && w.batch[0] < |w.results.entries| ==> Kept(cfg, w'.db, w.results.entries[w.batch[0]])
    ensures Inv(cfg, w')
  {
    EntriesFrame(cfg, w, w');
    NodesFrame(cfg, w, w');
    AnsweredFrame(cfg, w, w');
    assert ConsumerOk(cfg, w');
  }

  lemma CreateSvcKeeps(cfg: Config, w: World, s: string)
    requires Inv(cfg, w) && Can(cfg, w, CreateSvc(s))
    ensures Inv(cfg, Do(cfg, w, CreateSvc(s)))
  {
    CreateKeepsValid(w.db, s, w.now);
    TableStepKeeps(cfg, w, Do(cfg, w, CreateSvc(s)));
  }

  /** Deleting a service takes away its own rows only. */
  lemma KeptAfterDelete(cfg: Config, db: Db, s: string, raw: Wire)
    requires Kept(cfg, db, raw) && GoodResult(cfg, raw, db.used) && Votes.Genuine(db.rows)
    requires forall x :: x in db.used ==> PlainId(x)
    ensures Kept(cfg, DeleteService(db, s), raw)
  {
    var m := ParseResult(cfg.iso, raw).value;
    if HasKey(db.rows, m.key) && m.service != s {
      var i :| 0 <= i < |db.rows| && db.rows[i].key == m.key;
      var round :| Votes.VotedIn(m, round);
      var r :| Votes.VotedIn(db.rows[i], r);
      KeyInjective(m.service, m.node, round, db.rows[i].service, db.rows[i].node, r);
      assert db.rows[i] in RowsExcept(db.rows, s);
    }
  }

  lemma GenuineAfterDelete(rows: seq<CheckResult>, s: string)
    requires Votes.Genuine(rows)
    ensures Votes.Genuine(RowsExcept(rows, s))
  {
    var kept := RowsExcept(rows, s);
    forall i | 0 <= i < |kept|
      ensures PlainId(kept[i].service) && exists round :: Votes.VotedIn(kept[i], round)
    {
      assert kept[i] in rows;
      RowIsGenuine(rows, kept[i]);
    }
  }

  lemma RowIsGenuine(rows: seq<CheckResult>, row: CheckResult)
    requires Votes.Genuine(rows) && row in rows
    ensures PlainId(row.service) && exists round :: Votes.VotedIn(row, round)
  {
  }

  lemma DeleteSvcKeeps(cfg: Config, w: World, s: string)
    requires Inv(cfg, w) && Can(cfg, w, DeleteSvc(s))
    ensures Inv(cfg, Do(cfg, w, DeleteSvc(s)))
  {
    var w' := Do(cfg, w, DeleteSvc(s));
    DeleteKeepsValid(w.db, s);
    GenuineAfterDelete(w.db.rows, s);
    forall i | 0 <= i < |w.results.entries| && Kept(cfg, w.db, w.results.entries[i])
      ensures Kept(cfg, w'.db, w.results.entries[i])
    {
      KeptAfterDelete(cfg, w.db, s, w.results.entries[i]);
    }
    TableStepKeeps(cfg, w, w');
  }

  lemma KeysAfterInsert(rows: seq<CheckResult>, row: CheckResult)
    ensures HasKey(rows + [row], row.key)
    ensures forall k :: HasKey(rows, k) ==> HasKey(rows + [row], k)
  {
    assert (rows + [row])[|rows|] == row;
    forall k | HasKey(rows, k)
      ensures HasKey(rows + [row], k)
    {
      var i :| 0 <= i < |rows| && rows[i].key == k;
      assert (rows + [row])[i].key == k;
    }
  }

  lemma InsertRowKeeps(cfg: Config, w: World)
    requires Inv(cfg, w) && Can(cfg, w, InsertRow)
    ensures Inv(cfg, Do(cfg, w, InsertRow))
  {
    var w' := Do(cfg, w, InsertRow);
    var row := Result(cfg, w, w.batch[0]).value;
    assert GoodResult(cfg, w.results.entries[w.batch[0]], w.db.used);
    InsertKeepsValid(w.db, row);
    KeysAfterInsert(w.db.rows, row);
    assert Votes.Genuine(w'.db.rows);
    TableStepKeeps(cfg, w, w');
  }

  lemma DetectKeepsDb(cfg: Config, w: World, r: Quorum.Readings)
    requires DbOk(w) && Can(cfg, w, Detect(r))
    ensures var w' := Do(cfg, w, Detect(r));
      DbOk(w') && w'.db.rows == w.db.rows && w'.db.services == w.db.services && w'.db.used == w.db.used
  {
    var w' := Do(cfg, w, Detect(r));
    Quorum.EvaluateKeepsValid(cfg.quorum, w.db, Result(cfg, w, w.batch[0]).value.service, r);
    assert Dated(w'.db, w'.now);
  }

  lemma DetectKeeps(cfg: Config, w: World, r: Quorum.Readings)
    requires Inv(cfg, w) && Can(cfg, w, Detect(r))
    ensures Inv(cfg, Do(cfg, w, Detect(r)))
  {
    DetectKeepsDb(cfg, w, r);
    TableStepKeeps(cfg, w, Do(cfg, w, Detect(r)));
  }

  lemma TickKeeps(cfg: Config, w: World, later: int)
    requires Inv(cfg, w) && Can(cfg, w, Tick(later))
    ensures Inv(cfg, Do(cfg, w, Tick(later)))
  {
    TableStepKeeps(cfg, w, Do(cfg, w, Tick(later)));
  }

  /** The other steps that leave the tables alone. */
  lemma TablesStay(cfg: Config, w: World, step: Step)
    requires Can(cfg, w, step)
    requires step.PublishTask? || step.ReadTasks? || step.DropUnparseable? || step.Report? || step.AckTask?
      || step.ClaimTasks? || step.Duplicate? || step.SkipUnparseable? || step.Tick?
    ensures var w' := Do(cfg, w, step);
      w'.db == w.db && w'.origin == w.origin && w'.stage == w.stage && w'.ingested == w.ingested
  {
  }

  /** The steps that touch the tables, and how. */
  lemma TablesAfter(cfg: Config, w: World, step: Step)
    requires Can(cfg, w, step)
    ensures match step
      case CreateSvc(s) => Do(cfg, w, step).db == CreateService(w.db, s, w.now)
      case DeleteSvc(s) => Do(cfg, w, step).db == DeleteService(w.db, s)
      case InsertRow => Do(cfg, w, step).db == Insert(w.db, Result(cfg, w, w.batch[0]).value)
      case Detect(r) =>
        Do(cfg, w, step).db == Quorum.Evaluate(cfg.quorum, w.db, Result(cfg, w, w.batch[0]).value.service, r)
      case _ => Do(cfg, w, step).db == w.db
    ensures !step.InsertRow? ==> Do(cfg, w, step).origin == w.origin
  {
    if IsNodeStep(step) {
      NodeStepChanges(cfg, w, step);
    } else if IsConsumerStep(step) {
      ConsumerStepChanges(cfg, w, step);
    } else if !step.CreateSvc? && !step.DeleteSvc? && !step.InsertRow? && !step.Detect? {
      TablesStay(cfg, w, step);
    }
  }

  // ---- Over whole runs ----

  /** Steps of the scheduler and of the processes that change the task stream. */
  lemma TaskStepsKeep(cfg: Config, w: World, step: Step)
    requires Inv(cfg, w) && Can(cfg, w, step)
    requires step.PublishTask? || step.ReadTasks? || step.AckTask? || step.ClaimTasks?
    ensures Inv(cfg, Do(cfg, w, step))
  {
    match step
    case PublishTask(kwargs) => PublishTaskKeeps(cfg, w, kwargs);
    case ReadTasks(p, n) => ReadTasksKeeps(cfg, w, p, n);
    case AckTask(p, id) => AckTaskKeeps(cfg, w, p, id);
    case ClaimTasks(p, ids) => ClaimTasksKeeps(cfg, w, p, ids);
  }

  /** Steps that add a result. */
  lemma ResultStepsKeep(cfg: Config, w: World, step: Step)
    requires Faithful(cfg.iso) && Inv(cfg, w) && Can(cfg, w, step) && (step.Report? || step.Duplicate?)
    ensures Inv(cfg, Do(cfg, w, step))
  {
    match step
    case Report(p, id, outcome, at) => ReportKeeps(cfg, w, p, id, outcome, at);
    case Duplicate(r) => DuplicateKeeps(cfg, w, r);
  }

  /** Steps on the tables, and the clock. */
  lemma TableStepsKeep(cfg: Config, w: World, step: Step)
    requires Inv(cfg, w) && Can(cfg, w, step)
    requires step.CreateSvc? || step.DeleteSvc? || step.InsertRow? || step.Detect? || step.Tick?
    ensures Inv(cfg, Do(cfg, w, step))
  {
    match step
    case CreateSvc(s) => CreateSvcKeeps(cfg, w, s);
    case DeleteSvc(s) => DeleteSvcKeeps(cfg, w, s);
    case InsertRow => InsertRowKeeps(cfg, w);
    case Detect(r) => DetectKeeps(cfg, w, r);
    case Tick(later) => TickKeeps(cfg, w, later);
  }

  lemma StepKeeps(cfg: Config, w: World, step: Step)
    requires Faithful(cfg.iso) && Inv(cfg, w) && Can(cfg, w, step)
    ensures Inv(cfg, Do(cfg, w, step))
  {
    StepParses(cfg, w, step);
    if IsNodeStep(step) {
      NodeStepsKeep(cfg, w, step);
    } else if step.PublishTask? || step.ReadTasks? || step.AckTask? || step.ClaimTasks? {
      TaskStepsKeep(cfg, w, step);
    } else if step.Report? || step.Duplicate? {
      ResultStepsKeep(cfg, w, step);
    } else if IsConsumerStep(step) {
      ConsumerStepsKeep(cfg, w, step);
    } else {
      TableStepsKeep(cfg, w, step);
    }
  }

  lemma {:induction false} EveryRunKeepsInv(cfg: Config, w: World, steps: seq<Step>, end: World)
    requires Faithful(cfg.iso) && Inv(cfg, w) && Reaches(cfg, w, steps, end)
    ensures Inv(cfg, end)
    decreases |steps|
  {
    if steps != [] {
      StepKeeps(cfg, w, steps[0]);
      EveryRunKeepsInv(cfg, Do(cfg, w, steps[0]), steps[1..], end);
    }
  }

  lemma InitInv(cfg: Config, now: int)
    ensures Inv(cfg, Init(now))
  {
    assert OpenIds(EMPTY) == {};
  }

  lemma Reached(cfg: Config, now: int, steps: seq<Step>, end: World)
    requires Faithful(cfg.iso) && Reaches(cfg, Init(now), steps, end)
    ensures Inv(cfg, end)
  {
    InitInv(cfg, now);
    EveryRunKeepsInv(cfg, Init(now), steps, end);
  }

  // ---- What that says of every reachable state ----

  /** Every published entry of either stream is in exactly one place. */
  lemma NothingIsLostFromTheStreams(cfg: Config, now: int, steps: seq<Step>, end: World, id: nat)
    requires Faithful(cfg.iso) && Reaches(cfg, Init(now), steps, end)
    ensures id < |end.tasks.entries| ==>
      && (PlaceOf(end.tasks, id) == Undelivered <==> id !in end.tasks.pending && id !in end.tasks.acked)
      && (PlaceOf(end.tasks, id) == Pending <==> id in end.tasks.pending && id !in end.tasks.acked)
      && (PlaceOf(end.tasks, id) == Acknowledged <==> id in end.tasks.acked && id !in end.tasks.pending)
      && (PlaceOf(end.tasks, id) == Undelivered <==> id >= end.tasks.cursor)
    ensures id < |end.results.entries| ==>
      && (PlaceOf(end.results, id) == Undelivered <==> id !in end.results.pending && id !in end.results.acked)
      && (PlaceOf(end.results, id) == Pending <==> id in end.results.pending && id !in end.results.acked)
      && (PlaceOf(end.results, id) == Acknowledged <==> id in end.results.acked && id !in end.results.pending)
      && (PlaceOf(end.results, id) == Undelivered <==> id >= end.results.cursor)
    ensures (|end.tasks.entries| - end.tasks.cursor) + |end.tasks.pending| + |end.tasks.acked| == |end.tasks.entries|
    ensures (|end.results.entries| - end.results.cursor) + |end.results.pending| + |end.results.acked|
         == |end.results.entries|
  {
    Reached(cfg, now, steps, end);
    CountsAddUp(end.tasks);
    CountsAddUp(end.results);
    if id < |end.tasks.entries| {
      Conserved(end.tasks, id);
    }
    if id < |end.results.entries| {
      Conserved(end.results, id);
    }
  }

  /** The steps that touch the task stream, and how. */
  lemma TasksAfter(cfg: Config, w: World, step: Step)
    requires Can(cfg, w, step)
    ensures match step
      case PublishTask(kwargs) =>
        Do(cfg, w, step).tasks == Add(w.tasks, EncodeTask(Scheduler.Enqueue(kwargs, w.now)))
      case ReadTasks(p, n) => Do(cfg, w, step).tasks == Deliver(w.tasks, n, w.nodes[p].name)
      case DropUnparseable(p, id) => Do(cfg, w, step).tasks == Ack(w.tasks, id)
      case AckTask(p, id) => Do(cfg, w, step).tasks == Ack(w.tasks, id)
      case ClaimTasks(p, ids) => Do(cfg, w, step).tasks == Claim(w.tasks, ids, w.nodes[p].name)
      case _ => Do(cfg, w, step).tasks == w.tasks
  {
  }

  /** The steps that touch the result stream, and how. */
  lemma ResultsAfter(cfg: Config, w: World, step: Step)
    requires Can(cfg, w, step)
    ensures match step
      case Report(p, id, outcome, at) =>
        Do(cfg, w, step).results == Add(w.results, Payload(cfg, w.nodes[p].name, Task(w, id).value, outcome, at))
      case Duplicate(r) => Do(cfg, w, step).results == Add(w.results, w.results.entries[r])
      case ReadResults(n) => Do(cfg, w, step).results == Deliver(w.results, n, "coordinator-0")
      case SkipUnparseable => Do(cfg, w, step).results == Ack(w.results, w.batch[0])
      case AckResult => Do(cfg, w, step).results == Ack(w.results, w.batch[0])
      case _ => Do(cfg, w, step).results == w.results
  {
  }

  /** The steps that touch the batch, and how. */
  lemma BatchAfter(cfg: Config, w: World, step: Step)
    requires Can(cfg, w, step)
    ensures match step
      case ReadResults(n) => forall id :: id in Do(cfg, w, step).batch ==> id >= w.results.cursor
      case SkipUnparseable => Do(cfg, w, step).batch == w.batch[1..]
      case InsertFails => Do(cfg, w, step).batch == w.batch[1..]
      case AckResult => Do(cfg, w, step).batch == w.batch[1..]
      case DropBatch => Do(cfg, w, step).batch == []
      case _ => Do(cfg, w, step).batch == w.batch
  {
  }

  lemma TasksExtend(cfg: Config, w: World, step: Step)
    requires Can(cfg, w, step)
    ensures Extends(w.tasks, Do(cfg, w, step).tasks)
  {
    TasksAfter(cfg, w, step);
  }

  lemma ResultsExtend(cfg: Config, w: World, step: Step)
    requires Can(cfg, w, step)
    ensures Extends(w.results, Do(cfg, w, step).results)
  {
    ResultsAfter(cfg, w, step);
  }

  /** Nothing is ever taken out of a stream, changed, delivered anew or
      unacknowledged, from any state on. */
  lemma {:induction false} StreamsOnlyGrow(cfg: Config, w: World, steps: seq<Step>, end: World)
    requires Reaches(cfg, w, steps, end)
    ensures Extends(w.tasks, end.tasks) && Extends(w.results, end.results)
    decreases |steps|
  {
    if steps != [] {
      TasksExtend(cfg, w, steps[0]);
      ResultsExtend(cfg, w, steps[0]);
      StreamsOnlyGrow(cfg, Do(cfg, w, steps[0]), steps[1..], end);
    }
  }

  /** An acknowledged task has a result in the stream for its service and round. */
  lemma AckedTaskHasResult(cfg: Config, now: int, steps: seq<Step>, end: World, id: nat)
    returns (task: CheckTask, i: nat)
    requires Faithful(cfg.iso) && Reaches(cfg, Init(now), steps, end) && id in end.tasks.acked
    ensures id < |end.tasks.entries| && Task(end, id) == Some(task)
    ensures i < |end.results.entries| && Answers(cfg, end.results.entries[i], task.service, task.round)
  {
    Reached(cfg, now, steps, end);
    assert GoodTask(end.tasks.entries[id], end.db.used);
    task := Task(end, id).value;
    i :| 0 <= i < |end.results.entries| && Answers(cfg, end.results.entries[i], task.service, task.round);
  }

  /** An acknowledged result has its row in the table, or its service has been
      deleted. */
  lemma AckedResultIsKept(cfg: Config, now: int, steps: seq<Step>, end: World, id: nat) returns (row: CheckResult)
    requires Faithful(cfg.iso) && Reaches(cfg, Init(now), steps, end) && id in end.results.acked
    ensures id < |end.results.entries| && Result(cfg, end, id) == Some(row)
    ensures HasKey(end.db.rows, row.key) || row.service in end.db.used - end.db.services
  {
    Reached(cfg, now, steps, end);
    assert GoodResult(cfg, end.results.entries[id], end.db.used);
    row := Result(cfg, end, id).value;
  }

  /** Neither decoder ever meets an entry it must throw away. */
  lemma EverythingParses(cfg: Config, now: int, steps: seq<Step>, end: World, p: nat, id: nat)
    requires Faithful(cfg.iso) && Reaches(cfg, Init(now), steps, end)
    ensures !Can(cfg, end, SkipUnparseable) && !Can(cfg, end, DropUnparseable(p, id))
  {
    Reached(cfg, now, steps, end);
    NothingIsUnparseable(cfg, end, p, id);
  }

  /** No task is handled by two processes, claims notwithstanding; the handlers
      of a process that are inside its semaphore are at most `concurrency`; and
      the pending tasks include every task with a handler. */
  lemma HandlersAreBounded(cfg: Config, now: int, steps: seq<Step>, end: World)
    requires Faithful(cfg.iso) && Reaches(cfg, Init(now), steps, end)
    ensures forall p :: p in end.nodes ==> |Worker.Inside(end.nodes[p].handlers)| <= cfg.concurrency
    ensures forall p, q :: p in end.nodes && q in end.nodes && p != q ==> end.nodes[p].read !! end.nodes[q].read
    ensures forall p, id :: p in end.nodes && id in end.nodes[p].handlers ==> id in end.tasks.pending
  {
    Reached(cfg, now, steps, end);
    forall p | p in end.nodes
      ensures |Worker.Inside(end.nodes[p].handlers)| <= cfg.concurrency
    {
      Worker.Bounded(end.nodes[p], cfg.concurrency);
    }
  }

  /** When a process has ended normally, every task it read is acknowledged or
      was given up by a handler that raised. */
  lemma ShutdownLeavesNothingBehind(cfg: Config, now: int, steps: seq<Step>, end: World, p: nat, id: nat)
    requires Faithful(cfg.iso) && Reaches(cfg, Init(now), steps, end)
    requires p in end.nodes && end.nodes[p].mode == Worker.Stopped && id in end.nodes[p].read
    ensures end.nodes[p].handlers == map[]
    ensures id in end.tasks.acked || (id in end.nodes[p].raised && id in end.tasks.pending)
  {
    Reached(cfg, now, steps, end);
  }

  ghost predicate SameVote(a: CheckResult, b: CheckResult, round: int) {
    a.service == b.service && a.node == b.node && Votes.VotedIn(a, round) && Votes.VotedIn(b, round)
  }

  /** At most one row per service, node and round, and at most `Rounds` rows of
      one node whose round is that of some instant of a window.  `Provenance` says
      that the rows for the tasks published in the window are among these. */
  lemma VotesAreBounded(cfg: Config, now: int, steps: seq<Step>, end: World,
                        service: string, node: string, from: int, length: nat, intervalSecs: int)
    requires Faithful(cfg.iso) && Reaches(cfg, Init(now), steps, end) && intervalSecs > 0
    ensures forall i, j, round | 0 <= i < |end.db.rows| && 0 <= j < |end.db.rows| ::
      SameVote(end.db.rows[i], end.db.rows[j], round) ==> i == j
    ensures |Votes.VotesPublishedIn(end.db.rows, service, node, from, length, intervalSecs)|
         <= Votes.Rounds(length, intervalSecs) <= length / intervalSecs + 2
    ensures Votes.Genuine(end.db.rows)
  {
    Reached(cfg, now, steps, end);
    forall i, j, round | 0 <= i < |end.db.rows| && 0 <= j < |end.db.rows|
      && SameVote(end.db.rows[i], end.db.rows[j], round)
      ensures i == j
    {
      Votes.OneVotePerRound(end.db, i, j, round);
    }
    Votes.VoteBound(end.db.rows, service, node, from, length, intervalSecs);
  }

  /** The tables satisfy the invariant of `Database` throughout, so a service is
      down exactly when it has an open incident, and never has two. */
  lemma TablesStayValid(cfg: Config, now: int, steps: seq<Step>, end: World, s: string)
    requires Faithful(cfg.iso) && Reaches(cfg, Init(now), steps, end)
    ensures Database.Valid(end.db) && Dated(end.db, end.now) && |OpenOf(end.db, s)| <= 1
    ensures s in end.db.services ==>
      s in end.db.status && (end.db.status[s].current == "down" <==> OpenOf(end.db, s) != {})
  {
    Reached(cfg, now, steps, end);
    AtMostOneOpen(end.db, s);
  }
}
