/** Every run of the pipeline is, for the tables and the ingest counter, a run of
    `Ingest`; so duplicates do no harm there either. */
module Refinement {
  import opened Wrappers
  import opened Keys
  import opened Codec
  import opened Database
  import opened Pipeline
  import Ingest
  import Quorum
  import Votes

  /** The service whose row is committed and not yet evaluated. */
  function Held(cfg: Config, w: World): Option<string> {
    if w.stage == Stored && w.batch != [] && w.batch[0] < |w.results.entries|
       && Result(cfg, w, w.batch[0]).Some?
    then Some(Result(cfg, w, w.batch[0]).value.service)
    else None
  }

  function StoreOf(cfg: Config, w: World): Ingest.Store {
    Ingest.Store(w.db, w.ingested, Held(cfg, w))
  }

  /** What a step means for the tables, if anything. */
  function EventOf(cfg: Config, w: World, step: Step): Option<Ingest.Event>
    requires Can(cfg, w, step)
  {
    match step
    case CreateSvc(s) => Some(Ingest.Create(s, w.now))
    case DeleteSvc(s) => Some(Ingest.Delete(s))
    case InsertRow => Some(Ingest.Put(Result(cfg, w, w.batch[0]).value, false))
    case RefuseRow => Some(Ingest.Put(Result(cfg, w, w.batch[0]).value, false))
    case InsertFails => Some(Ingest.Put(Result(cfg, w, w.batch[0]).value, true))
    case Detect(r) => Some(Ingest.Judge(Some(r)))
    case DetectorFails => Some(Ingest.Judge(None))
    case ReadResults(n) => Some(Ingest.Drop)
    case SkipUnparseable => Some(Ingest.Drop)
    case AckResult => Some(Ingest.Drop)
    case DropBatch => Some(Ingest.Drop)
    case _ => None
  }

  ghost function EventsOf(cfg: Config, w: World, steps: seq<Step>, end: World): seq<Ingest.Event>
    requires Reaches(cfg, w, steps, end)
    decreases |steps|
  {
    if steps == [] then []
    else
      var rest := EventsOf(cfg, Do(cfg, w, steps[0]), steps[1..], end);
      match EventOf(cfg, w, steps[0]) case None => rest case Some(e) => [e] + rest
  }

  // ---- Each step is its event ----

  /** A step that means nothing for the tables changes nothing of them. */
  lemma SilentStep(cfg: Config, w: World, step: Step)
    requires w.batch != [] ==> w.batch[0] < |w.results.entries|
    requires Can(cfg, w, step) && EventOf(cfg, w, step) == None
    ensures StoreOf(cfg, Do(cfg, w, step)) == StoreOf(cfg, w)
  {
    ResultsExtend(cfg, w, step);
    SilentStepKeeps(cfg, w, step);
    if w.stage == Stored {
      HeldStays(cfg, w, Do(cfg, w, step));
    }
  }

  /** A new entry of the result stream is not at the head of the batch. */
  lemma HeldStays(cfg: Config, w: World, w': World)
    requires w'.stage == w.stage && w'.batch == w.batch && w.results.entries <= w'.results.entries
    requires w.batch != [] ==> w.batch[0] < |w.results.entries|
    ensures Held(cfg, w') == Held(cfg, w)
  {
  }

  lemma SilentStepKeeps(cfg: Config, w: World, step: Step)
    requires Can(cfg, w, step) && EventOf(cfg, w, step) == None
    ensures var w' := Do(cfg, w, step);
      w'.db == w.db && w'.ingested == w.ingested && w'.stage == w.stage && w'.batch == w.batch
  {
  }

  lemma TableStepIsEvent(cfg: Config, w: World, step: Step)
    requires step.CreateSvc? || step.DeleteSvc? || step.InsertRow? || step.RefuseRow? || step.InsertFails?
    requires Can(cfg, w, step)
    ensures StoreOf(cfg, Do(cfg, w, step)) == Ingest.Apply(cfg.quorum, StoreOf(cfg, w), EventOf(cfg, w, step).value)
  {
  }

  lemma JudgementIsEvent(cfg: Config, w: World, step: Step)
    requires step.Detect? || step.DetectorFails?
    requires Can(cfg, w, step) && Result(cfg, w, w.batch[0]).Some?
    ensures StoreOf(cfg, Do(cfg, w, step)) == Ingest.Apply(cfg.quorum, StoreOf(cfg, w), EventOf(cfg, w, step).value)
  {
    assert Held(cfg, w) == Some(Result(cfg, w, w.batch[0]).value.service);
  }

  lemma TurningAwayIsEvent(cfg: Config, w: World, step: Step)
    requires step.ReadResults? || step.SkipUnparseable? || step.AckResult? || step.DropBatch?
    requires Can(cfg, w, step)
    ensures StoreOf(cfg, Do(cfg, w, step)) == Ingest.Apply(cfg.quorum, StoreOf(cfg, w), EventOf(cfg, w, step).value)
  {
  }

  lemma StepIsEvent(cfg: Config, w: World, step: Step)
    requires EntriesOk(cfg, w) && (w.batch != [] ==> w.batch[0] < |w.results.entries|) && Can(cfg, w, step)
    ensures StoreOf(cfg, Do(cfg, w, step)) ==
      match EventOf(cfg, w, step)
      case None => StoreOf(cfg, w)
      case Some(e) => Ingest.Apply(cfg.quorum, StoreOf(cfg, w), e)
  {
    if EventOf(cfg, w, step) == None {
      SilentStep(cfg, w, step);
    } else if step.Detect? || step.DetectorFails? {
      assert GoodResult(cfg, w.results.entries[w.batch[0]], w.db.used);
      JudgementIsEvent(cfg, w, step);
    } else if step.ReadResults? || step.SkipUnparseable? || step.AckResult? || step.DropBatch? {
      TurningAwayIsEvent(cfg, w, step);
    } else {
      TableStepIsEvent(cfg, w, step);
    }
  }

  // ---- Every run is a run of events ----

  lemma RunPrepend(cfg: Quorum.Settings, st: Ingest.Store, e: Ingest.Event, rest: seq<Ingest.Event>)
    ensures Ingest.Run(cfg, st, [e] + rest) == Ingest.Run(cfg, Ingest.Apply(cfg, st, e), rest)
  {
    assert ([e] + rest)[1..] == rest;
  }

  lemma HeadIsEntry(cfg: Config, w: World)
    requires StreamsOk(w) && ConsumerOk(cfg, w)
    ensures w.batch != [] ==> w.batch[0] < |w.results.entries|
  {
    assert w.batch != [] ==> w.batch[0] in w.results.pending;
  }

  /** The tables and the counter at the end of any run of the pipeline are what
      its events make of those at the beginning. */
  lemma {:induction false} RunIsEvents(cfg: Config, w: World, steps: seq<Step>, end: World)
    requires Faithful(cfg.iso) && Inv(cfg, w) && Reaches(cfg, w, steps, end)
    ensures StoreOf(cfg, end) == Ingest.Run(cfg.quorum, StoreOf(cfg, w), EventsOf(cfg, w, steps, end))
    decreases |steps|
  {
    if steps != [] {
      HeadIsEntry(cfg, w);
      StepIsEvent(cfg, w, steps[0]);
      StepKeeps(cfg, w, steps[0]);
      RunIsEvents(cfg, Do(cfg, w, steps[0]), steps[1..], end);
      if EventOf(cfg, w, steps[0]).Some? {
        RunPrepend(cfg.quorum, StoreOf(cfg, w), EventOf(cfg, w, steps[0]).value,
                   EventsOf(cfg, Do(cfg, w, steps[0]), steps[1..], end));
      }
    }
  }

  lemma GoodRow(cfg: Config, raw: Wire, used: set<string>)
    requires GoodResult(cfg, raw, used) && forall s :: s in used ==> PlainId(s)
    ensures var m := ParseResult(cfg.iso, raw).value; m.service in used && ServiceOf(m.key) == m.service
  {
    var m := ParseResult(cfg.iso, raw).value;
    var round :| Votes.VotedIn(m, round);
    KeyNamesItsService(m.service, m.node, round);
  }

  /** The steps that hand out a service id. */
  lemma UsedAfter(cfg: Config, w: World, step: Step)
    requires Can(cfg, w, step)
    ensures Do(cfg, w, step).db.used == w.db.used + (if step.CreateSvc? then {step.s} else {})
  {
    TablesAfter(cfg, w, step);
  }

  ghost predicate EventOk(e: Ingest.Event, used: set<string>) {
    && (e.Put? ==> e.row.service in used && ServiceOf(e.row.key) == e.row.service)
    && (e.Create? ==> e.s !in used)
  }

  lemma EventIsOk(cfg: Config, w: World, step: Step)
    requires EntriesOk(cfg, w) && DbOk(w) && Can(cfg, w, step) && EventOf(cfg, w, step).Some?
    ensures EventOk(EventOf(cfg, w, step).value, w.db.used)
    ensures EventOf(cfg, w, step).value.Create? <==> step.CreateSvc?
    ensures step.CreateSvc? ==> EventOf(cfg, w, step).value.s == step.s
  {
    if step.InsertRow? || step.RefuseRow? || step.InsertFails? {
      GoodRow(cfg, w.results.entries[w.batch[0]], w.db.used);
    }
  }

  lemma PrependSound(e: Ingest.Event, rest: seq<Ingest.Event>, used: set<string>)
    requires Ingest.Sound(rest, used + (if e.Create? then {e.s} else {})) && EventOk(e, used)
    ensures Ingest.Sound([e] + rest, used)
  {
    assert ([e] + rest)[1..] == rest && used + {} == used;
  }

  lemma SoundStep(cfg: Config, w: World, step: Step, rest: seq<Ingest.Event>)
    requires EntriesOk(cfg, w) && DbOk(w) && Can(cfg, w, step)
    requires Ingest.Sound(rest, w.db.used + (if step.CreateSvc? then {step.s} else {}))
    ensures match EventOf(cfg, w, step)
      case None => Ingest.Sound(rest, w.db.used)
      case Some(e) => Ingest.Sound([e] + rest, w.db.used)
  {
    if EventOf(cfg, w, step) == None {
      assert w.db.used + {} == w.db.used;
    } else {
      EventIsOk(cfg, w, step);
      PrependSound(EventOf(cfg, w, step).value, rest, w.db.used);
    }
  }

  lemma {:induction false} EventsAreSound(cfg: Config, w: World, steps: seq<Step>, end: World)
    requires Faithful(cfg.iso) && Inv(cfg, w) && Reaches(cfg, w, steps, end)
    ensures Ingest.Sound(EventsOf(cfg, w, steps, end), w.db.used)
    decreases |steps|
  {
    if steps != [] {
      StepKeeps(cfg, w, steps[0]);
      UsedAfter(cfg, w, steps[0]);
      EventsAreSound(cfg, Do(cfg, w, steps[0]), steps[1..], end);
      SoundStep(cfg, w, steps[0], EventsOf(cfg, Do(cfg, w, steps[0]), steps[1..], end));
    }
  }

  /** Any run of the pipeline, with results duplicated, left half done by a
      consumer that dies and read again, and services deleted at any moment, ends
      in the tables and with the counter of the run in which every insert of a
      settled key is skipped. */
  lemma DuplicatesAreHarmless(cfg: Config, now: int, steps: seq<Step>, end: World)
    requires Faithful(cfg.iso) && Reaches(cfg, Init(now), steps, end)
    ensures var events := EventsOf(cfg, Init(now), steps, end);
      && StoreOf(cfg, end) == Ingest.Run(cfg.quorum, Ingest.NOTHING, events)
      && StoreOf(cfg, end) == Ingest.Run(cfg.quorum, Ingest.NOTHING, Ingest.Dedup(events, {}))
  {
    InitInv(cfg, now);
    RunIsEvents(cfg, Init(now), steps, end);
    EventsAreSound(cfg, Init(now), steps, end);
    Ingest.DuplicatesAreHarmless(cfg.quorum, EventsOf(cfg, Init(now), steps, end));
  }

  /** In every reachable state every row stored so far, deleted since or not, has
      been counted once, or was abandoned before its evaluation, or is in hand. */
  lemma CounterAccountsForRows(cfg: Config, now: int, steps: seq<Step>, end: World)
    requires Faithful(cfg.iso) && Reaches(cfg, Init(now), steps, end)
    ensures var events := EventsOf(cfg, Init(now), steps, end);
      |end.db.rows| + Ingest.Erased(cfg.quorum, Ingest.NOTHING, events)
        == end.ingested + Ingest.Abandoned(cfg.quorum, Ingest.NOTHING, events) + Ingest.InHand(StoreOf(cfg, end))
  {
    DuplicatesAreHarmless(cfg, now, steps, end);
    Ingest.CounterAccountsForRows(cfg.quorum, Ingest.NOTHING, EventsOf(cfg, Init(now), steps, end));
  }

  // ---- A settled result is never stored again ----

  lemma KeptStays(cfg: Config, w: World, step: Step, raw: Wire)
    requires Inv(cfg, w) && Can(cfg, w, step) && GoodResult(cfg, raw, w.db.used) && Kept(cfg, w.db, raw)
    ensures GoodResult(cfg, raw, Do(cfg, w, step).db.used) && Kept(cfg, Do(cfg, w, step).db, raw)
  {
    UsedAfter(cfg, w, step);
    if step.DeleteSvc? {
      KeptAfterDelete(cfg, w.db, step.s, raw);
    } else if step.InsertRow? {
      KeysAfterInsert(w.db.rows, Result(cfg, w, w.batch[0]).value);
    } else {
      OtherStepsKeepRows(cfg, w, step);
    }
  }

  lemma OtherStepsKeepRows(cfg: Config, w: World, step: Step)
    requires Can(cfg, w, step) && !step.DeleteSvc? && !step.InsertRow?
    ensures Do(cfg, w, step).db.rows == w.db.rows
    ensures Do(cfg, w, step).db.services == w.db.services + (if step.CreateSvc? then {step.s} else {})
  {
    TablesAfter(cfg, w, step);
  }

  /** Two good results with one key are of one service. */
  lemma SameKeySameService(cfg: Config, a: Wire, b: Wire, used: set<string>)
    requires GoodResult(cfg, a, used) && GoodResult(cfg, b, used)
    requires forall s :: s in used ==> PlainId(s)
    ensures var m, n := ParseResult(cfg.iso, a).value, ParseResult(cfg.iso, b).value;
      m.key == n.key ==> m.service == n.service
  {
    GoodRow(cfg, a, used);
    GoodRow(cfg, b, used);
  }

  lemma CopyIsRefused(cfg: Config, w: World, raw: Wire)
    requires EntriesOk(cfg, w) && DbOk(w) && GoodResult(cfg, raw, w.db.used) && Kept(cfg, w.db, raw)
    requires HeadIn(w, Fresh) && Result(cfg, w, w.batch[0]).Some?
    requires Result(cfg, w, w.batch[0]).value.key == ParseResult(cfg.iso, raw).value.key
    ensures !Can(cfg, w, InsertRow) && Can(cfg, w, RefuseRow)
    ensures Do(cfg, w, RefuseRow).db == w.db && Do(cfg, w, RefuseRow).ingested == w.ingested
    ensures Can(cfg, Do(cfg, w, RefuseRow), AckResult)
  {
    SameKeySameService(cfg, raw, w.results.entries[w.batch[0]], w.db.used);
  }

  /** What is settled of a result: in no state that a run reaches can a result
      with its key be inserted, and whatever the consumer does with such a copy
      short of the insert leaves tables and counter as they are. */
  lemma {:induction false} SettledForGood(cfg: Config, w: World, steps: seq<Step>, end: World, raw: Wire)
    requires Faithful(cfg.iso) && Inv(cfg, w) && Reaches(cfg, w, steps, end)
    requires GoodResult(cfg, raw, w.db.used) && Kept(cfg, w.db, raw)
    requires HeadIn(end, Fresh) && Result(cfg, end, end.batch[0]).Some?
    requires Result(cfg, end, end.batch[0]).value.key == ParseResult(cfg.iso, raw).value.key
    ensures !Can(cfg, end, InsertRow) && Can(cfg, end, RefuseRow)
    ensures Do(cfg, end, RefuseRow).db == end.db && Do(cfg, end, RefuseRow).ingested == end.ingested
    ensures Can(cfg, Do(cfg, end, RefuseRow), AckResult)
    decreases |steps|
  {
    if steps == [] {
      CopyIsRefused(cfg, w, raw);
    } else {
      KeptStays(cfg, w, steps[0], raw);
      StepKeeps(cfg, w, steps[0]);
      SettledForGood(cfg, Do(cfg, w, steps[0]), steps[1..], end, raw);
    }
  }
}
