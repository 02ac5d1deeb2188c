/** The result consumer as it runs: it takes a batch of entries in turn, inserts
    each row, calls the detector and acknowledges. */
module Consumer {
  import opened Wrappers
  import opened Codec
  import opened Database
  import opened Quorum
  import opened Streams
  import opened Detector
  import Ingest

  /** What the database and the clock do while one entry is handled. */
  datatype Fate = Fate(dbError: bool, detectorError: bool, at: Readings)

  /** The clock moves on from one entry to the next. */
  ghost predicate InTurn(fates: seq<Fate>, now: int) {
    forall i :: 0 <= i < |fates| ==>
      Ordered(fates[i].at) && now <= fates[i].at.window
      && (i > 0 ==> fates[i - 1].at.checked <= fates[i].at.window)
  }

  /** What handling entries means for the tables: an entry that cannot be parsed
      means nothing. */
  function EventsOf(iso: Iso, entries: seq<Wire>, fates: seq<Fate>): seq<Ingest.Event>
    requires |entries| == |fates|
  {
    if entries == [] then []
    else
      var n := |entries| - 1;
      var front := EventsOf(iso, entries[..n], fates[..n]);
      match ParseResult(iso, entries[n])
      case None => front
      case Some(row) =>
        front + [Ingest.Put(row, fates[n].dbError)] + [Ingest.Judge(Ingest.Given(fates[n].detectorError, fates[n].at))]
  }

  predicate IsAcknowledged(iso: Iso, raw: Wire, fate: Fate) {
    ParseResult(iso, raw) == None || Ingest.Acknowledged(fate.dbError)
  }

  class ResultConsumer {
    const iso: Iso
    const detector: IncidentDetector
    var results: Stream<Wire>

    constructor (iso: Iso, detector: IncidentDetector)
      ensures this.iso == iso && this.detector == detector && results == New()
    {
      this.iso := iso;
      this.detector := detector;
      results := New();
    }

    ghost function Store(): Ingest.Store
      reads detector, detector.metrics
    {
      Ingest.Store(detector.Tables(), detector.metrics.checksIngested, None)
    }

    /** The detector is ready, its locks are free and nothing is dated after `now`. */
    ghost predicate Ready(now: int)
      reads detector, detector.locks.Values
    {
      && detector.Ready() && Dated(detector.Tables(), now)
      && forall s :: s in detector.locks ==> !detector.locks[s].held
    }

    /** Whether the insert raises `IntegrityError`. */
    method ConstraintFails(row: CheckResult) returns (fails: bool)
      ensures fails <==> Conflicts(detector.Tables(), row)
    {
      fails := row.service !in detector.services;
      var i := 0;
      while i < |detector.rows| && !fails
        invariant 0 <= i <= |detector.rows|
        invariant !fails ==> row.service in detector.services
        invariant !fails ==> forall k :: 0 <= k < i ==> detector.rows[k].key != row.key
        invariant fails ==> Conflicts(detector.Tables(), row)
      {
        if detector.rows[i].key == row.key {
          fails := true;
        }
        i := i + 1;
      }
    }

    method Acknowledge(id: nat)
      modifies this`results
      ensures results == Ack(old(results), id)
    {
      results := Ack(results, id);
    }

    method InsertRow(row: CheckResult, ghost now: int)
      requires Ready(now) && !Conflicts(detector.Tables(), row)
      modifies detector`rows
      ensures Ready(now) && detector.Tables() == Insert(old(detector.Tables()), row)
    {
      InsertKeepsValid(detector.Tables(), row);
      detector.rows := detector.rows + [row];
    }

    /** The detector's part, which may raise before it changes anything. */
    method CallDetector(s: string, raises: bool, at: Readings, ghost now: int)
      requires Ready(now) && Ordered(at) && now <= at.window
      modifies detector, detector.metrics, detector.locks.Values
      ensures Ready(at.checked)
      ensures fresh(detector.locks.Values - old(detector.locks.Values))
      ensures detector.Tables() ==
        if raises then old(detector.Tables()) else Evaluate(detector.cfg, old(detector.Tables()), s, at)
      ensures detector.metrics.checksIngested == old(detector.metrics.checksIngested)
    {
      if !raises {
        EvaluateStaysDated(detector.cfg, detector.Tables(), s, at, now);
        detector.ProcessCheckResult(s, at);
      }
    }

    /** The row goes in, and the detector looks at its service. */
    method StoreRow(row: CheckResult, detectorError: bool, at: Readings, ghost now: int)
      requires Ready(now) && Ordered(at) && now <= at.window && !Conflicts(detector.Tables(), row)
      modifies detector, detector.metrics, detector.locks.Values
      ensures Ready(at.checked)
      ensures fresh(detector.locks.Values - old(detector.locks.Values))
      ensures detector.Tables() == Ingest.Stored(detector.cfg, old(detector.Tables()), row, detectorError, at)
      ensures detector.metrics.checksIngested == old(detector.metrics.checksIngested)
    {
      InsertRow(row, now);
      CallDetector(row.service, detectorError, at, now);
    }

    /** `_handle_result` after the parse: `settled` unless the insert failed for
        another reason than a constraint. */
    method HandleRow(row: CheckResult, fate: Fate, ghost now: int) returns (settled: bool)
      requires Ready(now) && Ordered(fate.at) && now <= fate.at.window
      modifies detector, detector.metrics, detector.locks.Values
      ensures Ready(fate.at.checked) && settled == Ingest.Acknowledged(fate.dbError)
      ensures fresh(detector.locks.Values - old(detector.locks.Values))
      ensures Store() == Ingest.Handle(detector.cfg, old(Store()), row, fate.dbError, fate.detectorError, fate.at)
    {
      settled := !fate.dbError;
      if settled {
        var fails := ConstraintFails(row);
        if !fails {
          StoreRow(row, fate.detectorError, fate.at, now);
          detector.metrics.checksIngested := detector.metrics.checksIngested + 1;
        }
      }
    }

    /** `_handle_result`. */
    method HandleResult(id: nat, raw: Wire, fate: Fate, ghost now: int)
      requires Ready(now) && Ordered(fate.at) && now <= fate.at.window
      modifies this`results, detector, detector.metrics, detector.locks.Values
      ensures Ready(fate.at.checked)
      ensures fresh(detector.locks.Values - old(detector.locks.Values))
      ensures results == if IsAcknowledged(iso, raw, fate) then Ack(old(results), id) else old(results)
      ensures Store() == match ParseResult(iso, raw)
                         case None => old(Store())
                         case Some(row) => Ingest.Handle(detector.cfg, old(Store()), row,
                                                         fate.dbError, fate.detectorError, fate.at)
    {
      match ParseResult(iso, raw)
      case None =>
        Acknowledge(id);
      case Some(row) =>
        var settled := HandleRow(row, fate, now);
        if settled {
          Acknowledge(id);
        }
    }

    /** The loop over one batch.  Tables and counter end as after the events of
        the batch in order, and the stream as `AckBatch` says. */
    method RunBatch(batch: seq<nat>, entries: seq<Wire>, fates: seq<Fate>, ghost now: int)
      requires |batch| == |entries| == |fates| && Ready(now) && InTurn(fates, now)
      modifies this`results, detector, detector.metrics, detector.locks.Values
      ensures Store() == Ingest.Run(detector.cfg, old(Store()), EventsOf(iso, entries, fates))
      ensures results == AckBatch(iso, old(results), batch, entries, fates)
    {
      ghost var later := now;
      var i := 0;
      assert entries[..0] == [] && fates[..0] == [];
      while i < |batch|
        invariant 0 <= i <= |batch|
        invariant Ready(later) && (i < |batch| ==> later <= fates[i].at.window)
        invariant fresh(detector.locks.Values - old(detector.locks.Values))
        invariant Store() == Ingest.Run(detector.cfg, old(Store()), EventsOf(iso, entries[..i], fates[..i]))
        invariant results == AckBatch(iso, old(results), batch[..i], entries[..i], fates[..i])
      {
        OneMoreEvent(detector.cfg, iso, old(Store()), entries, fates, i);
        OneMoreAck(iso, old(results), batch, entries, fates, i);
        HandleResult(batch[i], entries[i], fates[i], later);
        later := fates[i].at.checked;
        i := i + 1;
      }
      assert batch[..i] == batch && entries[..i] == entries && fates[..i] == fates;
    }

    /** `xreadgroup` with `>`: the next entries, at most `BATCH_SIZE` of them. */
    method ReadBatch() returns (batch: seq<nat>, entries: seq<Wire>)
      requires Streams.Valid(results)
      modifies this`results
      ensures Streams.Valid(results) && IsRead(old(results), results, batch, entries)
    {
      var n := NextBatch(results);
      OperationsKeepValid(results, map[], n, CONSUMER_NAME, 0, {});
      InBatch(results.cursor, n);
      batch := Numbers(results.cursor, n);
      entries := results.entries[results.cursor..][..n];
      results := Deliver(results, n, CONSUMER_NAME);
    }

    /** One turn of `run_result_consumer`: of the entries it reads, those it
        could not store stay pending and the others are acknowledged. */
    method Turn(fates: seq<Fate>, ghost now: int)
      requires Streams.Valid(results) && |fates| == NextBatch(results)
      requires Ready(now) && InTurn(fates, now)
      modifies this`results, detector, detector.metrics, detector.locks.Values
      ensures Streams.Valid(results)
      ensures results == AfterTurn(iso, old(results), fates)
      ensures Store() == Ingest.Run(detector.cfg, old(Store()), EventsOf(iso, NextEntries(old(results)), fates))
    {
      BatchIsPending(results);
      TurnKeepsValid(iso, results, fates);
      var batch, entries := ReadBatch();
      ReadIsDelivery(old(results), results, batch, entries);
      WhatABatchAcks(iso, results, batch, entries, fates);
      RunBatch(batch, entries, fates, now);
    }
  }

  const CONSUMER_NAME := "coordinator-0"
  const BATCH_SIZE := 50

  function NextBatch(s: Stream<Wire>): nat
    requires s.cursor <= |s.entries|
  {
    if |s.entries| - s.cursor < BATCH_SIZE then |s.entries| - s.cursor else BATCH_SIZE
  }

  function NextEntries(s: Stream<Wire>): seq<Wire>
    requires s.cursor <= |s.entries|
  {
    s.entries[s.cursor..][..NextBatch(s)]
  }

  function Numbers(start: nat, n: nat): seq<nat> {
    seq(n, i requires 0 <= i < n => start + i)
  }

  lemma InBatch(start: nat, n: nat)
    ensures forall id: nat :: id in Numbers(start, n) <==> start <= id < start + n
  {
    forall id: nat | start <= id < start + n
      ensures id in Numbers(start, n)
    {
      assert Numbers(start, n)[id - start] == id;
    }
  }

  /** What a read does: it takes at most 50 of the entries after the
      cursor, in order, and fewer only if there are no more; exactly those become
      pending, for this consumer; nothing else changes. */
  ghost predicate IsRead(s: Stream<Wire>, s': Stream<Wire>, batch: seq<nat>, entries: seq<Wire>) {
    && |batch| == |entries| <= 50
    && (|batch| < 50 ==> s'.cursor == |s'.entries|)
    && s'.cursor == s.cursor + |batch| <= |s.entries|
    && (forall i :: 0 <= i < |batch| ==> batch[i] == s.cursor + i && entries[i] == s.entries[batch[i]])
    && s'.entries == s.entries && s'.acked == s.acked
    && (forall id: nat :: id in s'.pending <==> id in s.pending || id in batch)
    && (forall id: nat :: id in s'.pending ==>
          s'.pending[id] == if id in batch then CONSUMER_NAME else s.pending[id])
  }

  lemma ReadIsInOrder(s: Stream<Wire>, s': Stream<Wire>, batch: seq<nat>, entries: seq<Wire>)
    requires Streams.Valid(s) && IsRead(s, s', batch, entries)
    ensures batch == Numbers(s.cursor, NextBatch(s)) && entries == NextEntries(s)
  {
    assert |batch| == NextBatch(s);
  }

  /** That determines it: it is the delivery of the next batch. */
  lemma ReadIsDelivery(s: Stream<Wire>, s': Stream<Wire>, batch: seq<nat>, entries: seq<Wire>)
    requires Streams.Valid(s) && IsRead(s, s', batch, entries)
    ensures batch == Numbers(s.cursor, NextBatch(s)) && entries == NextEntries(s)
    ensures s' == Deliver(s, NextBatch(s), CONSUMER_NAME)
  {
    ReadIsInOrder(s, s', batch, entries);
    assert s'.pending == Deliver(s, NextBatch(s), CONSUMER_NAME).pending by {
      InBatch(s.cursor, NextBatch(s));
    }
  }

  /** The numbers of the next entries that a turn acknowledges. */
  function Done(iso: Iso, s: Stream<Wire>, fates: seq<Fate>): set<nat>
    requires s.cursor <= |s.entries| && |fates| == NextBatch(s)
  {
    AckedIds(iso, Numbers(s.cursor, NextBatch(s)), NextEntries(s), fates)
  }

  /** The stream after a turn. */
  function AfterTurn(iso: Iso, s: Stream<Wire>, fates: seq<Fate>): Stream<Wire>
    requires s.cursor <= |s.entries| && |fates| == NextBatch(s)
  {
    var read := Deliver(s, NextBatch(s), CONSUMER_NAME);
    read.(pending := read.pending - Done(iso, s, fates), acked := read.acked + Done(iso, s, fates))
  }

  lemma BatchIsPending(s: Stream<Wire>)
    requires Streams.Valid(s)
    ensures var n := NextBatch(s);
      && (forall i :: 0 <= i < n ==> Numbers(s.cursor, n)[i] in Deliver(s, n, CONSUMER_NAME).pending)
      && (forall i, j :: 0 <= i < j < n ==> Numbers(s.cursor, n)[i] != Numbers(s.cursor, n)[j])
  {
  }

  lemma TurnKeepsValid(iso: Iso, s: Stream<Wire>, fates: seq<Fate>)
    requires Streams.Valid(s) && |fates| == NextBatch(s)
    ensures Streams.Valid(AfterTurn(iso, s, fates))
  {
    var n := NextBatch(s);
    var read := Deliver(s, n, CONSUMER_NAME);
    OperationsKeepValid(s, map[], n, CONSUMER_NAME, 0, {});
    forall id | id in Done(iso, s, fates)
      ensures id in read.pending && id !in s.acked
    {
      var i :| 0 <= i < n && id == Numbers(s.cursor, n)[i];
      assert id == s.cursor + i;
    }
  }

  /** What a turn does to one entry: what was not read is as it was, and what was
      read is acknowledged or pending according to its fate. */
  lemma TurnSettlesWhatItReads(iso: Iso, s: Stream<Wire>, fates: seq<Fate>, id: nat)
    requires Streams.Valid(s) && |fates| == NextBatch(s) && id < |s.entries|
    ensures var i := id - s.cursor;
      var s' := AfterTurn(iso, s, fates);
      if 0 <= i < |fates| then
        PlaceOf(s', id) == if IsAcknowledged(iso, s.entries[id], fates[i]) then Acknowledged else Pending
      else PlaceOf(s', id) == PlaceOf(s, id)
  {
    var n := NextBatch(s);
    var batch := Numbers(s.cursor, n);
    if s.cursor <= id < s.cursor + n {
      var i := id - s.cursor;
      assert batch[i] == id && NextEntries(s)[i] == s.entries[id];
      assert forall j :: 0 <= j < n && batch[j] == id ==> j == i;
    } else {
      assert forall j :: 0 <= j < n ==> batch[j] != id;
    }
  }

  /** The acknowledgements of a batch, one by one. */
  function AckBatch(iso: Iso, s: Stream<Wire>, batch: seq<nat>, entries: seq<Wire>, fates: seq<Fate>): Stream<Wire>
    requires |batch| == |entries| == |fates|
  {
    if batch == [] then s
    else
      var n := |batch| - 1;
      var before := AckBatch(iso, s, batch[..n], entries[..n], fates[..n]);
      if IsAcknowledged(iso, entries[n], fates[n]) then Ack(before, batch[n]) else before
  }

  lemma OneMoreAck(iso: Iso, s: Stream<Wire>, batch: seq<nat>, entries: seq<Wire>, fates: seq<Fate>, i: nat)
    requires |batch| == |entries| == |fates| && i < |batch|
    ensures var before := AckBatch(iso, s, batch[..i], entries[..i], fates[..i]);
      AckBatch(iso, s, batch[..i + 1], entries[..i + 1], fates[..i + 1])
      == if IsAcknowledged(iso, entries[i], fates[i]) then Ack(before, batch[i]) else before
  {
    assert batch[..i + 1][..i] == batch[..i];
    assert entries[..i + 1][..i] == entries[..i] && fates[..i + 1][..i] == fates[..i];
  }

  function AckedIds(iso: Iso, batch: seq<nat>, entries: seq<Wire>, fates: seq<Fate>): set<nat>
    requires |batch| == |entries| == |fates|
  {
    set i | 0 <= i < |batch| && IsAcknowledged(iso, entries[i], fates[i]) :: batch[i]
  }

  /** A batch moves exactly those of its entries from pending to acknowledged
      that do not parse, or whose insert met no error but a constraint. */
  lemma {:induction false} WhatABatchAcks(iso: Iso, s: Stream<Wire>, batch: seq<nat>, entries: seq<Wire>,
                                         fates: seq<Fate>)
    requires |batch| == |entries| == |fates|
    requires forall i :: 0 <= i < |batch| ==> batch[i] in s.pending
    requires forall i, j :: 0 <= i < j < |batch| ==> batch[i] != batch[j]
    ensures var ids := AckedIds(iso, batch, entries, fates);
      AckBatch(iso, s, batch, entries, fates) == s.(pending := s.pending - ids, acked := s.acked + ids)
  {
    var ids := AckedIds(iso, batch, entries, fates);
    if batch == [] {
      assert s.pending - ids == s.pending && s.acked + ids == s.acked;
    } else {
      var n := |batch| - 1;
      var before := AckedIds(iso, batch[..n], entries[..n], fates[..n]);
      WhatABatchAcks(iso, s, batch[..n], entries[..n], fates[..n]);
      assert batch[n] !in before && batch[n] in s.pending - before;
      if IsAcknowledged(iso, entries[n], fates[n]) {
        assert ids == before + {batch[n]};
        assert s.pending - before - {batch[n]} == s.pending - ids;
        assert s.acked + before + {batch[n]} == s.acked + ids;
      } else {
        assert ids == before;
      }
    }
  }

  lemma EvaluateStaysDated(cfg: Settings, db: Db, s: string, at: Readings, now: int)
    requires Database.Valid(db) && Dated(db, now) && Ordered(at) && now <= at.window
    ensures Database.Valid(Evaluate(cfg, db, s, at)) && Dated(Evaluate(cfg, db, s, at), at.checked)
  {
    EvaluateKeepsValid(cfg, db, s, at);
  }

  lemma OneMoreEvent(cfg: Settings, iso: Iso, st: Ingest.Store, entries: seq<Wire>, fates: seq<Fate>, i: nat)
    requires |entries| == |fates| && i < |entries|
    ensures Ingest.Run(cfg, st, EventsOf(iso, entries[..i + 1], fates[..i + 1])) ==
      var before := Ingest.Run(cfg, st, EventsOf(iso, entries[..i], fates[..i]));
      match ParseResult(iso, entries[i])
      case None => before
      case Some(row) => Ingest.Handle(cfg, before, row, fates[i].dbError, fates[i].detectorError, fates[i].at)
  {
    var events := EventsOf(iso, entries[..i], fates[..i]);
    assert entries[..i + 1][..i] == entries[..i] && fates[..i + 1][..i] == fates[..i];
    match ParseResult(iso, entries[i])
    case None =>
    case Some(row) =>
      var fate := fates[i];
      var put, judge := Ingest.Put(row, fate.dbError), Ingest.Judge(Ingest.Given(fate.detectorError, fate.at));
      Ingest.RunAppend(cfg, st, events, put);
      Ingest.RunAppend(cfg, st, events + [put], judge);
      Ingest.HandleIsPutThenJudge(cfg, Ingest.Run(cfg, st, events), row, fate.dbError, fate.detectorError, fate.at);
  }
}
