/** How many votes one checker node can have in the tables. */
module Votes {
  import opened Wrappers
  import opened Keys
  import opened Database
  import Scheduler

  /** A row written for a task of the given round: its key says so. */
  predicate VotedIn(row: CheckResult, round: int) {
    row.key == Key(row.service, row.node, round)
  }

  /** Every row has the key of its service, its node and some round. */
  ghost predicate Genuine(rows: seq<CheckResult>) {
    forall i :: 0 <= i < |rows| ==> PlainId(rows[i].service) && exists round :: VotedIn(rows[i], round)
  }

  /** One row at most for a service, a node and a round, and a new vote is turned
      away only by a row for the same three. */
  lemma OneVotePerRound(db: Db, i: nat, j: nat, round: int)
    requires UniqueKeys(db.rows) && i < |db.rows| && j < |db.rows|
    requires db.rows[i].service == db.rows[j].service && db.rows[i].node == db.rows[j].node
    requires VotedIn(db.rows[i], round) && VotedIn(db.rows[j], round)
    ensures i == j
  {
  }

  lemma OnlyTheSameVoteConflicts(db: Db, row: CheckResult, round: int) returns (i: nat)
    requires Genuine(db.rows) && PlainId(row.service) && VotedIn(row, round)
    requires row.service in db.services && Conflicts(db, row)
    ensures i < |db.rows| && db.rows[i].service == row.service && db.rows[i].node == row.node
      && VotedIn(db.rows[i], round)
  {
    i :| 0 <= i < |db.rows| && db.rows[i].key == row.key;
    var r :| VotedIn(db.rows[i], r);
    KeyInjective(db.rows[i].service, db.rows[i].node, r, row.service, row.node, round);
  }

  /** The rows of one service and node for rounds lo to hi. */
  ghost function Ballots(rows: seq<CheckResult>, service: string, node: string, lo: int, hi: int): set<int> {
    set i | 0 <= i < |rows| && exists round :: lo <= round <= hi && rows[i].key == Key(service, node, round)
  }

  /** Adding one round adds at most one row. */
  lemma OneMoreRound(rows: seq<CheckResult>, service: string, node: string, lo: int, hi: int)
    requires UniqueKeys(rows) && hi >= lo
    ensures |Ballots(rows, service, node, lo, hi)| <= |Ballots(rows, service, node, lo, hi - 1)| + 1
  {
    var all := Ballots(rows, service, node, lo, hi);
    var before := Ballots(rows, service, node, lo, hi - 1);
    if i :| 0 <= i < |rows| && rows[i].key == Key(service, node, hi) {
      forall j | j in all
        ensures j in before + {i}
      {
        var round :| lo <= round <= hi && rows[j].key == Key(service, node, round);
        assert round == hi ==> j == i;
      }
      Subset(all, before + {i});
    } else {
      Subset(all, before);
    }
  }

  lemma {:induction false} OneBallotPerRound(rows: seq<CheckResult>, service: string, node: string, lo: int, hi: int)
    requires UniqueKeys(rows) && hi >= lo - 1
    ensures |Ballots(rows, service, node, lo, hi)| <= hi - lo + 1
    decreases hi - lo + 1
  {
    if hi < lo {
      assert Ballots(rows, service, node, lo, hi) == {};
    } else {
      OneBallotPerRound(rows, service, node, lo, hi - 1);
      OneMoreRound(rows, service, node, lo, hi);
    }
  }

  lemma {:induction false} Subset(a: set<int>, b: set<int>)
    requires a <= b
    ensures |a| <= |b|
  {
    assert b == a + (b - a);
  }

  /** The rows whose task was published in [from, from + length] by a job whose
      rounds have the given interval. */
  ghost function VotesPublishedIn(rows: seq<CheckResult>, service: string, node: string, from: int, length: nat,
                                  intervalSecs: int): set<int>
    requires intervalSecs > 0
  {
    set i | 0 <= i < |rows| &&
      exists t :: from <= t <= from + length && rows[i].key == Key(service, node, Scheduler.Round(t, intervalSecs))
  }

  lemma RoundAtLeast(t: int, intervalSecs: int, k: int)
    requires intervalSecs > 0 && k * intervalSecs <= t
    ensures k <= t / intervalSecs
  {
    var r := t / intervalSecs;
    assert t < (r + 1) * intervalSecs;
    assert k > r ==> k * intervalSecs >= (r + 1) * intervalSecs;
  }

  lemma RoundBelow(t: int, intervalSecs: int, k: int)
    requires intervalSecs > 0 && t < k * intervalSecs
    ensures t / intervalSecs < k
  {
    var r := t / intervalSecs;
    assert r * intervalSecs <= t;
    assert r >= k ==> r * intervalSecs >= k * intervalSecs;
  }

  /** The number of rounds that the instants of a window of this length can meet. */
  function Rounds(length: nat, intervalSecs: int): int
    requires intervalSecs > 0
  {
    (length + intervalSecs - 1) / intervalSecs + 1
  }

  lemma RoundsInWindow(from: int, length: nat, intervalSecs: int, t: int)
    requires intervalSecs > 0 && from <= t <= from + length
    ensures Scheduler.Round(from, intervalSecs) <= Scheduler.Round(t, intervalSecs)
         < Scheduler.Round(from, intervalSecs) + Rounds(length, intervalSecs)
  {
    var q := from / intervalSecs;
    var w := (length + intervalSecs - 1) / intervalSecs;
    assert q * intervalSecs <= from < q * intervalSecs + intervalSecs;
    assert length + intervalSecs - 1 < w * intervalSecs + intervalSecs;
    assert (q + w + 1) * intervalSecs == q * intervalSecs + w * intervalSecs + intervalSecs;
    RoundAtLeast(t, intervalSecs, q);
    RoundBelow(t, intervalSecs, q + w + 1);
  }

  lemma RoundsAtMost(length: nat, intervalSecs: int)
    requires intervalSecs > 0
    ensures 1 <= Rounds(length, intervalSecs) <= length / intervalSecs + 2
  {
    var w := length / intervalSecs;
    assert length < w * intervalSecs + intervalSecs;
    assert (w + 2) * intervalSecs == w * intervalSecs + 2 * intervalSecs;
    RoundBelow(length + intervalSecs - 1, intervalSecs, w + 2);
  }

  /** One node has at most this many rows for the tasks of a service published
      within any window of the given length. */
  lemma VoteBound(rows: seq<CheckResult>, service: string, node: string, from: int, length: nat, intervalSecs: int)
    requires UniqueKeys(rows) && intervalSecs > 0
    ensures |VotesPublishedIn(rows, service, node, from, length, intervalSecs)|
         <= Rounds(length, intervalSecs) <= length / intervalSecs + 2
  {
    var lo := Scheduler.Round(from, intervalSecs);
    var hi := lo + Rounds(length, intervalSecs) - 1;
    var votes := VotesPublishedIn(rows, service, node, from, length, intervalSecs);
    forall i | i in votes
      ensures i in Ballots(rows, service, node, lo, hi)
    {
      var t :| from <= t <= from + length && rows[i].key == Key(service, node, Scheduler.Round(t, intervalSecs));
      RoundsInWindow(from, length, intervalSecs, t);
    }
    RoundsAtMost(length, intervalSecs);
    OneBallotPerRound(rows, service, node, lo, hi);
    Subset(votes, Ballots(rows, service, node, lo, hi));
  }

  /** Rows like `row`, one for each of the rounds 0 to n - 1. */
  function OnePerRound(row: CheckResult, n: nat): seq<CheckResult> {
    seq(n, k requires 0 <= k < n => row.(key := Key(row.service, row.node, k)))
  }

  lemma OnePerRoundIsGenuine(row: CheckResult, n: nat)
    requires PlainId(row.service)
    ensures UniqueKeys(OnePerRound(row, n)) && Genuine(OnePerRound(row, n))
  {
    var rows := OnePerRound(row, n);
    forall i, j | 0 <= i < j < n
      ensures rows[i].key != rows[j].key
    {
      KeyInjective(row.service, row.node, i, row.service, row.node, j);
    }
    forall i | 0 <= i < n
      ensures exists round :: VotedIn(rows[i], round)
    {
      assert VotedIn(rows[i], i);
    }
  }

  lemma {:induction false} IndexSet(n: nat) returns (s: set<int>)
    ensures |s| == n && forall i :: i in s <==> 0 <= i < n
  {
    s := {};
    if n > 0 {
      var smaller := IndexSet(n - 1);
      s := smaller + {n - 1};
    }
  }

  lemma StartOfRound(length: nat, intervalSecs: int, k: int)
    requires intervalSecs > 0 && 0 < k < Rounds(length, intervalSecs)
    ensures intervalSecs <= k * intervalSecs <= length + intervalSecs - 1
    ensures Scheduler.InBucket(k * intervalSecs, intervalSecs, k)
  {
    var w := (length + intervalSecs - 1) / intervalSecs;
    assert w * intervalSecs <= length + intervalSecs - 1;
    assert (w - k) * intervalSecs >= 0 && (k - 1) * intervalSecs >= 0;
    assert (k + 1) * intervalSecs == k * intervalSecs + intervalSecs;
  }

  /** An instant of the k-th of the rounds met by the window from the last second
      of round 0. */
  lemma InstantOfRound(length: nat, intervalSecs: int, k: int) returns (t: int)
    requires intervalSecs > 0 && 0 <= k < Rounds(length, intervalSecs)
    ensures intervalSecs - 1 <= t <= intervalSecs - 1 + length && Scheduler.Round(t, intervalSecs) == k
  {
    if k == 0 {
      t := intervalSecs - 1;
      Scheduler.BucketOf(t, intervalSecs, 0);
    } else {
      t := k * intervalSecs;
      StartOfRound(length, intervalSecs, k);
      Scheduler.BucketOf(t, intervalSecs, k);
    }
  }

  /** The bound is exact: for every length and interval there are a window and a
      table with that many votes of one node. */
  lemma BoundIsReached(row: CheckResult, length: nat, intervalSecs: int)
    returns (rows: seq<CheckResult>, from: int)
    requires intervalSecs > 0 && PlainId(row.service)
    ensures UniqueKeys(rows) && Genuine(rows)
    ensures |VotesPublishedIn(rows, row.service, row.node, from, length, intervalSecs)|
         == Rounds(length, intervalSecs)
  {
    RoundsAtMost(length, intervalSecs);
    var n := Rounds(length, intervalSecs);
    rows, from := OnePerRound(row, n), intervalSecs - 1;
    OnePerRoundIsGenuine(row, n);
    var all := IndexSet(n);
    forall i | i in all
      ensures i in VotesPublishedIn(rows, row.service, row.node, from, length, intervalSecs)
    {
      var t := InstantOfRound(length, intervalSecs, i);
      assert rows[i].key == Key(row.service, row.node, Scheduler.Round(t, intervalSecs));
    }
    assert VotesPublishedIn(rows, row.service, row.node, from, length, intervalSecs) == all;
  }

  // ---- Votes lost when a job fires more often than its rounds change ----

  /** The key of one node's result for the task a job publishes at time t. */
  function KeyAt(kwargs: Scheduler.Service, node: string, t: int): string
    requires kwargs.intervalSecs > 0
  {
    Key(kwargs.id, node, Scheduler.Enqueue(kwargs, t).round)
  }

  /** The results of two firings have the same key exactly when the gap between
      them ends within the bucket. */
  lemma SameKeyIff(kwargs: Scheduler.Service, node: string, t: int, gap: nat)
    requires kwargs.intervalSecs > 0 && PlainId(kwargs.id)
    ensures KeyAt(kwargs, node, t) == KeyAt(kwargs, node, t + gap)
      <==> t % kwargs.intervalSecs + gap < kwargs.intervalSecs
  {
    var i := kwargs.intervalSecs;
    Scheduler.GapWithinBucket(t, gap, i);
    KeyInjective(kwargs.id, node, Scheduler.Round(t, i), kwargs.id, node, Scheduler.Round(t + gap, i));
  }

  /** The first result for time t can leave the second one no place. */
  ghost predicate LosesAVote(kwargs: Scheduler.Service, node: string, t: int, gap: int)
    requires kwargs.intervalSecs > 0
  {
    forall db: Db, second: CheckResult ::
      HasKey(db.rows, KeyAt(kwargs, node, t)) && second.key == KeyAt(kwargs, node, t + gap) ==> Conflicts(db, second)
  }

  lemma LosesAVoteIff(kwargs: Scheduler.Service, node: string, t: int, gap: nat)
    requires kwargs.intervalSecs > 0 && PlainId(kwargs.id)
    ensures LosesAVote(kwargs, node, t, gap) <==> t % kwargs.intervalSecs + gap < kwargs.intervalSecs
  {
    SameKeyIff(kwargs, node, t, gap);
    if KeyAt(kwargs, node, t) != KeyAt(kwargs, node, t + gap) {
      var first := CheckResult(kwargs.id, node, t, "up", None, None, None, None, KeyAt(kwargs, node, t));
      var second := first.(key := KeyAt(kwargs, node, t + gap));
      var db := EMPTY.(services := {kwargs.id}, rows := [first]);
      assert db.rows[0].key == KeyAt(kwargs, node, t);
      assert !Conflicts(db, second);
    }
  }

  /** A job loses a vote at some firing exactly when it fires more often than the
      interval in its arguments: the second result of a node is then refused. */
  lemma JobLosesVotesIff(job: Scheduler.Job, node: string)
    requires job.kwargs.Some? && job.kwargs.value.intervalSecs > 0 && PlainId(job.kwargs.value.id)
    requires job.interval >= 0
    ensures (exists t :: LosesAVote(job.kwargs.value, node, t, job.interval))
      <==> job.interval < job.kwargs.value.intervalSecs
  {
    var kwargs := job.kwargs.value;
    if job.interval < kwargs.intervalSecs {
      LosesAVoteIff(kwargs, node, 0, job.interval);
      assert LosesAVote(kwargs, node, 0, job.interval);
    } else {
      forall t ensures !LosesAVote(kwargs, node, t, job.interval) {
        LosesAVoteIff(kwargs, node, t, job.interval);
      }
    }
  }
}
