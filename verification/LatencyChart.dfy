/** The data of the latency chart: checks grouped by the minute of the day they
    are shown under, with two percentiles for each minute. */
module LatencyChart {
  import opened Wrappers

  /** `minute` is the "HH:mm" text as a number; the two have the same order. */
  datatype Check = Check(minute: nat, responseMs: Option<int>, status: string)

  datatype DataPoint = DataPoint(minute: nat, p50: Option<int>, p99: Option<int>, statuses: seq<string>)

  // ---- Ranks ----

  predicate Ascending(s: seq<int>) {
    forall i, j :: 0 <= i < j < |s| ==> s[i] <= s[j]
  }

  function Place(s: seq<int>, x: int): (r: seq<int>)
    requires Ascending(s)
    ensures Ascending(r) && |r| == |s| + 1 && forall y :: y in r <==> y in s || y == x
  {
    if s == [] then [x]
    else if x <= s[0] then [x] + s
    else
      var rest := Place(s[1..], x);
      assert s == [s[0]] + s[1..];
      assert forall i :: 0 <= i < |rest| ==> rest[i] in rest;
      [s[0]] + rest
  }

  /** The values in ascending order. */
  function Sorted(vals: seq<int>): (r: seq<int>)
    ensures Ascending(r) && |r| == |vals| && forall y :: y in r <==> y in vals
  {
    if vals == [] then []
    else
      assert vals == [vals[0]] + vals[1..];
      Place(Sorted(vals[1..]), vals[0])
  }

  function AtMost(vals: seq<int>, v: int): nat {
    if vals == [] then 0 else AtMost(vals[1..], v) + (if vals[0] <= v then 1 else 0)
  }

  lemma {:induction false} AtMostPlace(s: seq<int>, x: int, v: int)
    requires Ascending(s)
    ensures AtMost(Place(s, x), v) == AtMost(s, v) + (if x <= v then 1 else 0)
  {
    if s == [] {
    } else if x <= s[0] {
      assert ([x] + s)[1..] == s;
    } else {
      AtMostPlace(s[1..], x, v);
      assert ([s[0]] + Place(s[1..], x))[1..] == Place(s[1..], x);
    }
  }

  lemma {:induction false} AtMostSorted(vals: seq<int>, v: int)
    ensures AtMost(Sorted(vals), v) == AtMost(vals, v)
  {
    if vals != [] {
      AtMostSorted(vals[1..], v);
      AtMostPlace(Sorted(vals[1..]), vals[0], v);
    }
  }

  lemma {:induction false} AtMostAscending(s: seq<int>, k: nat)
    requires Ascending(s) && k < |s|
    ensures AtMost(s, s[k]) >= k + 1
    ensures forall v :: v < s[k] ==> AtMost(s, v) <= k
  {
    if k == 0 {
      NoneBelow(s, s[0]);
    } else {
      assert s[1..][k - 1] == s[k];
      AtMostAscending(s[1..], k - 1);
    }
  }

  lemma {:induction false} NoneBelow(s: seq<int>, low: int)
    requires forall i :: 0 <= i < |s| ==> low <= s[i]
    ensures forall v :: v < low ==> AtMost(s, v) == 0
  {
    if s != [] {
      NoneBelow(s[1..], low);
    }
  }

  /** The value at rank k is one of the values; more than k of them are at most
      it, and for any smaller bound at most k are. */
  lemma RankSplits(vals: seq<int>, k: nat)
    requires k < |vals|
    ensures Sorted(vals)[k] in vals
    ensures AtMost(vals, Sorted(vals)[k]) >= k + 1
    ensures forall v :: v < Sorted(vals)[k] ==> AtMost(vals, v) <= k
  {
    var s := Sorted(vals);
    assert s[k] in s;
    AtMostAscending(s, k);
    forall v ensures AtMost(s, v) == AtMost(vals, v) {
      AtMostSorted(vals, v);
    }
  }

  function P50(vals: seq<int>): Option<int> {
    if vals == [] then None else Some(Sorted(vals)[|vals| / 2])
  }

  function P99(vals: seq<int>): Option<int> {
    if vals == [] then None else Some(Sorted(vals)[|vals| * 99 / 100])
  }

  /** `v` has rank k: it is one of the values, more than k of them are at most it,
      and for any smaller bound at most k are. */
  ghost predicate HasRank(vals: seq<int>, v: int, k: nat) {
    v in vals && AtMost(vals, v) >= k + 1 && forall u :: u < v ==> AtMost(vals, u) <= k
  }

  /** The median and the 99th percentile are the values of rank n/2 and 99n/100,
      and in order; a bucket without values has neither. */
  lemma Percentiles(vals: seq<int>)
    ensures vals == [] ==> P50(vals) == None && P99(vals) == None
    ensures vals != [] ==>
      && P50(vals).Some? && HasRank(vals, P50(vals).value, |vals| / 2)
      && P99(vals).Some? && HasRank(vals, P99(vals).value, |vals| * 99 / 100)
      && P50(vals).value <= P99(vals).value
  {
    if vals != [] {
      RankSplits(vals, |vals| / 2);
      RankSplits(vals, |vals| * 99 / 100);
    }
  }

  /** A rank belongs to one value. */
  lemma RankIsUnique(vals: seq<int>, u: int, v: int, k: nat)
    requires HasRank(vals, u, k) && HasRank(vals, v, k)
    ensures u == v
  {
    assert u < v ==> AtMost(vals, u) <= k;
    assert v < u ==> AtMost(vals, v) <= k;
  }

  // ---- Buckets ----

  function LatencyOf(c: Check, minute: nat): seq<int> {
    if c.minute == minute && c.responseMs.Some? then [c.responseMs.value] else []
  }

  function StatusOf(c: Check, minute: nat): seq<string> {
    if c.minute == minute then [c.status] else []
  }

  function Latencies(checks: seq<Check>, minute: nat): seq<int> {
    if checks == [] then []
    else Latencies(checks[..|checks| - 1], minute) + LatencyOf(checks[|checks| - 1], minute)
  }

  function Statuses(checks: seq<Check>, minute: nat): seq<string> {
    if checks == [] then []
    else Statuses(checks[..|checks| - 1], minute) + StatusOf(checks[|checks| - 1], minute)
  }

  predicate Shown(checks: seq<Check>, minute: nat) {
    exists i :: 0 <= i < |checks| && checks[i].minute == minute
  }

  function PointOf(checks: seq<Check>, minute: nat): DataPoint {
    var vals := Latencies(checks, minute);
    DataPoint(minute, P50(vals), P99(vals), Statuses(checks, minute))
  }

  /** The two records hold just the checks seen so far. */
  ghost predicate Filled(checks: seq<Check>, buckets: map<nat, seq<int>>, statuses: map<nat, seq<string>>) {
    && buckets.Keys == statuses.Keys
    && (forall m: nat :: m in buckets <==> Shown(checks, m))
    && (forall m: nat :: m in buckets ==> buckets[m] == Latencies(checks, m))
    && (forall m: nat :: m in statuses ==> statuses[m] == Statuses(checks, m))
  }

  /** The loop that fills the buckets. */
  method FillBuckets(checks: seq<Check>) returns (buckets: map<nat, seq<int>>, statuses: map<nat, seq<string>>)
    ensures Filled(checks, buckets, statuses)
  {
    buckets, statuses := map[], map[];
    var i := 0;
    while i < |checks|
      invariant 0 <= i <= |checks|
      invariant Filled(checks[..i], buckets, statuses)
    {
      var c := checks[i];
      NextCheckFills(checks, i, buckets, statuses);
      var vals, words := [], [];
      if c.minute in buckets {
        vals, words := buckets[c.minute], statuses[c.minute];
      }
      buckets := buckets[c.minute := if c.responseMs.Some? then vals + [c.responseMs.value] else vals];
      statuses := statuses[c.minute := words + [c.status]];
      i := i + 1;
    }
    assert checks[..i] == checks;
  }

  lemma NextCheckFills(checks: seq<Check>, i: nat, buckets: map<nat, seq<int>>, statuses: map<nat, seq<string>>)
    requires i < |checks| && Filled(checks[..i], buckets, statuses)
    ensures var c := checks[i];
      var vals := if c.minute in buckets then buckets[c.minute] else [];
      var words := if c.minute in buckets then statuses[c.minute] else [];
      Filled(checks[..i + 1],
             buckets[c.minute := if c.responseMs.Some? then vals + [c.responseMs.value] else vals],
             statuses[c.minute := words + [c.status]])
  {
    var c := checks[i];
    var vals := if c.minute in buckets then buckets[c.minute] else [];
    var words := if c.minute in buckets then statuses[c.minute] else [];
    var buckets' := buckets[c.minute := if c.responseMs.Some? then vals + [c.responseMs.value] else vals];
    var statuses' := statuses[c.minute := words + [c.status]];
    assert buckets'.Keys == statuses'.Keys;
    forall m: nat
      ensures m in buckets' <==> Shown(checks[..i + 1], m)
    {
      NextCheck(checks, i, m);
    }
    forall m: nat | m in buckets'
      ensures buckets'[m] == Latencies(checks[..i + 1], m) && statuses'[m] == Statuses(checks[..i + 1], m)
    {
      NextCheck(checks, i, m);
    }
  }

  lemma NextCheck(checks: seq<Check>, i: nat, m: nat)
    requires i < |checks|
    ensures Latencies(checks[..i + 1], m) == Latencies(checks[..i], m) + LatencyOf(checks[i], m)
    ensures Statuses(checks[..i + 1], m) == Statuses(checks[..i], m) + StatusOf(checks[i], m)
    ensures Shown(checks[..i + 1], m) <==> Shown(checks[..i], m) || checks[i].minute == m
    ensures !Shown(checks[..i], m) ==> Latencies(checks[..i], m) == [] && Statuses(checks[..i], m) == []
  {
    var front, more := checks[..i], checks[..i + 1];
    assert more[..i] == front && more[i] == checks[i];
    if !Shown(front, m) {
      NothingShown(front, m);
    }
    if k :| 0 <= k < i && front[k].minute == m {
      assert more[k].minute == m;
    }
    if k :| 0 <= k < i && more[k].minute == m {
      assert front[k].minute == m;
    }
  }

  lemma {:induction false} NothingShown(checks: seq<Check>, m: nat)
    requires !Shown(checks, m)
    ensures Latencies(checks, m) == [] && Statuses(checks, m) == []
  {
    if checks != [] {
      var front := checks[..|checks| - 1];
      assert forall i :: 0 <= i < |front| ==> front[i] == checks[i];
      NothingShown(front, m);
    }
  }

  /** The minutes done so far are those of the points, in order, and precede
      the minutes left. */
  ghost predicate InOrder(points: seq<DataPoint>, done: set<nat>, left: set<nat>) {
    && (forall i, j :: 0 <= i < j < |points| ==> points[i].minute < points[j].minute)
    && (forall i :: 0 <= i < |points| ==> points[i].minute in done)
    && (forall m :: m in done ==> exists i :: 0 <= i < |points| && points[i].minute == m)
    && (forall d, m :: d in done && m in left ==> d < m)
  }

  lemma NextPoint(points: seq<DataPoint>, done: set<nat>, left: set<nat>, p: DataPoint)
    requires InOrder(points, done, left) && p.minute in left
    requires forall x :: x in left ==> p.minute <= x
    ensures InOrder(points + [p], done + {p.minute}, left - {p.minute})
  {
    var more := points + [p];
    assert more[|points|] == p;
    forall m | m in done + {p.minute}
      ensures exists i :: 0 <= i < |more| && more[i].minute == m
    {
      if m in done {
        var i :| 0 <= i < |points| && points[i].minute == m;
        assert more[i].minute == m;
      }
    }
  }

  ghost predicate AllPoints(checks: seq<Check>, points: seq<DataPoint>) {
    forall i :: 0 <= i < |points| ==> points[i] == PointOf(checks, points[i].minute)
  }

  /** `buildChartData`: one point for each minute that has checks, in order. */
  method BuildChartData(checks: seq<Check>) returns (points: seq<DataPoint>)
    ensures forall m: nat :: Shown(checks, m) <==> exists i :: 0 <= i < |points| && points[i].minute == m
    ensures forall i, j :: 0 <= i < j < |points| ==> points[i].minute < points[j].minute
    ensures AllPoints(checks, points)
  {
    var buckets, statuses := FillBuckets(checks);
    points := [];
    var left := buckets.Keys;
    while left != {}
      invariant left <= buckets.Keys
      invariant InOrder(points, buckets.Keys - left, left)
      invariant AllPoints(checks, points)
    {
      var m := Earliest(left);
      var p := DataPoint(m, P50(buckets[m]), P99(buckets[m]), statuses[m]);
      OnePoint(checks, buckets, statuses, points, left, m);
      points := points + [p];
      left := left - {m};
    }
    assert buckets.Keys - left == buckets.Keys;
    PointsAreTheMinutes(checks, buckets, statuses, points);
  }

  /** The first of the minutes left, in the order of their texts. */
  method Earliest(left: set<nat>) returns (m: nat)
    requires left != {}
    ensures m in left && forall x :: x in left ==> m <= x
  {
    ghost var least := Least(left);
    m :| m in left && forall x :: x in left ==> m <= x;
  }

  lemma OnePoint(checks: seq<Check>, buckets: map<nat, seq<int>>, statuses: map<nat, seq<string>>,
                 points: seq<DataPoint>, left: set<nat>, m: nat)
    requires Filled(checks, buckets, statuses) && left <= buckets.Keys && m in left
    requires InOrder(points, buckets.Keys - left, left) && AllPoints(checks, points)
    requires forall x :: x in left ==> m <= x
    ensures var more := points + [DataPoint(m, P50(buckets[m]), P99(buckets[m]), statuses[m])];
      InOrder(more, buckets.Keys - (left - {m}), left - {m}) && AllPoints(checks, more)
  {
    var p := PointOf(checks, m);
    assert p == DataPoint(m, P50(buckets[m]), P99(buckets[m]), statuses[m]);
    NextPoint(points, buckets.Keys - left, left, p);
    assert buckets.Keys - left + {m} == buckets.Keys - (left - {m});
    OnePointMore(checks, points, p);
  }

  lemma OnePointMore(checks: seq<Check>, points: seq<DataPoint>, p: DataPoint)
    requires AllPoints(checks, points) && p == PointOf(checks, p.minute)
    ensures AllPoints(checks, points + [p])
  {
  }

  lemma PointsAreTheMinutes(checks: seq<Check>, buckets: map<nat, seq<int>>, statuses: map<nat, seq<string>>,
                            points: seq<DataPoint>)
    requires Filled(checks, buckets, statuses) && InOrder(points, buckets.Keys, {})
    ensures forall m: nat :: Shown(checks, m) <==> exists i :: 0 <= i < |points| && points[i].minute == m
  {
    forall m: nat
      ensures Shown(checks, m) <==> exists i :: 0 <= i < |points| && points[i].minute == m
    {
      assert m in buckets.Keys <==> Shown(checks, m);
    }
  }

  lemma {:induction false} Least(s: set<nat>) returns (m: nat)
    requires s != {}
    ensures m in s && forall x :: x in s ==> m <= x
  {
    var first :| first in s;
    var rest := s - {first};
    m := first;
    if rest != {} {
      var other := Least(rest);
      m := if first < other then first else other;
    }
    forall x | x in s
      ensures m <= x
    {
      assert x == first || x in rest;
    }
  }

  /** Every check is in the bucket of its minute, with its status and, if it has
      one, its latency. */
  lemma {:induction false} EveryCheckIsShown(checks: seq<Check>, i: nat)
    requires i < |checks|
    ensures Shown(checks, checks[i].minute) && checks[i].status in Statuses(checks, checks[i].minute)
    ensures checks[i].responseMs.Some? ==> checks[i].responseMs.value in Latencies(checks, checks[i].minute)
    decreases |checks|
  {
    var n := |checks| - 1;
    if i < n {
      EveryCheckIsShown(checks[..n], i);
    }
  }

  /** The checks of a minute, and those of them with a latency. */
  function ChecksOf(checks: seq<Check>, m: nat): set<int> {
    set i | 0 <= i < |checks| && checks[i].minute == m
  }

  function TimedChecksOf(checks: seq<Check>, m: nat): set<int> {
    set i | 0 <= i < |checks| && checks[i].minute == m && checks[i].responseMs.Some?
  }

  lemma ChecksOfLast(checks: seq<Check>, m: nat)
    requires checks != []
    ensures var n := |checks| - 1;
      && n !in ChecksOf(checks[..n], m) && n !in TimedChecksOf(checks[..n], m)
      && ChecksOf(checks, m) == ChecksOf(checks[..n], m) + (if checks[n].minute == m then {n} else {})
      && TimedChecksOf(checks, m)
           == TimedChecksOf(checks[..n], m)
              + (if checks[n].minute == m && checks[n].responseMs.Some? then {n} else {})
  {
    var n := |checks| - 1;
    forall i | 0 <= i < n
      ensures i in ChecksOf(checks, m) <==> i in ChecksOf(checks[..n], m)
      ensures i in TimedChecksOf(checks, m) <==> i in TimedChecksOf(checks[..n], m)
    {
      assert checks[..n][i] == checks[i];
    }
  }

  /** And nothing else is there: a minute shows one status for each of its checks
      and one latency for each that has one. */
  lemma {:induction false} OnlyChecksAreShown(checks: seq<Check>, m: nat)
    ensures |Statuses(checks, m)| == |ChecksOf(checks, m)|
    ensures |Latencies(checks, m)| == |TimedChecksOf(checks, m)|
  {
    if checks == [] {
      assert ChecksOf(checks, m) == {} && TimedChecksOf(checks, m) == {};
    } else {
      OnlyChecksAreShown(checks[..|checks| - 1], m);
      ChecksOfLast(checks, m);
    }
  }

  lemma {:induction false} LatencyIsOfACheck(checks: seq<Check>, m: nat, v: int)
    requires v in Latencies(checks, m)
    ensures exists i :: 0 <= i < |checks| && checks[i].minute == m && checks[i].responseMs == Some(v)
  {
    var n := |checks| - 1;
    if v in Latencies(checks[..n], m) {
      LatencyIsOfACheck(checks[..n], m, v);
      var i :| 0 <= i < n && checks[..n][i].minute == m && checks[..n][i].responseMs == Some(v);
      assert checks[i].responseMs == Some(v);
    } else {
      assert v in LatencyOf(checks[n], m);
    }
  }

  /** What a point of the chart says of its minute. */
  lemma PointsTellTheirMinutes(checks: seq<Check>, points: seq<DataPoint>, k: nat)
    requires AllPoints(checks, points) && k < |points|
    ensures var p := points[k];
      var vals := Latencies(checks, p.minute);
      && p.statuses == Statuses(checks, p.minute)
      && (p.p50 == None <==> vals == []) && (p.p99 == None <==> vals == [])
      && (vals != [] ==>
            && HasRank(vals, p.p50.value, |vals| / 2) && HasRank(vals, p.p99.value, |vals| * 99 / 100)
            && p.p50.value <= p.p99.value)
  {
    Percentiles(Latencies(checks, points[k].minute));
  }
}
