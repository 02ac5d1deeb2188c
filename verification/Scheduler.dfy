/** The job table: one interval job per active service, brought in line with the
    database every minute, and the round number a job stamps on its tasks. */
module Scheduler {
  import opened Wrappers
  import Json
  import Codec

  datatype Service = Service(
    id: string,
    url: string,
    verb: string,
    intervalSecs: int,
    timeoutMs: int,
    expectedStatus: int,
    headers: Json.Headers,
    body: Option<string>)

  /** A job's interval trigger, and the keyword arguments it was added with:
      those are the service as it was at that time.  The job that runs the
      reconciliation itself has none. */
  datatype Job = Job(interval: int, jitter: int, kwargs: Option<Service>)

  type Jobs = map<string, Job>

  const PREFIX := "check:"

  function JobId(service: string): string {
    PREFIX + service
  }

  predicate IsCheckJob(id: string) {
    |id| >= |PREFIX| && id[..|PREFIX|] == PREFIX
  }

  /** `removeprefix`. */
  function ServiceOfJob(id: string): string
    requires IsCheckJob(id)
  {
    id[|PREFIX|..]
  }

  lemma JobIds(service: string)
    ensures IsCheckJob(JobId(service)) && ServiceOfJob(JobId(service)) == service
  {
  }

  lemma JobIdOf(id: string)
    requires IsCheckJob(id)
    ensures JobId(ServiceOfJob(id)) == id
  {
  }

  ghost predicate DistinctIds(services: seq<Service>) {
    forall i, j :: 0 <= i < j < |services| ==> services[i].id != services[j].id
  }

  /** The job a service has after reconciliation: a new one, or the old one with
      its trigger replaced if the interval changed.  The arguments stay. */
  function Updated(jobs: Jobs, svc: Service, jitter: int): Job {
    var id := JobId(svc.id);
    if id !in jobs then Job(svc.intervalSecs, jitter, Some(svc))
    else if jobs[id].interval != svc.intervalSecs then
      jobs[id].(interval := svc.intervalSecs, jitter := jitter)
    else jobs[id]
  }

  predicate IsActive(services: seq<Service>, id: string) {
    exists i :: 0 <= i < |services| && services[i].id == id
  }

  /** `jobs'` is `jobs` brought in line with the active services. */
  ghost predicate InLine(jobs: Jobs, services: seq<Service>, jitter: seq<int>, jobs': Jobs)
    requires |jitter| == |services|
  {
    && (forall id :: id in jobs' <==>
          if IsCheckJob(id) then IsActive(services, ServiceOfJob(id)) else id in jobs)
    && (forall id :: id in jobs && !IsCheckJob(id) ==> id in jobs' && jobs'[id] == jobs[id])
    && (forall i :: 0 <= i < |services| ==>
          JobId(services[i].id) in jobs' && jobs'[JobId(services[i].id)] == Updated(jobs, services[i], jitter[i]))
  }

  class JobTable {
    var jobs: Jobs

    constructor ()
      ensures jobs == map["sync_jobs" := Job(60, 0, None)]
    {
      jobs := map["sync_jobs" := Job(60, 0, None)];
    }

    method RemoveJob(id: string)
      requires id in jobs
      modifies this
      ensures jobs == old(jobs) - {id}
    {
      jobs := jobs - {id};
    }

    /** The services that have a check job. */
    method ExistingIds() returns (ids: set<string>)
      ensures forall s :: s in ids <==> JobId(s) in jobs
    {
      ids := {};
      var left := jobs.Keys;
      while left != {}
        invariant left <= jobs.Keys
        invariant forall s :: s in ids <==> JobId(s) in jobs && JobId(s) !in left
      {
        var id :| id in left;
        left := left - {id};
        if IsCheckJob(id) {
          JobIdOf(id);
          ids := ids + {ServiceOfJob(id)};
        }
        forall s ensures s in ids <==> JobId(s) in jobs && JobId(s) !in left {
          JobIds(s);
        }
      }
    }

    method RemoveStale(stale: set<string>)
      requires forall s :: s in stale ==> JobId(s) in jobs
      modifies this
      ensures forall id :: id in jobs <==> id in old(jobs) && !(IsCheckJob(id) && ServiceOfJob(id) in stale)
      ensures forall id :: id in jobs ==> jobs[id] == old(jobs)[id]
    {
      var left := stale;
      while left != {}
        invariant left <= stale
        invariant forall s :: s in left ==> JobId(s) in jobs
        invariant forall id :: id in jobs <==> id in old(jobs) && !(IsCheckJob(id) && ServiceOfJob(id) in stale - left)
        invariant forall id :: id in jobs ==> jobs[id] == old(jobs)[id]
      {
        var s :| s in left;
        forall x ensures IsCheckJob(JobId(x)) && ServiceOfJob(JobId(x)) == x {
          JobIds(x);
        }
        assert forall id :: IsCheckJob(id) && ServiceOfJob(id) == s ==> id == JobId(s) by {
          forall id | IsCheckJob(id) ensures JobId(ServiceOfJob(id)) == id {
            JobIdOf(id);
          }
        }
        left := left - {s};
        RemoveJob(JobId(s));
      }
    }

    /** The body of the loop over the services; `known` is whether the service
        had a job when the loop began. */
    method AddOrReschedule(svc: Service, jitter: int, known: bool)
      requires known <==> JobId(svc.id) in jobs
      modifies this
      ensures jobs == old(jobs)[JobId(svc.id) := Updated(old(jobs), svc, jitter)]
    {
      var id := JobId(svc.id);
      if known {
        if jobs[id].interval != svc.intervalSecs {
          jobs := jobs[id := jobs[id].(interval := svc.intervalSecs, jitter := jitter)];
        }
      } else {
        jobs := jobs[id := Job(svc.intervalSecs, jitter, Some(svc))];
      }
    }

    /** `_sync_jobs`, given the active services and the random jitters drawn. */
    method SyncJobs(services: seq<Service>, jitter: seq<int>)
      requires |jitter| == |services| && DistinctIds(services)
      modifies this
      ensures InLine(old(jobs), services, jitter, jobs)
    {
      var active := set i | 0 <= i < |services| :: services[i].id;
      var existing := ExistingIds();
      RemoveStale(existing - active);
      ghost var kept := jobs;
      StaleAreGone(old(jobs), services, active, existing, kept);
      var i := 0;
      while i < |services|
        invariant 0 <= i <= |services|
        invariant HalfWay(old(jobs), kept, services, jitter, i, jobs)
      {
        HalfWayStep(old(jobs), kept, services, jitter, i, jobs);
        AddOrReschedule(services[i], jitter[i], services[i].id in existing);
        i := i + 1;
      }
      HalfWayEnd(old(jobs), kept, services, jitter, jobs);
    }
  }

  /** What is left once the stale jobs are gone. */
  ghost predicate Kept(jobs0: Jobs, services: seq<Service>, kept: Jobs) {
    && (forall id :: id in kept <==> id in jobs0 && (IsCheckJob(id) ==> IsActive(services, ServiceOfJob(id))))
    && (forall id :: id in kept ==> kept[id] == jobs0[id])
  }

  lemma StaleAreGone(jobs0: Jobs, services: seq<Service>, active: set<string>, existing: set<string>, kept: Jobs)
    requires active == set i | 0 <= i < |services| :: services[i].id
    requires forall s :: s in existing <==> JobId(s) in jobs0
    requires forall id :: id in kept <==> id in jobs0 && !(IsCheckJob(id) && ServiceOfJob(id) in existing - active)
    requires forall id :: id in kept ==> kept[id] == jobs0[id]
    ensures Kept(jobs0, services, kept)
  {
    forall id | IsCheckJob(id) && id in jobs0
      ensures ServiceOfJob(id) in existing
    {
      JobIdOf(id);
    }
  }

  /** The first `i` services are done and the other jobs are untouched. */
  ghost predicate HalfWay(jobs0: Jobs, kept: Jobs, services: seq<Service>, jitter: seq<int>, i: int, jobs: Jobs)
    requires |jitter| == |services| && 0 <= i <= |services|
  {
    && Kept(jobs0, services, kept)
    && (forall id :: id in jobs <==> id in kept || IsJobOf(services[..i], id))
    && (forall id :: id in kept && !IsJobOf(services[..i], id) ==> jobs[id] == jobs0[id])
    && (forall k :: 0 <= k < i ==>
          JobId(services[k].id) in jobs && jobs[JobId(services[k].id)] == Updated(jobs0, services[k], jitter[k]))
  }

  predicate IsJobOf(services: seq<Service>, id: string) {
    exists k :: 0 <= k < |services| && JobId(services[k].id) == id
  }

  lemma SameJobSameService(a: string, b: string)
    ensures JobId(a) == JobId(b) ==> a == b
  {
    JobIds(a);
    JobIds(b);
  }

  lemma NotYetDone(services: seq<Service>, i: int)
    requires DistinctIds(services) && 0 <= i < |services|
    ensures !IsJobOf(services[..i], JobId(services[i].id))
    ensures forall id :: IsJobOf(services[..i + 1], id) <==> IsJobOf(services[..i], id) || id == JobId(services[i].id)
  {
    forall k | 0 <= k < i
      ensures JobId(services[..i][k].id) != JobId(services[i].id)
    {
      SameJobSameService(services[k].id, services[i].id);
    }
    forall id
      ensures IsJobOf(services[..i + 1], id) <==> IsJobOf(services[..i], id) || id == JobId(services[i].id)
    {
      if IsJobOf(services[..i], id) {
        var k :| 0 <= k < i && JobId(services[..i][k].id) == id;
        assert services[..i + 1][k] == services[k];
      }
      assert services[..i + 1][i] == services[i];
      if IsJobOf(services[..i + 1], id) && id != JobId(services[i].id) {
        var k :| 0 <= k < i + 1 && JobId(services[..i + 1][k].id) == id;
        assert services[..i][k] == services[k];
      }
    }
  }

  /** The service at `i` is not done yet, so its job is as it was. */
  lemma Untouched(jobs0: Jobs, kept: Jobs, services: seq<Service>, jitter: seq<int>, i: int, jobs: Jobs)
    requires |jitter| == |services| && DistinctIds(services) && 0 <= i < |services|
    requires HalfWay(jobs0, kept, services, jitter, i, jobs)
    ensures var id := JobId(services[i].id);
      && (id in jobs <==> id in jobs0)
      && (id in jobs ==> jobs[id] == jobs0[id])
  {
    NotYetDone(services, i);
    JobIds(services[i].id);
    assert IsActive(services, services[i].id);
  }

  lemma HalfWayKeys(jobs0: Jobs, kept: Jobs, services: seq<Service>, jitter: seq<int>, i: int, jobs: Jobs, job: Job)
    requires |jitter| == |services| && DistinctIds(services) && 0 <= i < |services|
    requires HalfWay(jobs0, kept, services, jitter, i, jobs)
    ensures var jobs' := jobs[JobId(services[i].id) := job];
      && (forall id :: id in jobs' <==> id in kept || IsJobOf(services[..i + 1], id))
      && (forall id :: id in kept && !IsJobOf(services[..i + 1], id) ==> jobs'[id] == jobs0[id])
  {
    NotYetDone(services, i);
  }

  lemma HalfWayStep(jobs0: Jobs, kept: Jobs, services: seq<Service>, jitter: seq<int>, i: int, jobs: Jobs)
    requires |jitter| == |services| && DistinctIds(services) && 0 <= i < |services|
    requires HalfWay(jobs0, kept, services, jitter, i, jobs)
    ensures var id := JobId(services[i].id);
      && (id in jobs <==> id in jobs0)
      && HalfWay(jobs0, kept, services, jitter, i + 1, jobs[id := Updated(jobs, services[i], jitter[i])])
  {
    var id := JobId(services[i].id);
    var job := Updated(jobs, services[i], jitter[i]);
    var jobs' := jobs[id := job];
    Untouched(jobs0, kept, services, jitter, i, jobs);
    assert job == Updated(jobs0, services[i], jitter[i]);
    HalfWayKeys(jobs0, kept, services, jitter, i, jobs, job);
    forall k | 0 <= k < i + 1
      ensures JobId(services[k].id) in jobs' && jobs'[JobId(services[k].id)] == Updated(jobs0, services[k], jitter[k])
    {
      SameJobSameService(services[k].id, services[i].id);
    }
  }

  lemma HalfWayEnd(jobs0: Jobs, kept: Jobs, services: seq<Service>, jitter: seq<int>, jobs: Jobs)
    requires |jitter| == |services| && HalfWay(jobs0, kept, services, jitter, |services|, jobs)
    ensures InLine(jobs0, services, jitter, jobs)
  {
    assert services[..|services|] == services;
    forall id
      ensures IsJobOf(services, id) <==> IsCheckJob(id) && IsActive(services, ServiceOfJob(id))
    {
      if IsJobOf(services, id) {
        var k :| 0 <= k < |services| && JobId(services[k].id) == id;
        JobIds(services[k].id);
      }
      if IsCheckJob(id) {
        JobIdOf(id);
      }
    }
  }

  // ---- What being in line means ----

  /** Afterwards the check jobs are those of the active services, each fires at
      its service's interval, and every other job is as it was. */
  lemma TriggersFollowServices(jobs: Jobs, services: seq<Service>, jitter: seq<int>, jobs': Jobs)
    requires |jitter| == |services| && InLine(jobs, services, jitter, jobs')
    ensures forall s :: JobId(s) in jobs' <==> IsActive(services, s)
    ensures forall i :: 0 <= i < |services| ==> jobs'[JobId(services[i].id)].interval == services[i].intervalSecs
    ensures forall id :: !IsCheckJob(id) ==>
      (id in jobs' <==> id in jobs) && (id in jobs ==> jobs'[id] == jobs[id])
  {
    forall s ensures JobId(s) in jobs' <==> IsActive(services, s) {
      JobIds(s);
    }
  }

  lemma InLineAt(jobs: Jobs, services: seq<Service>, jitter: seq<int>, jobs': Jobs, i: nat)
    requires |jitter| == |services| && InLine(jobs, services, jitter, jobs') && i < |services|
    ensures var id := JobId(services[i].id); id in jobs' && jobs'[id] == Updated(jobs, services[i], jitter[i])
  {
  }

  lemma UpdatedTwice(jobs: Jobs, jobs1: Jobs, svc: Service, j1: int, j2: int)
    requires JobId(svc.id) in jobs1 && jobs1[JobId(svc.id)] == Updated(jobs, svc, j1)
    ensures Updated(jobs1, svc, j2) == jobs1[JobId(svc.id)]
  {
  }

  /** The service whose job this is. */
  lemma CheckJobIsOf(jobs: Jobs, services: seq<Service>, jitter: seq<int>, jobs': Jobs, id: string) returns (i: nat)
    requires |jitter| == |services| && InLine(jobs, services, jitter, jobs') && id in jobs' && IsCheckJob(id)
    ensures i < |services| && JobId(services[i].id) == id
  {
    JobIdOf(id);
    i :| 0 <= i < |services| && services[i].id == ServiceOfJob(id);
  }

  lemma OtherJobsStay(jobs: Jobs, services: seq<Service>, jitter: seq<int>, jobs': Jobs, id: string)
    requires |jitter| == |services| && InLine(jobs, services, jitter, jobs') && id in jobs && !IsCheckJob(id)
    ensures id in jobs' && jobs'[id] == jobs[id]
  {
  }

  lemma SecondSyncKeepsJob(jobs: Jobs, services: seq<Service>, j1: seq<int>, jobs1: Jobs, j2: seq<int>, jobs2: Jobs,
                           id: string)
    requires |j1| == |services| == |j2| && id in jobs1
    requires InLine(jobs, services, j1, jobs1) && InLine(jobs1, services, j2, jobs2)
    ensures id in jobs2 && jobs2[id] == jobs1[id]
  {
    if IsCheckJob(id) {
      var i := CheckJobIsOf(jobs, services, j1, jobs1, id);
      InLineAt(jobs, services, j1, jobs1, i);
      InLineAt(jobs1, services, j2, jobs2, i);
      UpdatedTwice(jobs, jobs1, services[i], j1[i], j2[i]);
    } else {
      OtherJobsStay(jobs1, services, j2, jobs2, id);
    }
  }

  /** Reconciling again, whatever jitters are drawn, changes nothing. */
  lemma SecondSyncChangesNothing(jobs: Jobs, services: seq<Service>, j1: seq<int>, jobs1: Jobs, j2: seq<int>,
                                 jobs2: Jobs)
    requires |j1| == |services| == |j2|
    requires InLine(jobs, services, j1, jobs1) && InLine(jobs1, services, j2, jobs2)
    ensures jobs2 == jobs1
  {
    forall id | id in jobs1
      ensures id in jobs2 && jobs2[id] == jobs1[id]
    {
      SecondSyncKeepsJob(jobs, services, j1, jobs1, j2, jobs2, id);
    }
    assert forall id :: id in jobs2 ==> id in jobs1;
  }

  /** A job's arguments are the service as it is now exactly when the job is new
      or they already were: an update only reaches the trigger. */
  lemma KwargsAreCurrentIff(jobs: Jobs, services: seq<Service>, jitter: seq<int>, jobs': Jobs, i: nat)
    requires |jitter| == |services| && InLine(jobs, services, jitter, jobs') && i < |services|
    ensures var id := JobId(services[i].id);
      jobs'[id].kwargs == Some(services[i]) <==> id !in jobs || jobs[id].kwargs == Some(services[i])
  {
  }

  /** The trigger of a new job and of a rescheduled one has the service's interval
      and the jitter drawn for it; a job that fires at that interval already
      keeps its trigger; and only a new job gets arguments. */
  lemma TriggerAfterSync(jobs: Jobs, services: seq<Service>, jitter: seq<int>, jobs': Jobs, i: nat)
    requires |jitter| == |services| && InLine(jobs, services, jitter, jobs') && i < |services|
    ensures var id := JobId(services[i].id);
      && id in jobs'
      && (id !in jobs ==> jobs'[id] == Job(services[i].intervalSecs, jitter[i], Some(services[i])))
      && (id in jobs ==>
            && jobs'[id].kwargs == jobs[id].kwargs && jobs'[id].interval == services[i].intervalSecs
            && jobs'[id].jitter
                 == if jobs[id].interval == services[i].intervalSecs then jobs[id].jitter else jitter[i])
  {
    InLineAt(jobs, services, jitter, jobs', i);
  }

  // ---- Rounds ----

  /** `_make_round`: the number of the interval-sized bucket that holds `now`. */
  function Round(now: int, intervalSecs: int): int
    requires intervalSecs > 0
  {
    now / intervalSecs
  }

  /** The k-th bucket is [k * interval, (k + 1) * interval). */
  predicate InBucket(now: int, intervalSecs: int, k: int) {
    k * intervalSecs <= now < (k + 1) * intervalSecs
  }

  lemma BucketOf(now: int, intervalSecs: int, k: int)
    requires intervalSecs > 0
    ensures Round(now, intervalSecs) == k <==> InBucket(now, intervalSecs, k)
  {
    var q := now / intervalSecs;
    assert q * intervalSecs <= now < q * intervalSecs + intervalSecs;
    assert (k + 1) * intervalSecs == k * intervalSecs + intervalSecs;
    if q < k {
      assert (q + 1) * intervalSecs <= k * intervalSecs;
    } else if k < q {
      assert (k + 1) * intervalSecs <= q * intervalSecs;
    }
  }

  /** Two publications share a round exactly when one bucket holds them both. */
  lemma SameRound(t1: int, t2: int, intervalSecs: int)
    requires intervalSecs > 0
    ensures Round(t1, intervalSecs) == Round(t2, intervalSecs) <==>
      exists k :: InBucket(t1, intervalSecs, k) && InBucket(t2, intervalSecs, k)
  {
    BucketOf(t1, intervalSecs, Round(t1, intervalSecs));
    BucketOf(t2, intervalSecs, Round(t1, intervalSecs));
    if k :| InBucket(t1, intervalSecs, k) && InBucket(t2, intervalSecs, k) {
      BucketOf(t1, intervalSecs, k);
      BucketOf(t2, intervalSecs, k);
    }
  }

  /** The task `_enqueue_check` publishes at `now` for a job with these arguments. */
  function Enqueue(kwargs: Service, now: int): (task: Codec.CheckTask)
    requires kwargs.intervalSecs > 0
    ensures InBucket(now, task.intervalSecs, task.round)
  {
    BucketOf(now, kwargs.intervalSecs, Round(now, kwargs.intervalSecs));
    Codec.CheckTask(kwargs.id, kwargs.url, kwargs.verb, kwargs.timeoutMs, kwargs.expectedStatus, kwargs.headers,
                    kwargs.body, kwargs.intervalSecs, Round(now, kwargs.intervalSecs))
  }

  // ---- When two firings of a job share a round ----

  /** A firing shares its round with the next one exactly when the gap between
      them ends within the bucket. */
  lemma GapWithinBucket(t: int, gap: nat, intervalSecs: int)
    requires intervalSecs > 0
    ensures Round(t, intervalSecs) == Round(t + gap, intervalSecs) <==> t % intervalSecs + gap < intervalSecs
  {
    var k := t / intervalSecs;
    assert t == k * intervalSecs + t % intervalSecs;
    assert (k + 1) * intervalSecs == k * intervalSecs + intervalSecs;
    BucketOf(t + gap, intervalSecs, k);
  }

  ghost predicate NeverShares(gap: int, intervalSecs: int)
    requires intervalSecs > 0
  {
    forall t :: Round(t, intervalSecs) != Round(t + gap, intervalSecs)
  }

  /** So none ever does exactly when the gap is at least the bucket. */
  lemma NeverSharesIff(gap: nat, intervalSecs: int)
    requires intervalSecs > 0
    ensures NeverShares(gap, intervalSecs) <==> gap >= intervalSecs
  {
    if NeverShares(gap, intervalSecs) {
      GapWithinBucket(0, gap, intervalSecs);
    } else {
      var t :| Round(t, intervalSecs) == Round(t + gap, intervalSecs);
      GapWithinBucket(t, gap, intervalSecs);
    }
  }

  /** The interval in the arguments the job of a service has after a
      reconciliation: the one it was added with. */
  function Captured(jobs: Jobs, svc: Service): int {
    var id := JobId(svc.id);
    if id in jobs && jobs[id].kwargs.Some? then jobs[id].kwargs.value.intervalSecs else svc.intervalSecs
  }

  /** Successive firings of the job that a reconciliation leaves never share a
      round exactly when the service's interval is not below the captured one. */
  lemma FiringsKeepRoundsApartIff(jobs: Jobs, services: seq<Service>, jitter: seq<int>, jobs': Jobs, i: nat)
    requires |jitter| == |services| && InLine(jobs, services, jitter, jobs') && i < |services|
    requires JobId(services[i].id) in jobs ==> jobs[JobId(services[i].id)].kwargs.Some?
    requires services[i].intervalSecs > 0 && Captured(jobs, services[i]) > 0
    ensures JobId(services[i].id) in jobs'
    ensures var job := jobs'[JobId(services[i].id)];
      && job.kwargs.Some? && job.kwargs.value.intervalSecs == Captured(jobs, services[i])
      && (NeverShares(job.interval, job.kwargs.value.intervalSecs)
          <==> services[i].intervalSecs >= Captured(jobs, services[i]))
  {
    NeverSharesIff(services[i].intervalSecs, Captured(jobs, services[i]));
  }

  /** For example, halving an interval of 60 s changes the trigger but not the
      bucket: two tasks published 30 s apart then carry the same round. */
  lemma ShortenedIntervalSharesRounds(svc: Service, jitter: int, jobs: Jobs, jobs': Jobs)
    requires svc.intervalSecs == 30
    requires jobs == map[JobId(svc.id) := Job(60, 0, Some(svc.(intervalSecs := 60)))]
    requires InLine(jobs, [svc], [jitter], jobs')
    ensures JobId(svc.id) in jobs'
    ensures var job := jobs'[JobId(svc.id)];
      && job.interval == 30 && job.kwargs.Some? && job.kwargs.value.intervalSecs == 60
      && Round(0, job.kwargs.value.intervalSecs) == Round(30, job.kwargs.value.intervalSecs)
      && !NeverShares(job.interval, job.kwargs.value.intervalSecs) && NeverShares(job.interval, svc.intervalSecs)
  {
    assert [svc][0] == svc;
    FiringsKeepRoundsApartIff(jobs, [svc], [jitter], jobs', 0);
    NeverSharesIff(30, 30);
  }
}
