/**
 * `queueJob`: the batched update scheduler of the component layer. Both component files carry
 * the same copy. The queue is a JavaScript `Set` (deduplicating, insertion-ordered), the flush
 * runs in a promise continuation, and `finally` resets the state even when a job throws. The
 * microtask is an explicit `Flush` step; jobs are opaque and do not enqueue further jobs.
 */
module Scheduler {
  import opened Js

  type JobId = nat

  class JobQueue {
    var queue: seq<JobId>
    var isFlushing: bool
    /** A flush continuation has been registered and has not run yet. */
    var flushPending: bool
    /** How many flush continuations were ever registered. */
    ghost var scheduled: nat

    /** Between steps, a flush is pending exactly while `isFlushing` is set, and a non-empty
        queue always has one pending. */
    ghost predicate Valid()
      reads this
    {
      NoDup(queue) && (flushPending <==> isFlushing) && (queue != [] ==> flushPending)
    }

    constructor ()
      ensures Valid() && queue == [] && !isFlushing && !flushPending && scheduled == 0
    {
      queue, isFlushing, flushPending := [], false, false;
      scheduled := 0;
    }

    /** `queueJob(job)`: a job already queued leaves the queue as it is; a flush is scheduled
        only when none is under way, so a burst of enqueues schedules one flush. */
    method QueueJob(job: JobId)
      requires Valid()
      modifies this
      ensures Valid() && isFlushing && flushPending
      ensures queue == if job in old(queue) then old(queue) else old(queue) + [job]
      ensures scheduled == old(scheduled) + (if old(isFlushing) then 0 else 1)
    {
      if job !in queue {
        queue := queue + [job];
      }
      if !isFlushing {
        isFlushing := true;
        flushPending := true;
        scheduled := scheduled + 1;
      }
    }

    /** The flush continuation: runs the queued jobs once each, in insertion order. When the job
        at position `throwsAt` throws, the jobs after it do not run. Either way the flag is
        cleared and the queue emptied. */
    method Flush(throwsAt: Option<nat>) returns (ran: seq<JobId>)
      requires Valid() && flushPending
      modifies this
      ensures Valid() && !isFlushing && !flushPending && queue == [] && scheduled == old(scheduled)
      ensures ran == if throwsAt.Some? && throwsAt.value < |old(queue)|
                     then old(queue)[..throwsAt.value + 1] else old(queue)
      ensures NoDup(ran)
    {
      flushPending := false;
      ran := [];
      var i := 0;
      while i < |queue|
        invariant 0 <= i <= |queue| && ran == queue[..i]
        invariant throwsAt.Some? ==> i <= throwsAt.value
      {
        ran := ran + [queue[i]];
        if throwsAt == Some(i) {
          break;
        }
        i := i + 1;
      }
      isFlushing := false;
      queue := [];
    }
  }

  /** What a burst of `queueJob` calls with no flush in between leaves queued: first
      occurrences, in order. */
  function Enqueued(q: seq<JobId>, jobs: seq<JobId>): (r: seq<JobId>)
    decreases |jobs|
  {
    if jobs == [] then q
    else
      var q' := if jobs[0] in q then q else q + [jobs[0]];
      Enqueued(q', jobs[1..])
  }

  /** A burst queues every job it names once and nothing else, keeping the queue free of
      repetitions, so the flush that follows runs each of them exactly once. */
  lemma {:induction false} EnqueuedDedups(q: seq<JobId>, jobs: seq<JobId>)
    requires NoDup(q)
    decreases |jobs|
    ensures NoDup(Enqueued(q, jobs))
    ensures forall j :: j in Enqueued(q, jobs) <==> j in q || j in jobs
    ensures |Enqueued(q, jobs)| >= |q| && Enqueued(q, jobs)[..|q|] == q
  {
    if jobs != [] {
      var q' := if jobs[0] in q then q else q + [jobs[0]];
      if jobs[0] !in q {
        NoDupAppend(q, [jobs[0]]);
      }
      EnqueuedDedups(q', jobs[1..]);
      assert forall j :: j in jobs <==> j == jobs[0] || j in jobs[1..];
      assert Enqueued(q', jobs[1..])[..|q'|][..|q|] == q;
    }
  }

  /** Runs a burst against the queue object: the queue ends as `Enqueued` says, and at most one
      flush has been scheduled however long the burst. */
  method QueueAll(jq: JobQueue, jobs: seq<JobId>)
    requires jq.Valid()
    modifies jq
    ensures jq.Valid()
    ensures jq.queue == Enqueued(old(jq.queue), jobs)
    ensures jq.scheduled <= old(jq.scheduled) + 1
    ensures jobs != [] ==> jq.isFlushing
  {
    var i := 0;
    while i < |jobs|
      invariant 0 <= i <= |jobs| && jq.Valid()
      invariant Enqueued(old(jq.queue), jobs) == Enqueued(jq.queue, jobs[i..])
      invariant jq.scheduled <= old(jq.scheduled) + 1
      invariant jq.scheduled == old(jq.scheduled) + 1 ==> jq.isFlushing
      invariant !old(jq.isFlushing) && !jq.isFlushing ==> jq.scheduled == old(jq.scheduled)
      invariant old(jq.isFlushing) ==> jq.isFlushing && jq.scheduled == old(jq.scheduled)
      invariant i > 0 ==> jq.isFlushing
    {
      jq.QueueJob(jobs[i]);
      assert jobs[i..][1..] == jobs[i + 1..];
      i := i + 1;
    }
  }
}
