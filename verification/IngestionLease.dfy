/**
 The lease under which queue workers process an uploaded document.

 A job row is claimed by an update that succeeds when the job is queued or when
 its last claim is older than the lease. Completing and failing a job are
 unguarded writes, so everything rests on no two workers holding the job at once.
 Times are in seconds; a worker is taken to stop within `bound` of its claim.
 */
module IngestionLease {

  datatype Status = Queued | Processing | Ready | Failed

  datatype Job = Job(status: Status, startedAt: int, attempts: nat, hasSource: bool)

  const MAX_ATTEMPTS: nat := 5
  const LEASE: nat := 10 * 60
  /** Five minutes for the work and five seconds to record a failure. */
  const WORKER_BOUND: nat := 5 * 60 + 5

  /** The claim's WHERE clause, for a lease of the given length. */
  predicate Claimable(j: Job, now: int, lease: nat) {
    j.attempts < MAX_ATTEMPTS && (j.status == Queued || (j.status == Processing && j.startedAt < now - lease))
  }

  function Claimed(j: Job, now: int): Job {
    j.(status := Processing, startedAt := now, attempts := j.attempts + 1)
  }

  function Finished(j: Job, ok: bool): Job {
    j.(status := if ok then Ready else Failed, hasSource := false)
  }

  datatype Extraction = Items(count: nat) | ExtractionError | NoText | AnalysisError

  datatype Verdict = NotClaimable | Completed | MarkedFailed

  class IngestionJob {
    var status: Status
    var startedAt: int
    var attempts: nat
    var hasSource: bool

    ghost function Row(): Job
      reads this
    {
      Job(status, startedAt, attempts, hasSource)
    }

    constructor ()
      ensures Row() == Job(Queued, 0, 0, true)
    {
      status, startedAt, attempts, hasSource := Queued, 0, 0, true;
    }

    method Claim(now: int) returns (claimed: bool)
      modifies this
      ensures claimed <==> Claimable(old(Row()), now, LEASE)
      ensures Row() == if claimed then Claimed(old(Row()), now) else old(Row())
    {
      claimed := attempts < MAX_ATTEMPTS && (status == Queued || (status == Processing && startedAt < now - LEASE));
      if claimed {
        status, startedAt, attempts := Processing, now, attempts + 1;
      }
    }

    method Complete()
      modifies this
      ensures Row() == Finished(old(Row()), true)
    {
      status, hasSource := Ready, false;
    }

    method Fail()
      modifies this
      ensures Row() == Finished(old(Row()), false)
    {
      status, hasSource := Failed, false;
    }

    /** One delivery of the queue message, undisturbed, with database writes that succeed. */
    method Process(now: int, e: Extraction) returns (v: Verdict)
      modifies this
      ensures v.NotClaimable? <==> !Claimable(old(Row()), now, LEASE)
      ensures v.NotClaimable? ==> Row() == old(Row())
      ensures !v.NotClaimable? ==> Row() == Finished(Claimed(old(Row()), now), v.Completed?)
      ensures v.Completed? ==> e.Items? && e.count > 0 && status == Ready && !hasSource
      ensures v.MarkedFailed? ==> !(e.Items? && e.count > 0) && status == Failed && !hasSource
    {
      var claimed := Claim(now);
      if !claimed {
        return NotClaimable;
      }
      if !e.Items? || e.count == 0 {
        Fail();
        return MarkedFailed;
      }
      Complete();
      return Completed;
    }
  }

  /** The deployed claim: a queued job, or one whose claim is more than ten minutes old, with
      fewer than five attempts; so the fifth is still made. A claim starts the lease anew. */
  lemma ClaimedExactlyWhen(j: Job, now: int)
    ensures Claimable(j, now, LEASE) <==>
              && j.attempts <= 4
              && (j.status == Queued || (j.status == Processing && now - j.startedAt > 600))
    ensures var c := Claimed(j, now);
            c.attempts == j.attempts + 1 && c.hasSource == j.hasSource && !Claimable(c, now, LEASE)
            && (c.attempts <= 4 ==> (forall at :: Claimable(c, at, LEASE) <==> at > now + 600))
  {
  }

  /** A finished job shows how it ended, keeps no upload, and is never claimed again. */
  lemma FinishingMeans(j: Job, ok: bool, now: int, lease: nat)
    ensures var f := Finished(j, ok);
            && (f.status == Ready <==> ok) && (f.status == Failed <==> !ok)
            && !f.hasSource && f.attempts == j.attempts && !Claimable(f, now, lease)
  {
  }

  // ---- Timed runs of one job ----

  /** The job, whether its message reached the queue, and the workers that hold it with
      the time of their claim. */
  datatype World = World(job: Job, enqueued: bool, now: int, holders: map<nat, int>)

  datatype Event =
    | Wait(until: int)
    | Deliver(worker: nat)
    | Finish(worker: nat, ok: bool)
    | Abandon(worker: nat)
    | EnqueueFailed

  /** What can happen: time passes only while every holder is within its bound, messages
      are delivered any number of times, a holder finishes, fails or dies. A job whose
      message was never queued can only be marked failed by the upload handler. */
  ghost predicate Enabled(w: World, e: Event, bound: nat) {
    match e
    case Wait(until) => w.now <= until && forall h | h in w.holders :: until <= w.holders[h] + bound
    case Deliver(h) => w.enqueued && h !in w.holders
    case Finish(h, _) => h in w.holders
    case Abandon(h) => h in w.holders
    case EnqueueFailed => !w.enqueued
  }

  function After(w: World, e: Event, lease: nat): World
    requires e.Finish? ==> e.worker in w.holders
    requires e.Abandon? ==> e.worker in w.holders
  {
    match e
    case Wait(until) => w.(now := until)
    case Deliver(h) =>
      if Claimable(w.job, w.now, lease) then w.(job := Claimed(w.job, w.now), holders := w.holders[h := w.now]) else w
    case Finish(h, ok) => w.(job := Finished(w.job, ok), holders := w.holders - {h})
    case Abandon(h) => w.(holders := w.holders - {h})
    case EnqueueFailed => w.(job := Finished(w.job, false))
  }

  /** run[0] is the world after the upload, and each world follows from the one before. */
  ghost predicate IsRun(run: seq<World>, events: seq<Event>, lease: nat, bound: nat) {
    && |run| == |events| + 1
    && run[0].job == Job(Queued, 0, 0, true) && run[0].holders == map[]
    && forall i | 0 <= i < |events| :: Follows(run[i], events[i], run[i + 1], lease, bound)
  }

  ghost predicate Follows(w: World, e: Event, w': World, lease: nat, bound: nat) {
    Enabled(w, e, bound) && w' == After(w, e, lease)
  }

  /** At most one holder; it holds the job's current claim, within its bound; the upload
      is kept exactly while the job is open. */
  ghost predicate Exclusive(w: World, bound: nat) {
    && (forall a, b | a in w.holders && b in w.holders :: a == b)
    && (forall h | h in w.holders ::
          w.job.status == Processing && w.holders[h] == w.job.startedAt && w.now <= w.holders[h] + bound)
    && w.job.attempts <= MAX_ATTEMPTS
    && (w.job.hasSource <==> w.job.status == Queued || w.job.status == Processing)
    && (!w.enqueued ==> w.holders == map[] && (w.job.status == Queued || w.job.status == Failed))
    && (w.job.status == Queued ==> w.job.attempts == 0)
  }

  lemma StepKeepsExclusive(w: World, e: Event, w': World, lease: nat, bound: nat)
    requires bound <= lease && Exclusive(w, bound) && Follows(w, e, w', lease, bound)
    ensures Exclusive(w', bound)
    ensures w.job.status in {Ready, Failed} ==> w'.job == w.job
    ensures w'.job.attempts >= w.job.attempts
  {
    if e.Deliver? && Claimable(w.job, w.now, lease) {
      assert w.holders == map[];
    }
  }

  lemma {:induction false} RunIsExclusive(run: seq<World>, events: seq<Event>, lease: nat, bound: nat, n: nat)
    requires bound <= lease && IsRun(run, events, lease, bound) && n < |run|
    ensures Exclusive(run[n], bound)
  {
    if n > 0 {
      RunIsExclusive(run, events, lease, bound, n - 1);
      assert Follows(run[n - 1], events[n - 1], run[n], lease, bound);
      StepKeepsExclusive(run[n - 1], events[n - 1], run[n], lease, bound);
    }
  }

  /** No run ever lets two workers hold the job. */
  ghost predicate MutuallyExclusive(lease: nat, bound: nat) {
    forall run, events, i | IsRun(run, events, lease, bound) && 0 <= i < |run| :: AtMostOne(run[i])
  }

  ghost predicate AtMostOne(w: World) {
    forall a, b | a in w.holders && b in w.holders :: a == b
  }

  /** The lease excludes a second worker exactly when a worker stops within the lease. */
  lemma ExclusiveExactlyWhen(lease: nat, bound: nat)
    ensures MutuallyExclusive(lease, bound) <==> bound <= lease
  {
    if bound <= lease {
      forall run, events, i | IsRun(run, events, lease, bound) && 0 <= i < |run|
        ensures AtMostOne(run[i])
      {
        RunIsExclusive(run, events, lease, bound, i);
      }
    } else {
      var w0 := World(Job(Queued, 0, 0, true), true, 0, map[]);
      var w1 := World(Job(Processing, 0, 1, true), true, 0, map[1 := 0]);
      var w2 := w1.(now := lease + 1);
      var w3 := World(Job(Processing, lease + 1, 2, true), true, lease + 1, map[1 := 0, 2 := lease + 1]);
      var run, events := [w0, w1, w2, w3], [Deliver(1), Wait(lease + 1), Deliver(2)];
      assert Follows(w0, events[0], w1, lease, bound);
      assert Follows(w1, events[1], w2, lease, bound);
      assert Follows(w2, events[2], w3, lease, bound);
      assert IsRun(run, events, lease, bound) && !AtMostOne(run[3]) by {
        assert 1 in w3.holders && 2 in w3.holders;
      }
    }
  }

  /** The deployed times satisfy it; and along every run the attempts stay within five,
      the upload is kept exactly while the job is open, and a finished job stays finished. */
  lemma DeployedLeaseIsSafe(run: seq<World>, events: seq<Event>, i: nat, j: nat)
    requires IsRun(run, events, LEASE, WORKER_BOUND) && i <= j < |run|
    ensures AtMostOne(run[j])
    ensures run[j].job.attempts <= 5
    ensures run[j].job.hasSource <==> run[j].job.status == Queued || run[j].job.status == Processing
    ensures run[i].job.status in {Ready, Failed} ==> run[j].job == run[i].job
  {
    RunIsExclusive(run, events, LEASE, WORKER_BOUND, j);
    TerminalStays(run, events, i, j);
  }

  lemma {:induction false} TerminalStays(run: seq<World>, events: seq<Event>, i: nat, j: nat)
    requires IsRun(run, events, LEASE, WORKER_BOUND) && i <= j < |run|
    ensures run[i].job.status in {Ready, Failed} ==> run[j].job == run[i].job
    decreases j
  {
    if i < j {
      TerminalStays(run, events, i, j - 1);
      RunIsExclusive(run, events, LEASE, WORKER_BOUND, j - 1);
      assert Follows(run[j - 1], events[j - 1], run[j], LEASE, WORKER_BOUND);
      StepKeepsExclusive(run[j - 1], events[j - 1], run[j], LEASE, WORKER_BOUND);
    }
  }

  /** Some worker ended this way, or the upload handler marked the job failed. */
  ghost predicate Ended(events: seq<Event>, ok: bool) {
    exists i :: 0 <= i < |events| && ((events[i].Finish? && events[i].ok == ok) || (events[i].EnqueueFailed? && !ok))
  }

  lemma EndedMore(events: seq<Event>, e: Event, ok: bool)
    ensures Ended(events + [e], ok) <==> Ended(events, ok) || (e.Finish? && e.ok == ok) || (e.EnqueueFailed? && !ok)
  {
    var more := events + [e];
    assert more[|events|] == e;
    if i :| 0 <= i < |events| && ((events[i].Finish? && events[i].ok == ok) || (events[i].EnqueueFailed? && !ok)) {
      assert more[i] == events[i];
    }
  }

  /** A job shows at any time of a run whether and how it has ended. */
  lemma {:induction false} StatusTellsTheEnd(run: seq<World>, events: seq<Event>, n: nat)
    requires IsRun(run, events, LEASE, WORKER_BOUND) && n < |run|
    ensures run[n].job.status == Ready <==> Ended(events[..n], true)
    ensures run[n].job.status == Failed <==> Ended(events[..n], false)
  {
    if n > 0 {
      StatusTellsTheEnd(run, events, n - 1);
      RunIsExclusive(run, events, LEASE, WORKER_BOUND, n - 1);
      assert Follows(run[n - 1], events[n - 1], run[n], LEASE, WORKER_BOUND);
      assert events[..n] == events[..n - 1] + [events[n - 1]];
      EndedMore(events[..n - 1], events[n - 1], true);
      EndedMore(events[..n - 1], events[n - 1], false);
    }
  }

  /** A worker that dies before the fifth attempt is replaced by the first delivery after the
      lease, and by none before. */
  lemma DeadWorkerIsReplaced(w: World, h: nat, other: nat, until: int)
    requires Exclusive(w, WORKER_BOUND) && w.enqueued && h in w.holders && w.job.attempts <= 4 && w.now <= until
    ensures var dead := After(w, Abandon(h), LEASE);
            && Enabled(w, Abandon(h), WORKER_BOUND) && Enabled(dead, Wait(until), WORKER_BOUND)
            && var later := After(dead, Wait(until), LEASE);
            && Enabled(later, Deliver(other), WORKER_BOUND)
            && After(later, Deliver(other), LEASE)
               == if until > w.job.startedAt + 600
                  then World(Job(Processing, until, w.job.attempts + 1, true), true, until, map[other := until])
                  else World(w.job, true, until, map[])
  {
    assert w.holders - {h} == map[];
  }

  /** A job whose fifth worker dies is never claimed again, by any number of redeliveries:
      it stays in processing with its upload kept. */
  lemma {:induction false} AbandonedAtLastAttempt(run: seq<World>, events: seq<Event>, i: nat, j: nat)
    requires IsRun(run, events, LEASE, WORKER_BOUND) && i <= j < |run|
    requires run[i].job.status == Processing && run[i].job.attempts == 5 && run[i].holders == map[]
    ensures run[j].job == run[i].job && run[j].holders == map[] && run[j].job.hasSource
    decreases j
  {
    if i < j {
      AbandonedAtLastAttempt(run, events, i, j - 1);
      RunIsExclusive(run, events, LEASE, WORKER_BOUND, j - 1);
      assert Follows(run[j - 1], events[j - 1], run[j], LEASE, WORKER_BOUND);
    } else {
      RunIsExclusive(run, events, LEASE, WORKER_BOUND, j);
    }
  }
}
