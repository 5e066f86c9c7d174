/**
 Rows left queued with nobody working on them.

 A claimed row is normally sent, reported or released. It is stranded when the claim's
 answer or its caller is lost, when a release fails, when its task is lost or dropped,
 or when its task is, or comes to be, on the queue of a campaign that counts as
 completed. The module says exactly which steps of the protocol lead there.
 */
module StrandedRows {
  import opened Audience
  import A = Approval
  import opened DeliveryLedger
  import opened RetryProtocol
  import opened SingleHands

  /** Queued, but with no task and in no caller's hands. */
  ghost predicate Stranded(w: World, k: Key) {
    k in Pending(w.rows) && !InHands(w, k)
  }

  /** The rows a caller goes on to publish without setting the status first. */
  function Outgoing(c: Caller): set<Key> {
    if c.Publishing? && !c.mustReopen then c.todo else {}
  }

  /** The row's task is on the queue, or on its way there. */
  ghost predicate OnTheWay(w: World, k: Key) {
    k in w.tasks || exists c :: c in w.callers && k in Outgoing(w.callers[c])
  }

  /** The worker will find a completed campaign and drop the row's task. */
  ghost predicate Doomed(w: World, k: Key) {
    w.status == A.Completed && k in Pending(w.rows) && OnTheWay(w, k)
  }

  /** Every queued row is being worked on, and none in vain. */
  ghost predicate Kept(w: World) {
    && (forall k | k in Pending(w.rows) :: InHands(w, k))
    && (forall k :: !Doomed(w, k))
  }

  /** The steps that strand a row at once: a claim takes effect unseen, a caller dies holding
      it, giving up its claim fails, or its task is lost, or dropped because another row of
      its address is delivered. */
  ghost predicate Loses(w: World, s: Step)
    requires Enabled(w, s)
  {
    match s
    case ClaimRows(_, asked, call) => call == DoneUnseen && Claimable(w.rows, asked) != {}
    case Die(c) => exists k :: k in Held(w.callers[c]) && k in Pending(w.rows)
    case ReleaseRows(c, done) => !done && exists k :: k in w.callers[c].failed && k in Pending(w.rows)
    case Drop(key, why) => why != Finished && key in Pending(w.rows)
    case _ => false
  }

  /** The steps that doom one: reopening fails; rows of a completed campaign are claimed by a
      caller who saw it processing; or "completed" is restored while another caller's rows are
      on the way. */
  ghost predicate Dooms(w: World, s: Step)
    requires Enabled(w, s)
  {
    match s
    case Reopen(c, call) =>
      call == NotDone && w.status == A.Completed && exists k :: k in w.callers[c].todo && k in Pending(w.rows)
    case ClaimRows(c, asked, call) =>
      && call == Done && w.status == A.Completed
      && exists k :: k in Claimable(w.rows, asked) && (!w.callers[c].wasCompleted || OnTheWay(w, k))
    case Return(c, done) =>
      && done && w.callers[c].published == 0 && w.callers[c].reopened
      && exists k :: k in Pending(w.rows) && OnTheWay(w, k)
    case _ => false
  }

  ghost predicate Strands(w: World, s: Step)
    requires Enabled(w, s)
  {
    Loses(w, s) || Dooms(w, s)
  }

  // ---- Otherwise no row is stranded ----

  lemma KeptStep(w: World, s: Step)
    requires Kept(w) && Enabled(w, s) && !Strands(w, s)
    ensures Kept(After(w, s))
  {
    var after := After(w, s);
    forall k | k in Pending(after.rows) ensures InHands(after, k) {
      StillInHands(w, s, k);
    }
    forall k ensures !Doomed(after, k) {
      if Doomed(after, k) {
        DoomedOnlyBy(w, s, k);
      }
    }
  }

  lemma StillInHands(w: World, s: Step, k: Key)
    requires Kept(w) && Enabled(w, s) && !Strands(w, s) && k in Pending(After(w, s).rows)
    ensures InHands(After(w, s), k)
  {
    var after := After(w, s);
    if Takes(w, s, k) {
      assert k in Held(after.callers[s.c]);
    } else {
      StaysPending(w, s, k);
      if k in w.tasks {
        TaskStays(w, s, k);
      } else {
        var c :| c in w.callers && k in Held(w.callers[c]);
        StillHeld(w, s, k, c);
      }
    }
  }

  lemma StaysPending(w: World, s: Step, k: Key)
    requires Enabled(w, s) && k in Pending(After(w, s).rows) && !Takes(w, s, k)
    ensures k in Pending(w.rows)
  {
  }

  /** A queued row's task goes only with its result, unless the step strands it. */
  lemma TaskStays(w: World, s: Step, k: Key)
    requires Kept(w) && Enabled(w, s) && !Strands(w, s)
    requires k in w.tasks && k in Pending(w.rows) && k in Pending(After(w, s).rows)
    ensures k in After(w, s).tasks
  {
    if s.Drop? && s.key == k {
      assert Doomed(w, k);
    }
  }

  lemma StillHeld(w: World, s: Step, k: Key, c: nat)
    requires Enabled(w, s) && !Strands(w, s)
    requires c in w.callers && k in Held(w.callers[c]) && k in Pending(w.rows) && k in Pending(After(w, s).rows)
    ensures k in After(w, s).tasks || (c in After(w, s).callers && k in Held(After(w, s).callers[c]))
  {
  }

  lemma DoomedOnlyBy(w: World, s: Step, k: Key)
    requires Kept(w) && Enabled(w, s) && Doomed(After(w, s), k)
    ensures Strands(w, s)
  {
    var after := After(w, s);
    assert !Doomed(w, k);
    if k !in after.tasks {
      var c :| c in after.callers && k in Outgoing(after.callers[c]);
      OutgoingComesFrom(w, s, k, c);
    }
    if s.Report? || s.Redeliver? {
      RecordDoomsNothing(w, s, k);
    }
  }

  /** A result completes a campaign only when no row is queued. */
  lemma RecordDoomsNothing(w: World, s: Step, k: Key)
    requires (s.Report? || s.Redeliver?) && Enabled(w, s) && Doomed(After(w, s), k)
    ensures Doomed(w, k)
  {
  }

  /** A row is newly outgoing after a claim or after the reopening was tried. */
  lemma OutgoingComesFrom(w: World, s: Step, k: Key, c: nat)
    requires Enabled(w, s) && c in After(w, s).callers && k in Outgoing(After(w, s).callers[c])
    ensures || (c in w.callers && k in Outgoing(w.callers[c]))
            || (s.ClaimRows? && s.call == Done && s.c == c && k in Claimable(w.rows, s.asked) && !w.callers[c].wasCompleted)
            || (s.Reopen? && s.c == c && k in w.callers[c].todo)
  {
  }

  /** A run none of whose steps strands a row. */
  ghost predicate Careful(w: World, steps: seq<Step>, end: World)
    decreases |steps|
  {
    if steps == [] then w == end
    else Enabled(w, steps[0]) && !Strands(w, steps[0]) && Careful(After(w, steps[0]), steps[1..], end)
  }

  lemma {:induction false} KeptAlong(w: World, steps: seq<Step>, end: World)
    requires Kept(w) && Careful(w, steps, end)
    ensures Kept(end)
    decreases |steps|
  {
    if steps != [] {
      KeptStep(w, steps[0]);
      KeptAlong(After(w, steps[0]), steps[1..], end);
    }
  }

  /** After a dispatch and any interleaving, duplicates included, in which none of those
      steps occurs, every queued row is still being worked on. */
  lemma QueuedRowsAreAccountedFor(w: World, steps: seq<Step>, end: World, k: Key)
    requires Begins(w) && Careful(w, steps, end)
    requires forall x | x in Pending(w.rows) :: x in w.tasks
    ensures !Stranded(end, k)
  {
    KeptAlong(w, steps, end);
  }

  // ---- Each of those steps strands one ----

  /** Some continuation, itself without such steps, leaves a row stranded. */
  ghost predicate CanStrand(w: World) {
    exists steps, end, k :: Careful(w, steps, end) && Stranded(end, k)
  }

  lemma StrandedNow(w: World, k: Key)
    requires Stranded(w, k)
    ensures CanStrand(w)
  {
    assert Careful(w, [], w);
  }

  lemma CarefulFirst(w: World, s: Step)
    requires Enabled(w, s) && !Strands(w, s) && CanStrand(After(w, s))
    ensures CanStrand(w)
  {
    var steps, end, k :| Careful(After(w, s), steps, end) && Stranded(end, k);
    assert ([s] + steps)[1..] == steps;
    assert Careful(w, [s] + steps, end);
  }

  lemma DoomedIsStranded(w: World, k: Key)
    requires Safe(w) && Doomed(w, k)
    ensures CanStrand(w)
  {
    if k in w.tasks {
      DroppedIsStranded(w, k);
    } else {
      var c :| c in w.callers && k in Outgoing(w.callers[c]);
      var s := Publish(c, k, Done);
      PublishIsSafe(w, c, k, Done);
      DroppedIsStranded(After(w, s), k);
      CarefulFirst(w, s);
    }
  }

  lemma DroppedIsStranded(w: World, k: Key)
    requires Safe(w) && w.status == A.Completed && k in Pending(w.rows) && k in w.tasks
    ensures CanStrand(w)
  {
    assert w.tasks[k] == 1;
    assert Stranded(After(w, Drop(k, Finished)), k);
    StrandedNow(After(w, Drop(k, Finished)), k);
    CarefulFirst(w, Drop(k, Finished));
  }

  lemma LosingStep(w: World, s: Step)
    requires Safe(w) && Enabled(w, s) && Loses(w, s)
    ensures CanStrand(After(w, s))
  {
    match s
    case ClaimRows(c, asked, call) => UnseenClaim(w, c, asked);
    case Die(c) => DyingCaller(w, c);
    case ReleaseRows(c, done) => FailedRelease(w, c);
    case Drop(key, why) =>
      assert w.tasks[key] == 1;
      StrandedNow(After(w, s), key);
    case _ =>
  }

  lemma DoomingStep(w: World, s: Step)
    requires Safe(w) && Enabled(w, s) && Dooms(w, s)
    ensures CanStrand(After(w, s))
  {
    SafeStep(w, s);
    match s
    case Reopen(c, call) =>
      var k :| k in w.callers[c].todo && k in Pending(w.rows);
      assert k in Outgoing(After(w, s).callers[c]);
      DoomedIsStranded(After(w, s), k);
    case ClaimRows(c, asked, call) => StaleClaim(w, c, asked);
    case Return(c, done) =>
      var k :| k in Pending(w.rows) && OnTheWay(w, k);
      RestoredOver(w, c, k);
      DoomedIsStranded(After(w, s), k);
    case _ =>
  }

  lemma NotInHands(w: World, k: Key)
    requires Safe(w) && Retryable(w.rows, k)
    ensures !InHands(w, k)
  {
  }

  lemma UnseenClaim(w: World, c: nat, asked: Option<set<Key>>)
    requires Safe(w) && Enabled(w, ClaimRows(c, asked, DoneUnseen)) && Claimable(w.rows, asked) != {}
    ensures CanStrand(After(w, ClaimRows(c, asked, DoneUnseen)))
  {
    var k :| k in Claimable(w.rows, asked);
    NotInHands(w, k);
    assert k in Pending(After(w, ClaimRows(c, asked, DoneUnseen)).rows);
    StrandedNow(After(w, ClaimRows(c, asked, DoneUnseen)), k);
  }

  lemma DyingCaller(w: World, c: nat)
    requires Safe(w) && Enabled(w, Die(c)) && Loses(w, Die(c))
    ensures CanStrand(After(w, Die(c)))
  {
    var k :| k in Held(w.callers[c]) && k in Pending(w.rows);
    assert forall d | d in w.callers && d != c :: Held(w.callers[d]) !! Held(w.callers[c]);
    StrandedNow(After(w, Die(c)), k);
  }

  lemma FailedRelease(w: World, c: nat)
    requires Safe(w) && Enabled(w, ReleaseRows(c, false)) && Loses(w, ReleaseRows(c, false))
    ensures CanStrand(After(w, ReleaseRows(c, false)))
  {
    var after := After(w, ReleaseRows(c, false));
    var k :| k in w.callers[c].failed && k in Pending(w.rows);
    assert k in Held(w.callers[c]);
    assert Release(w.rows, {}) == w.rows;
    assert Held(after.callers[c]) == {};
    StrandedNow(after, k);
  }

  lemma StaleClaim(w: World, c: nat, asked: Option<set<Key>>)
    requires Safe(w) && Enabled(w, ClaimRows(c, asked, Done)) && Dooms(w, ClaimRows(c, asked, Done))
    ensures CanStrand(After(w, ClaimRows(c, asked, Done)))
  {
    var after := After(w, ClaimRows(c, asked, Done));
    ClaimIsSafe(w, c, asked, Done);
    var k :| k in Claimable(w.rows, asked) && (!w.callers[c].wasCompleted || OnTheWay(w, k));
    NotInHands(w, k);
    assert !OnTheWay(w, k) by {
      forall d | d in w.callers ensures k !in Outgoing(w.callers[d]) {
        assert k !in Held(w.callers[d]);
      }
    }
    assert k in Outgoing(after.callers[c]) && k in Pending(after.rows);
    DoomedIsStranded(after, k);
  }

  lemma RestoredOver(w: World, c: nat, k: Key)
    requires Enabled(w, Return(c, true)) && k in Pending(w.rows) && OnTheWay(w, k)
    requires w.callers[c].published == 0 && w.callers[c].reopened
    ensures Doomed(After(w, Return(c, true)), k)
  {
    var after := After(w, Return(c, true));
    if k !in w.tasks {
      var d :| d in w.callers && k in Outgoing(w.callers[d]);
      assert d != c && after.callers[d] == w.callers[d];
    }
  }

  /** From a world in which no row is stranded or doomed, the steps after which some row can
      come to be stranded are exactly those named. */
  lemma StrandsExactlyWhen(w: World, s: Step)
    requires Safe(w) && Kept(w) && Enabled(w, s)
    ensures CanStrand(After(w, s)) <==> Strands(w, s)
  {
    if Loses(w, s) {
      LosingStep(w, s);
    } else if Dooms(w, s) {
      DoomingStep(w, s);
    } else {
      KeptStep(w, s);
      forall steps, end, k | Careful(After(w, s), steps, end) ensures !Stranded(end, k) {
        KeptAlong(After(w, s), steps, end);
      }
    }
  }

  // ---- For good ----

  /** No retry can pick a stranded row up again: short of a duplicate result it stays
      queued for good, and no result completes its campaign. */
  lemma {:induction false} StrandedForGood(w: World, steps: seq<Step>, end: World, k: Key)
    requires Stranded(w, k) && Runs(w, steps, end)
    requires forall i | 0 <= i < |steps| && steps[i].Redeliver? :: steps[i].result.key != k
    ensures Stranded(end, k)
    ensures forall r | Reportable(r) && r.key in end.tasks :: StatusAfter(end, r) == end.status
    decreases |steps|
  {
    if steps != [] {
      StrandedStays(w, steps[0], k);
      StrandedForGood(After(w, steps[0]), steps[1..], end, k);
    } else {
      forall r | Reportable(r) && r.key in end.tasks ensures StatusAfter(end, r) == end.status {
        assert k in Pending(Upserted(end.rows, r));
      }
    }
  }

  lemma StrandedStays(w: World, s: Step, k: Key)
    requires Stranded(w, k) && Enabled(w, s) && (s.Redeliver? ==> s.result.key != k)
    ensures Stranded(After(w, s), k)
  {
    var after := After(w, s);
    forall c | c in after.callers ensures k !in Held(after.callers[c]) {
      if k in Held(after.callers[c]) {
        HeldComesFrom(w, s, k, c);
      }
    }
    StaysQueued(w, s, k);
    StaysOffTheQueue(w, s, k);
  }

  lemma HeldComesFrom(w: World, s: Step, k: Key, c: nat)
    requires Enabled(w, s) && c in After(w, s).callers && k in Held(After(w, s).callers[c])
    ensures (c in w.callers && k in Held(w.callers[c])) || Takes(w, s, k)
  {
  }

  lemma StaysQueued(w: World, s: Step, k: Key)
    requires Stranded(w, k) && Enabled(w, s) && (s.Redeliver? ==> s.result.key != k)
    ensures k in Pending(After(w, s).rows)
  {
    if s.ReleaseRows? {
      assert k !in Held(w.callers[s.c]);
    }
    RowCounters(w, s, k);
    QueuedUntilSettled(w, s, k);
  }

  lemma StaysOffTheQueue(w: World, s: Step, k: Key)
    requires Stranded(w, k) && Enabled(w, s)
    ensures k !in After(w, s).tasks
  {
    if s.Publish? {
      assert k !in Held(w.callers[s.c]);
    }
  }

  // ---- Runs that end in such a step ----

  lemma ReachesStranding(w: World, steps: seq<Step>, end: World, s: Step)
    requires Dispatched(w) && (forall k :: w.tasks[k] <= 1) && Runs(w, steps, end)
    requires forall i | 0 <= i < |steps| :: !Unexpected(steps[i])
    requires Enabled(end, s) && Strands(end, s)
    ensures CanStrand(After(end, s))
  {
    ClaimsAreExclusive(w, steps, end);
    if Loses(end, s) {
      LosingStep(end, s);
    } else {
      DoomingStep(end, s);
    }
  }

  /** The only target failed, so the campaign is completed; a caller claims its row, but
      reopening fails. */
  lemma FailedReopenStrands(k: Key) returns (w: World)
    ensures Dispatched(Start(multiset{k}))
    ensures Runs(Start(multiset{k}), [Report(Failure(k)), Check(0)] + [ClaimRows(0, None, Done)], w)
    ensures Enabled(w, Reopen(0, NotDone)) && CanStrand(After(w, Reopen(0, NotDone)))
  {
    w := ClaimedOnceCompleted(k);
    var steps := [Report(Failure(k)), Check(0)] + [ClaimRows(0, None, Done)];
    assert forall i | 0 <= i < |steps| :: !Unexpected(steps[i]);
    ReachesStranding(Start(multiset{k}), steps, w, Reopen(0, NotDone));
  }

  lemma ClaimedOnceCompleted(k: Key) returns (w: World)
    ensures Runs(Start(multiset{k}), [Report(Failure(k)), Check(0)] + [ClaimRows(0, None, Done)], w)
    ensures Enabled(w, Reopen(0, NotDone)) && Strands(w, Reopen(0, NotDone))
  {
    var checked := SeenCompleted(k);
    w := ClaimCompleted(checked, k);
    Extend(Start(multiset{k}), [Report(Failure(k)), Check(0)], checked, ClaimRows(0, None, Done));
  }

  lemma SeenCompleted(k: Key) returns (w: World)
    ensures Runs(Start(multiset{k}), [Report(Failure(k)), Check(0)], w)
    ensures w.status == A.Completed && w.callers == map[0 := Checked(true)] && k in Claimable(w.rows, None)
  {
    var start := Start(multiset{k});
    var w1 := LastFails(start, k);
    RunsTwo(start, Report(Failure(k)), Check(0));
    w := After(w1, Check(0));
  }

  lemma LastFails(w: World, k: Key) returns (end: World)
    requires w.status == A.Processing && w.total == 1 && w.rows == map[] && k in w.tasks
    ensures end == After(w, Report(Failure(k)))
    ensures end.status == A.Completed && end.callers == w.callers
    ensures end.rows == map[k := Row(Failed, true, 1)] && k in Claimable(end.rows, None)
  {
    end := After(w, Report(Failure(k)));
    assert end.rows == map[k := Row(Failed, true, 1)] && Pending(end.rows) == {};
  }

  lemma ClaimCompleted(w: World, k: Key) returns (end: World)
    requires w.status == A.Completed && w.callers == map[0 := Checked(true)] && k in Claimable(w.rows, None)
    ensures Enabled(w, ClaimRows(0, None, Done)) && end == After(w, ClaimRows(0, None, Done))
    ensures Enabled(end, Reopen(0, NotDone)) && Strands(end, Reopen(0, NotDone))
  {
    end := After(w, ClaimRows(0, None, Done));
    assert k in end.callers[0].todo && k in Pending(end.rows);
  }

  /** A caller sees the campaign processing; the last result comes in, a failure, and completes
      it; the caller claims the row and, having seen no completed campaign, does not reopen it. */
  lemma StaleCheckStrands(k: Key) returns (w: World)
    ensures Dispatched(Start(multiset{k}))
    ensures Runs(Start(multiset{k}), [Check(0), Report(Failure(k))], w)
    ensures Enabled(w, ClaimRows(0, None, Done)) && CanStrand(After(w, ClaimRows(0, None, Done)))
  {
    var start := Start(multiset{k});
    RunsTwo(start, Check(0), Report(Failure(k)));
    w := LastFails(After(start, Check(0)), k);
    assert w.callers[0] == Checked(false);
    ReachesStranding(start, [Check(0), Report(Failure(k))], w, ClaimRows(0, None, Done));
  }

  /** Two callers retry a row each of a completed campaign. The first one's publish is refused
      and it restores "completed" while the second one's row is on the way. */
  lemma RestoringStrands(k: Key, j: Key) returns (w: World)
    requires k != j
    ensures Dispatched(Start(multiset{k, j}))
    ensures Runs(Start(multiset{k, j}), [Report(Failure(k))] + [Report(Failure(j))] + TwoRetries(k, j), w)
    ensures Enabled(w, Return(0, true)) && CanStrand(After(w, Return(0, true)))
  {
    var both := FailBoth(k, j);
    w := RetryBoth(both, k, j);
    RunsJoin(Start(multiset{k, j}), [Report(Failure(k))] + [Report(Failure(j))], both, TwoRetries(k, j), w);
    assert OnTheWay(w, j);
    NoneUnexpected(k, j);
    ReachesStranding(Start(multiset{k, j}), [Report(Failure(k))] + [Report(Failure(j))] + TwoRetries(k, j), w, Return(0, true));
  }

  lemma NoneUnexpected(k: Key, j: Key)
    requires k != j
    ensures var steps := [Report(Failure(k))] + [Report(Failure(j))] + TwoRetries(k, j);
            forall i | 0 <= i < |steps| :: !Unexpected(steps[i])
    ensures forall x :: Start(multiset{k, j}).tasks[x] <= 1
  {
  }

  ghost function TwoRetries(k: Key, j: Key): seq<Step> {
    [Check(0), Check(1)] + [ClaimRows(0, Some({k}), Done), ClaimRows(1, Some({j}), Done)]
    + [Reopen(0, Done), Reopen(1, Done)] + [Publish(0, k, NotDone), ReleaseRows(0, true)]
  }

  lemma RetryBoth(w: World, k: Key, j: Key) returns (end: World)
    requires BothFailed(w, k, j)
    ensures Runs(w, TwoRetries(k, j), end)
    ensures Enabled(end, Return(0, true)) && end.callers[0].published == 0 && end.callers[0].reopened
    ensures 1 in end.callers && j in Outgoing(end.callers[1]) && j in Pending(end.rows)
  {
    var w1 := CheckBoth(w, k, j);
    var w2 := ClaimBoth(w1, k, j);
    var w3 := ReopenBoth(w2, k, j);
    end := RefuseFirst(w3, k, j);
    var s1, s2 := [Check(0), Check(1)], [ClaimRows(0, Some({k}), Done), ClaimRows(1, Some({j}), Done)];
    var s3, s4 := [Reopen(0, Done), Reopen(1, Done)], [Publish(0, k, NotDone), ReleaseRows(0, true)];
    RunsJoin(w, s1, w1, s2, w2);
    RunsJoin(w, s1 + s2, w2, s3, w3);
    RunsJoin(w, s1 + s2 + s3, w3, s4, end);
  }

  lemma FailBoth(k: Key, j: Key) returns (end: World)
    requires k != j
    ensures Runs(Start(multiset{k, j}), [Report(Failure(k))] + [Report(Failure(j))], end)
    ensures BothFailed(end, k, j)
  {
    var w1 := FirstFailure(k, j);
    end := SecondFailure(w1, k, j);
    Extend(Start(multiset{k, j}), [Report(Failure(k))], w1, Report(Failure(j)));
  }

  lemma SecondFailure(w: World, k: Key, j: Key) returns (end: World)
    requires k != j && w.status == A.Processing && w.callers == map[] && w.total == 2 && w.tasks == multiset{j}
    requires w.rows == map[k := Row(Failed, true, 1)]
    ensures Enabled(w, Report(Failure(j))) && end == After(w, Report(Failure(j))) && BothFailed(end, k, j)
  {
    end := After(w, Report(Failure(j)));
    assert end.rows == map[k := Row(Failed, true, 1), j := Row(Failed, true, 1)];
    assert |end.rows| == 2 && Pending(end.rows) == {};
  }

  /** A completed campaign both of whose rows failed. */
  ghost predicate BothFailed(w: World, k: Key, j: Key) {
    && k != j && w.status == A.Completed && w.callers == map[] && w.tasks == multiset{}
    && w.rows == map[k := Row(Failed, true, 1), j := Row(Failed, true, 1)]
  }

  /** Both callers have seen it completed and have claimed one row each. */
  ghost predicate BothClaimed(w: World, k: Key, j: Key, status: A.Status, mustReopen: bool) {
    && k != j && w.status == status && w.tasks == multiset{}
    && w.rows == map[k := Row(Queued, true, 1), j := Row(Queued, true, 1)]
    && w.callers == map[0 := Publishing({k}, {}, 0, mustReopen, !mustReopen),
                        1 := Publishing({j}, {}, 0, mustReopen, !mustReopen)]
  }

  lemma CheckBoth(w: World, k: Key, j: Key) returns (end: World)
    requires BothFailed(w, k, j)
    ensures Runs(w, [Check(0), Check(1)], end)
    ensures end == w.(callers := map[0 := Checked(true), 1 := Checked(true)])
  {
    RunsTwo(w, Check(0), Check(1));
    end := After(After(w, Check(0)), Check(1));
  }

  lemma ClaimBoth(w: World, k: Key, j: Key) returns (end: World)
    requires BothFailed(w.(callers := map[]), k, j)
    requires w.callers == map[0 := Checked(true), 1 := Checked(true)]
    ensures Runs(w, [ClaimRows(0, Some({k}), Done), ClaimRows(1, Some({j}), Done)], end)
    ensures BothClaimed(end, k, j, A.Completed, true)
  {
    var w1 := ClaimFirst(w, k, j);
    end := ClaimSecond(w1, k, j);
    RunsTwo(w, ClaimRows(0, Some({k}), Done), ClaimRows(1, Some({j}), Done));
  }

  lemma ClaimFirst(w: World, k: Key, j: Key) returns (end: World)
    requires BothFailed(w.(callers := map[]), k, j)
    requires w.callers == map[0 := Checked(true), 1 := Checked(true)]
    ensures end == After(w, ClaimRows(0, Some({k}), Done))
    ensures end.status == A.Completed && end.tasks == multiset{}
    ensures end.rows == map[k := Row(Queued, true, 1), j := Row(Failed, true, 1)]
    ensures end.callers == map[0 := Publishing({k}, {}, 0, true, false), 1 := Checked(true)]
  {
    ClaimJust(w, 0, k);
    end := After(w, ClaimRows(0, Some({k}), Done));
  }

  lemma ClaimSecond(w: World, k: Key, j: Key) returns (end: World)
    requires k != j && w.status == A.Completed && w.tasks == multiset{}
    requires w.rows == map[k := Row(Queued, true, 1), j := Row(Failed, true, 1)]
    requires w.callers == map[0 := Publishing({k}, {}, 0, true, false), 1 := Checked(true)]
    ensures end == After(w, ClaimRows(1, Some({j}), Done)) && BothClaimed(end, k, j, A.Completed, true)
  {
    ClaimJust(w, 1, j);
    end := After(w, ClaimRows(1, Some({j}), Done));
  }

  lemma ReopenBoth(w: World, k: Key, j: Key) returns (end: World)
    requires BothClaimed(w, k, j, A.Completed, true)
    ensures Runs(w, [Reopen(0, Done), Reopen(1, Done)], end)
    ensures BothClaimed(end, k, j, A.Processing, false)
  {
    RunsTwo(w, Reopen(0, Done), Reopen(1, Done));
    end := After(After(w, Reopen(0, Done)), Reopen(1, Done));
  }

  lemma RefuseFirst(w: World, k: Key, j: Key) returns (end: World)
    requires BothClaimed(w, k, j, A.Processing, false)
    ensures Runs(w, [Publish(0, k, NotDone), ReleaseRows(0, true)], end)
    ensures Enabled(end, Return(0, true)) && end.callers[0].published == 0 && end.callers[0].reopened
    ensures 1 in end.callers && j in Outgoing(end.callers[1]) && j in Pending(end.rows)
  {
    var w1 := After(w, Publish(0, k, NotDone));
    assert {k} - {k} == {};
    assert w1.callers[0] == Publishing({}, {k}, 0, false, true);
    RunsTwo(w, Publish(0, k, NotDone), ReleaseRows(0, true));
    end := After(w1, ReleaseRows(0, true));
    assert end.callers[1] == w.callers[1] && end.rows[j].status == Queued;
  }
}
