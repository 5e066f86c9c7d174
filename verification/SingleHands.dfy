/**
 One row, one pair of hands: when concurrent retries can publish a message twice.

 A row is in hands while a caller holds it or its task is on the queue. Claims take
 only failed retryable rows, so hands stay single as long as no row in hands looks
 failed and retryable. A second copy of such a result can make it look so; and a publish
 that took effect unseen leaves the row in two pairs of hands. From either of them a
 plain continuation puts the row's message on the queue twice.
 */
module SingleHands {
  import opened Audience
  import A = Approval
  import opened DeliveryLedger
  import opened RetryProtocol

  /** No row is held by two callers, held while its task is on the queue, or on the queue twice. */
  ghost predicate Single(w: World) {
    && (forall a, b | a in w.callers && b in w.callers && a != b :: Held(w.callers[a]) !! Held(w.callers[b]))
    && (forall c | c in w.callers && w.callers[c].Publishing? :: w.callers[c].todo !! w.callers[c].failed)
    && (forall c, k | c in w.callers && k in Held(w.callers[c]) :: k !in w.tasks)
    && (forall k :: w.tasks[k] <= 1)
  }

  ghost predicate Safe(w: World) {
    && Single(w)
    && w.status in {A.Processing, A.Paused, A.Completed}
    && (forall c, k | c in w.callers && k in Held(w.callers[c]) :: !Retryable(w.rows, k))
    && (forall k | k in w.tasks :: !Retryable(w.rows, k))
  }

  /** A second copy of a result says that a row failed and may be retried, while the row's
      message is being sent again; or a task reaches the queue and its caller is told that it
      did not. */
  ghost predicate Endangers(w: World, s: Step) {
    match s
    case Redeliver(r) => r.outcome == Failed && r.retryable && InHands(w, r.key)
    case Publish(_, _, call) => call == DoneUnseen
    case _ => false
  }

  // ---- Otherwise hands stay single ----

  lemma SafeStep(w: World, s: Step)
    requires Safe(w) && Enabled(w, s) && !Endangers(w, s)
    ensures Safe(After(w, s))
  {
    match s
    case ClaimRows(c, asked, call) => ClaimIsSafe(w, c, asked, call);
    case ReleaseRows(c, done) => ReleaseIsSafe(w, c, done);
    case Publish(c, key, call) => PublishIsSafe(w, c, key, call);
    case Report(r) => RecordIsSafe(w, r, StatusAfter(w, r), w.tasks - multiset{r.key});
    case Redeliver(r) => RecordIsSafe(w, r, StatusAfter(w, r), w.tasks);
    case _ => QuietIsSafe(w, s);
  }

  lemma QuietIsSafe(w: World, s: Step)
    requires Safe(w) && Enabled(w, s) && Quiet(s)
    ensures Safe(After(w, s))
  {
    var after := After(w, s);
    forall c | c in after.callers && after.callers[c].Publishing?
      ensures c in w.callers && w.callers[c].Publishing?
      ensures after.callers[c].todo == w.callers[c].todo && after.callers[c].failed == w.callers[c].failed
    {
    }
    FewerHandsAreSafe(w, after);
  }

  lemma FewerHandsAreSafe(w: World, after: World)
    requires Safe(w) && forall k :: after.tasks[k] <= w.tasks[k]
    requires forall k | Retryable(after.rows, k) :: Retryable(w.rows, k)
    requires after.status in {A.Processing, A.Paused, A.Completed}
    requires forall c | c in after.callers && after.callers[c].Publishing? ::
               && c in w.callers && Held(after.callers[c]) <= Held(w.callers[c])
               && after.callers[c].todo !! after.callers[c].failed
    ensures Safe(after)
  {
    assert forall k | k in after.tasks :: w.tasks[k] >= 1;
  }

  lemma PublishIsSafe(w: World, c: nat, key: Key, call: Call)
    requires Safe(w) && Enabled(w, Publish(c, key, call)) && call != DoneUnseen
    ensures Safe(After(w, Publish(c, key, call)))
  {
    var after := After(w, Publish(c, key, call));
    var taken := after.(tasks := w.tasks, publishes := w.publishes);
    assert key in Held(w.callers[c]);
    FewerHandsAreSafe(w, taken);
    if call == Done {
      assert forall d | d in taken.callers :: key !in Held(taken.callers[d]);
      OneMoreTaskIsSafe(taken, after, key);
    }
  }

  lemma OneMoreTaskIsSafe(w: World, after: World, key: Key)
    requires Safe(w) && key !in w.tasks && !Retryable(w.rows, key)
    requires forall c | c in w.callers :: key !in Held(w.callers[c])
    requires after == w.(tasks := w.tasks + multiset{key}, publishes := after.publishes)
    ensures Safe(after)
  {
    assert forall k | k in after.tasks :: k == key || k in w.tasks;
  }

  lemma RecordIsSafe(w: World, r: Result, status: A.Status, tasks: multiset<Key>)
    requires Safe(w) && Reportable(r) && status in {A.Processing, A.Paused, A.Completed}
    requires (tasks == w.tasks && !(r.outcome == Failed && r.retryable && InHands(w, r.key)))
             || (r.key in w.tasks && tasks == w.tasks - multiset{r.key})
    ensures Safe(Recorded(w, r, status).(tasks := tasks))
  {
    var after := Recorded(w, r, status).(tasks := tasks);
    assert forall k | k in tasks :: k in w.tasks && w.tasks[k] == 1;
    assert r.key in w.tasks && tasks == w.tasks - multiset{r.key} ==> r.key !in tasks;
    forall k | InHands(after, k) ensures !Retryable(after.rows, k) {
      RecordKeepsRow(w, r, k);
    }
    forall c, k | c in after.callers && k in Held(after.callers[c]) ensures !Retryable(after.rows, k) {
      assert InHands(after, k);
    }
  }

  lemma RecordKeepsRow(w: World, r: Result, k: Key)
    ensures k != r.key ==> (Retryable(Upserted(w.rows, r), k) <==> Retryable(w.rows, k))
    ensures Retryable(Upserted(w.rows, r), r.key) <==> r.outcome == Failed && r.retryable
  {
  }

  lemma ClaimIsSafe(w: World, c: nat, asked: Option<set<Key>>, call: Call)
    requires Safe(w) && Enabled(w, ClaimRows(c, asked, call))
    ensures Safe(After(w, ClaimRows(c, asked, call)))
  {
    var after, claimed := After(w, ClaimRows(c, asked, call)), Claimable(w.rows, asked);
    ClaimChanges(w.rows, asked);
    assert WithStatus(w.rows, {}, Queued) == w.rows;
    if call == Done {
      forall d, k | d in w.callers && k in Held(w.callers[d]) ensures k !in claimed && !Retryable(after.rows, k) {
      }
      forall k | k in w.tasks ensures k !in claimed && !Retryable(after.rows, k) {
      }
      assert Held(after.callers[c]) == claimed;
    } else {
      FewerHandsAreSafe(w, after);
    }
  }

  lemma ClaimChanges(rows: map<Key, Row>, asked: Option<set<Key>>)
    ensures forall k | k in Claimable(rows, asked) :: Retryable(rows, k)
    ensures forall k :: Retryable(Claim(rows, asked), k) <==> Retryable(rows, k) && k !in Claimable(rows, asked)
  {
  }

  lemma ReleaseIsSafe(w: World, c: nat, done: bool)
    requires Safe(w) && Enabled(w, ReleaseRows(c, done))
    ensures Safe(After(w, ReleaseRows(c, done)))
  {
    var after := After(w, ReleaseRows(c, done));
    assert Held(after.callers[c]) == {};
    assert forall k | k !in w.callers[c].failed :: Retryable(after.rows, k) == Retryable(w.rows, k);
  }

  /** A run without such a step. */
  ghost predicate Orderly(w: World, steps: seq<Step>, end: World)
    decreases |steps|
  {
    if steps == [] then w == end
    else Enabled(w, steps[0]) && !Endangers(w, steps[0]) && Orderly(After(w, steps[0]), steps[1..], end)
  }

  lemma {:induction false} SafeAlong(w: World, steps: seq<Step>, end: World)
    requires Safe(w) && Orderly(w, steps, end)
    ensures Safe(end)
    decreases |steps|
  {
    if steps != [] {
      SafeStep(w, steps[0]);
      SafeAlong(After(w, steps[0]), steps[1..], end);
    }
  }

  // ---- From such a step on, a message can be on the queue twice ----

  /** Some orderly continuation puts a row's task on the queue twice. */
  ghost predicate CanDouble(w: World) {
    exists steps, end, k :: Orderly(w, steps, end) && end.tasks[k] > 1
  }

  lemma OrderlyFirst(w: World, s: Step)
    requires Enabled(w, s) && !Endangers(w, s) && CanDouble(After(w, s))
    ensures CanDouble(w)
  {
    var steps, end, k :| Orderly(After(w, s), steps, end) && end.tasks[k] > 1;
    assert ([s] + steps)[1..] == steps;
    assert Orderly(w, [s] + steps, end);
  }

  lemma DoubledNow(w: World, k: Key)
    requires w.tasks[k] > 1
    ensures CanDouble(w)
  {
    assert Orderly(w, [], w);
  }

  lemma {:induction false} AboveAll(s: set<nat>) returns (c: nat)
    ensures forall x | x in s :: x < c
  {
    c := 0;
    if s != {} {
      var x :| x in s;
      var d := AboveAll(s - {x});
      c := if x < d then d else x + 1;
      assert forall y | y in s :: y == x || y in s - {x};
    }
  }

  /** The row's message has been sent once more by a caller of its own; nothing else changed. */
  ghost predicate SentAgain(w: World, after: World, k: Key) {
    && after.status == A.Processing
    && k in Pending(after.rows) && after.rows[k].retryable
    && after.tasks == w.tasks + multiset{k}
    && forall c | c in w.callers :: c in after.callers && after.callers[c] == w.callers[c]
  }

  /** A row that looks failed and retryable is claimed and published by a new caller. To show
      that something is possible from w it is enough to show it from there. */
  lemma SendAgain(w: World, k: Key) returns (end: World)
    requires Retryable(w.rows, k) && w.status in {A.Processing, A.Paused, A.Completed}
    ensures SentAgain(w, end, k) && (CanDouble(end) ==> CanDouble(w))
  {
    var open := if w.status == A.Paused then After(w, Resume) else w;
    var c := AboveAll(w.callers.Keys);
    assert c !in w.callers;
    var checked := After(open, Check(c));
    var claimed := After(checked, ClaimRows(c, Some({k}), Done));
    ClaimJust(checked, c, k);
    end := ReopenAndPublish(claimed, c, k);
    if CanDouble(end) {
      OrderlyFirst(checked, ClaimRows(c, Some({k}), Done));
      OrderlyFirst(open, Check(c));
      if w.status == A.Paused {
        OrderlyFirst(w, Resume);
      }
    }
  }

  /** What claiming one row comes to. */
  lemma ClaimJust(w: World, c: nat, k: Key)
    requires Enabled(w, ClaimRows(c, Some({k}), Done)) && Retryable(w.rows, k)
    ensures After(w, ClaimRows(c, Some({k}), Done))
         == w.(rows := w.rows[k := w.rows[k].(status := Queued)],
               callers := w.callers[c := Publishing({k}, {}, 0, w.callers[c].wasCompleted, false)],
               claims := w.claims + multiset{k})
  {
    assert Claimable(w.rows, Some({k})) == {k};
    assert Claim(w.rows, Some({k})) == w.rows[k := w.rows[k].(status := Queued)];
  }

  lemma ReopenAndPublish(w: World, c: nat, k: Key) returns (end: World)
    requires c in w.callers && w.callers[c].Publishing? && k in w.callers[c].todo
    requires w.callers[c].mustReopen || w.status == A.Processing
    requires k in Pending(w.rows)
    ensures end.status == A.Processing && end.rows == w.rows && end.tasks == w.tasks + multiset{k}
    ensures forall d | d in w.callers && d != c :: d in end.callers && end.callers[d] == w.callers[d]
    ensures CanDouble(end) ==> CanDouble(w)
  {
    var open := if w.callers[c].mustReopen then After(w, Reopen(c, Done)) else w;
    end := After(open, Publish(c, k, Done));
    if CanDouble(end) {
      OrderlyFirst(open, Publish(c, k, Done));
      if w.callers[c].mustReopen {
        OrderlyFirst(w, Reopen(c, Done));
      }
    }
  }

  /** A caller whose publishing of k failed is refused all the rest, and gives k back. */
  lemma {:induction false} GivesBack(w: World, a: nat, k: Key) returns (end: World)
    requires a in w.callers && w.callers[a].Publishing? && k in w.callers[a].failed
    requires k in Pending(w.rows) && w.rows[k].retryable && w.status == A.Processing
    ensures Retryable(end.rows, k) && end.status == A.Processing && end.tasks == w.tasks
    ensures CanDouble(end) ==> CanDouble(w)
    decreases w.callers[a].todo, w.callers[a].mustReopen
  {
    if w.callers[a].mustReopen {
      var open := After(w, Reopen(a, NotDone));
      end := GivesBack(open, a, k);
      if CanDouble(end) { OrderlyFirst(w, Reopen(a, NotDone)); }
    } else if x :| x in w.callers[a].todo {
      var refused := After(w, Publish(a, x, NotDone));
      end := GivesBack(refused, a, k);
      if CanDouble(end) { OrderlyFirst(w, Publish(a, x, NotDone)); }
    } else {
      end := After(w, ReleaseRows(a, true));
      if CanDouble(end) { OrderlyFirst(w, ReleaseRows(a, true)); }
    }
  }

  /** A row in hands that looks failed and retryable ends up on the queue twice: once by a
      new caller, and once by whoever had it. */
  lemma CanBeDoubled(w: World, k: Key)
    requires InHands(w, k) && Retryable(w.rows, k) && w.status in {A.Processing, A.Paused, A.Completed}
    ensures CanDouble(w)
  {
    var again := SendAgain(w, k);
    if k in w.tasks {
      DoubledNow(again, k);
    } else {
      var a :| a in w.callers && k in Held(w.callers[a]);
      assert k in again.tasks;
      if k in w.callers[a].todo {
        var twice := ReopenAndPublish(again, a, k);
        DoubledNow(twice, k);
      } else {
        var back := GivesBack(again, a, k);
        var twice := SendAgain(back, k);
        DoubledNow(twice, k);
      }
    }
  }

  lemma EndangeringStep(w: World, s: Step)
    requires Safe(w) && Enabled(w, s) && Endangers(w, s)
    ensures CanDouble(After(w, s))
  {
    match s
    case Redeliver(r) => RedeliveryDoubles(w, r);
    case Publish(c, key, call) => UnseenPublishDoubles(w, c, key);
    case _ =>
  }

  lemma RedeliveryDoubles(w: World, r: Result)
    requires Safe(w) && Enabled(w, Redeliver(r)) && Endangers(w, Redeliver(r))
    ensures CanDouble(After(w, Redeliver(r)))
  {
    var after := After(w, Redeliver(r));
    assert InHands(after, r.key) by {
      if r.key !in w.tasks {
        var c :| c in w.callers && r.key in Held(w.callers[c]);
        assert c in after.callers && r.key in Held(after.callers[c]);
      }
    }
    RecordKeepsRow(w, r, r.key);
    CanBeDoubled(after, r.key);
  }

  /** The unseen task comes back with a failure while its caller still means to release it. */
  lemma UnseenPublishDoubles(w: World, c: nat, key: Key)
    requires Safe(w) && Enabled(w, Publish(c, key, DoneUnseen))
    ensures CanDouble(After(w, Publish(c, key, DoneUnseen)))
  {
    var after := After(w, Publish(c, key, DoneUnseen));
    assert key in after.tasks;
    var failed := After(after, Report(Failure(key)));
    RecordKeepsRow(after, Failure(key), key);
    assert key in Held(failed.callers[c]) && InHands(failed, key);
    CanBeDoubled(failed, key);
    OrderlyFirst(after, Report(Failure(key)));
  }

  /** From a safe world, the steps after which some orderly continuation puts a message on the
      queue twice are exactly those two. */
  lemma EndangeredExactlyBy(w: World, s: Step)
    requires Safe(w) && Enabled(w, s)
    ensures CanDouble(After(w, s)) <==> Endangers(w, s)
  {
    if Endangers(w, s) {
      EndangeringStep(w, s);
    } else {
      SafeStep(w, s);
      forall steps, end, k | Orderly(After(w, s), steps, end) ensures end.tasks[k] <= 1 {
        SafeAlong(After(w, s), steps, end);
      }
    }
  }

  ghost predicate NeverCanDouble(w: World, steps: seq<Step>, end: World)
    requires Runs(w, steps, end)
    decreases |steps|
  {
    !CanDouble(w) && (steps != [] ==> NeverCanDouble(After(w, steps[0]), steps[1..], end))
  }

  /** The same for whole interleaved runs: no point of the run leads, by an orderly
      continuation, to a message on the queue twice, exactly when the run is orderly itself. */
  lemma {:induction false} SingleExactlyWhen(w: World, steps: seq<Step>, end: World)
    requires Safe(w) && Runs(w, steps, end)
    ensures NeverCanDouble(w, steps, end) <==> Orderly(w, steps, end)
    decreases |steps|
  {
    SafeCannotDouble(w);
    if steps != [] {
      EndangeredExactlyBy(w, steps[0]);
      if !Endangers(w, steps[0]) {
        SafeStep(w, steps[0]);
        SingleExactlyWhen(After(w, steps[0]), steps[1..], end);
      } else {
        assert CanDouble(After(w, steps[0]));
      }
    }
  }

  lemma SafeCannotDouble(w: World)
    requires Safe(w)
    ensures !CanDouble(w)
  {
    forall steps, end, k | Orderly(w, steps, end) ensures end.tasks[k] <= 1 {
      SafeAlong(w, steps, end);
    }
  }

  // ---- After a dispatch ----

  /** A dispatch doubles k at once if it is on the queue twice, or if a retry can put it there
      again: its row is one that an earlier, aborted dispatch left failed and retryable. */
  ghost predicate DispatchDoubles(w: World, k: Key) {
    k in w.tasks && (w.tasks[k] > 1 || Retryable(w.rows, k))
  }

  /** Right after a dispatch, over whatever rows and tasks there already were, some orderly
      continuation puts a message on the queue twice exactly when there is such a row. */
  lemma DispatchDoublesExactlyWhen(w: World)
    requires Begins(w)
    ensures CanDouble(w) <==> exists k :: DispatchDoubles(w, k)
    ensures (forall k :: !DispatchDoubles(w, k)) ==> Safe(w)
  {
    if k :| DispatchDoubles(w, k) {
      if w.tasks[k] > 1 {
        DoubledNow(w, k);
      } else {
        CanBeDoubled(w, k);
      }
    }
    if forall k :: !DispatchDoubles(w, k) {
      BeginsSafely(w);
      SafeCannotDouble(w);
    }
  }

  lemma BeginsSafely(w: World)
    requires Begins(w) && forall k :: !DispatchDoubles(w, k)
    ensures Safe(w)
  {
    forall k ensures w.tasks[k] <= 1 {
      assert !DispatchDoubles(w, k);
    }
    forall k | k in w.tasks ensures !Retryable(w.rows, k) {
      assert !DispatchDoubles(w, k);
    }
  }

  /** For every run from every dispatch: no point of it leads, by an orderly continuation, to a
      message on the queue twice, exactly when the dispatch itself doubles nothing and the run
      is orderly. */
  lemma NeverTwiceExactlyWhen(w: World, steps: seq<Step>, end: World)
    requires Begins(w) && Runs(w, steps, end)
    ensures NeverCanDouble(w, steps, end) <==> (forall k :: !DispatchDoubles(w, k)) && Orderly(w, steps, end)
  {
    DispatchDoublesExactlyWhen(w);
    if forall k :: !DispatchDoubles(w, k) {
      SingleExactlyWhen(w, steps, end);
    }
  }

  /** The third cause as a run: a task of an aborted dispatch failed, the campaign is dispatched
      again, and a retry claims the row before the new task has a result. */
  lemma LeftoverFailureDoubles(k: Key) returns (w: World, end: World)
    ensures Begins(w) && w.total == 1 && w.tasks == multiset{k}
    ensures w.rows == Dispatching(Record(Ledger(A.Draft, 0, 0, map[]), Failure(k)), 1).rows
    ensures Orderly(w, [Check(0), ClaimRows(0, Some({k}), Done), Publish(0, k, Done)], end) && end.tasks[k] == 2
  {
    w := Start(multiset{k}).(rows := map[k := Row(Failed, true, 1)]);
    assert Upserted(map[], Failure(k)) == w.rows;
    var checked := After(w, Check(0));
    var claimed := After(checked, ClaimRows(0, Some({k}), Done));
    ClaimJust(checked, 0, k);
    end := After(claimed, Publish(0, k, Done));
    OrderlyThree(w, Check(0), ClaimRows(0, Some({k}), Done), Publish(0, k, Done));
  }

  lemma OrderlyThree(w: World, a: Step, b: Step, c: Step)
    requires Enabled(w, a) && !Endangers(w, a)
    requires Enabled(After(w, a), b) && !Endangers(After(w, a), b)
    requires Enabled(After(After(w, a), b), c) && !Endangers(After(After(w, a), b), c)
    ensures Orderly(w, [a, b, c], After(After(After(w, a), b), c))
  {
    var end := After(After(After(w, a), b), c);
    assert [a, b, c][1..] == [b, c] && [b, c][1..] == [c] && [c][1..] == [];
    assert Orderly(end, [], end);
    assert Orderly(After(After(w, a), b), [c], end);
    assert Orderly(After(w, a), [b, c], end);
  }

  predicate Unexpected(s: Step) {
    s.Redeliver? || (s.Publish? && s.call == DoneUnseen)
  }

  lemma {:induction false} ExpectedIsOrderly(w: World, steps: seq<Step>, end: World)
    requires Runs(w, steps, end) && forall i | 0 <= i < |steps| :: !Unexpected(steps[i])
    ensures Orderly(w, steps, end)
    decreases |steps|
  {
    if steps != [] {
      ExpectedIsOrderly(After(w, steps[0]), steps[1..], end);
    }
  }

  /** When every task yields at most one result, no publish takes effect unseen, and the
      dispatch doubled nothing, a message is not published twice, and rows in two callers'
      hands are different rows. */
  lemma ClaimsAreExclusive(w: World, steps: seq<Step>, end: World)
    requires Begins(w) && (forall k :: !DispatchDoubles(w, k)) && Runs(w, steps, end)
    requires forall i | 0 <= i < |steps| :: !Unexpected(steps[i])
    ensures Safe(end)
    ensures forall k :: end.tasks[k] <= 1
    ensures forall a, b | a in end.callers && b in end.callers && a != b :: Held(end.callers[a]) !! Held(end.callers[b])
    ensures forall c, k | c in end.callers && k in Held(end.callers[c]) :: k !in end.tasks
  {
    BeginsSafely(w);
    ExpectedIsOrderly(w, steps, end);
    SafeAlong(w, steps, end);
  }

  /** Both dangers arise soon after a dispatch: a target fails, its row is claimed, and then
      its result comes again, or publishing it goes unseen. */
  lemma DangersArise(k: Key, j: Key) returns (w: World)
    requires k != j
    ensures var start := Start(multiset{k, j});
            Dispatched(start) && Runs(start, [Report(Failure(k))] + [Check(0), ClaimRows(0, Some({k}), Done)], w)
    ensures Enabled(w, Redeliver(Failure(k))) && CanDouble(After(w, Redeliver(Failure(k))))
    ensures Enabled(w, Publish(0, k, DoneUnseen)) && CanDouble(After(w, Publish(0, k, DoneUnseen)))
  {
    var w1 := FirstFailure(k, j);
    w := CheckAndClaim(w1, k);
    var steps := [Check(0), ClaimRows(0, Some({k}), Done)];
    RunsJoin(Start(multiset{k, j}), [Report(Failure(k))], w1, steps, w);
    assert forall i | 0 <= i < 3 :: !Unexpected(([Report(Failure(k))] + steps)[i]);
    BothDangers(Start(multiset{k, j}), [Report(Failure(k))] + steps, w, k);
  }

  lemma BothDangers(start: World, steps: seq<Step>, w: World, k: Key)
    requires Dispatched(start) && (forall x :: start.tasks[x] <= 1) && Runs(start, steps, w)
    requires forall i | 0 <= i < |steps| :: !Unexpected(steps[i])
    requires Enabled(w, Publish(0, k, DoneUnseen))
    ensures CanDouble(After(w, Redeliver(Failure(k)))) && CanDouble(After(w, Publish(0, k, DoneUnseen)))
  {
    ClaimsAreExclusive(start, steps, w);
    assert k in Held(w.callers[0]) && InHands(w, k);
    EndangeredExactlyBy(w, Redeliver(Failure(k)));
    EndangeredExactlyBy(w, Publish(0, k, DoneUnseen));
  }

  lemma FirstFailure(k: Key, j: Key) returns (w1: World)
    requires k != j
    ensures var w := Start(multiset{k, j});
            Dispatched(w) && (forall x :: w.tasks[x] <= 1) && Runs(w, [Report(Failure(k))], w1)
    ensures w1.status == A.Processing && w1.callers == map[] && w1.total == 2 && w1.tasks == multiset{j}
    ensures w1.rows == map[k := Row(Failed, true, 1)]
  {
    var w := Start(multiset{k, j});
    assert w.tasks[k] == 1 && w.tasks[j] == 1;
    w1 := After(w, Report(Failure(k)));
    assert w1.rows == map[k := Row(Failed, true, 1)];
    Extend(w, [], w, Report(Failure(k)));
    assert [] + [Report(Failure(k))] == [Report(Failure(k))];
  }

  lemma CheckAndClaim(w: World, k: Key) returns (end: World)
    requires w.callers == map[] && w.status == A.Processing && Retryable(w.rows, k)
    ensures Runs(w, [Check(0), ClaimRows(0, Some({k}), Done)], end)
    ensures 0 in end.callers && end.callers[0] == Publishing({k}, {}, 0, false, false)
  {
    RunsTwo(w, Check(0), ClaimRows(0, Some({k}), Done));
    ClaimJust(After(w, Check(0)), 0, k);
    end := After(After(w, Check(0)), ClaimRows(0, Some({k}), Done));
  }
}
