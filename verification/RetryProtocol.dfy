/**
 Concurrent retries of one campaign's deliveries, interleaved with results.

 Each caller reads the status, claims rows, reopens the campaign, publishes task by
 task, releases what it could not publish, and restores the status if it published
 nothing. Steps of different callers, results, and pauses interleave freely; any call
 may fail, or take effect and be reported as failed, and a caller may die between two
 calls. The multisets count, for each row, what has happened to it so far.
 */
module RetryProtocol {
  import opened Audience
  import A = Approval
  import opened DeliveryLedger
  import opened Listings

  /** A caller between its status check and its return. `todo` and `failed` are claimed rows
      still to be published and rows whose publishing failed. */
  datatype Caller =
    | Checked(wasCompleted: bool)
    | Publishing(todo: set<Key>, failed: set<Key>, published: nat, mustReopen: bool, reopened: bool)

  /** How a call to the database or the queue went: it may take effect although the caller
      is told that it failed. */
  datatype Call = Done | NotDone | DoneUnseen

  /** Why a worker gives up a task without a result. */
  datatype Why = Finished | AlreadyDelivered | Lost

  datatype World = World(
    status: A.Status,
    total: nat,
    rows: map<Key, Row>,
    callers: map<nat, Caller>,
    tasks: multiset<Key>,
    claims: multiset<Key>,
    publishes: multiset<Key>,
    unseen: multiset<Key>,
    results: multiset<Key>,
    releases: multiset<Key>)

  datatype Step =
    | Check(c: nat)
    | ClaimRows(c: nat, asked: Option<set<Key>>, call: Call)
    | Reopen(c: nat, call: Call)
    | Publish(c: nat, key: Key, call: Call)
    | ReleaseRows(c: nat, done: bool)
    | Return(c: nat, done: bool)
    | Die(c: nat)
    | Report(result: Result)
    | Redeliver(result: Result)
    | Drop(key: Key, why: Why)
    | Pause
    | Resume

  function Held(c: Caller): set<Key> {
    if c.Publishing? then c.todo + c.failed else {}
  }

  /** A worker drops a task when the campaign is completed, when a row of that address is
      already delivered, or when it cannot read the status; a task or its result may also be
      lost. (The worker compares the channel too; without it the model drops no fewer tasks.) */
  predicate Droppable(w: World, key: Key, why: Why) {
    match why
    case Finished => w.status == A.Completed
    case AlreadyDelivered => exists d | d in w.rows :: d.routing == key.routing && w.rows[d].status == Delivered
    case Lost => true
  }

  /** A result uses up its task; a redelivered one arrives without. */
  predicate Enabled(w: World, s: Step) {
    match s
    case Check(c) => c !in w.callers && w.status in {A.Processing, A.Completed}
    case ClaimRows(c, _, _) => c in w.callers && w.callers[c].Checked?
    case Reopen(c, _) => c in w.callers && w.callers[c].Publishing? && w.callers[c].mustReopen
    case Publish(c, key, _) =>
      c in w.callers && w.callers[c].Publishing? && !w.callers[c].mustReopen && key in w.callers[c].todo
    case ReleaseRows(c, _) =>
      c in w.callers && w.callers[c].Publishing? && w.callers[c].todo == {} && w.callers[c].failed != {}
    case Return(c, _) =>
      c in w.callers && w.callers[c].Publishing? && !w.callers[c].mustReopen && Held(w.callers[c]) == {}
    case Die(c) => c in w.callers
    case Report(r) => Reportable(r) && r.key in w.tasks
    case Redeliver(r) => Reportable(r)
    case Drop(key, why) => key in w.tasks && Droppable(w, key, why)
    case Pause => w.status == A.Processing
    case Resume => w.status == A.Paused
  }

  function Recorded(w: World, r: Result, status: A.Status): World {
    w.(status := status, rows := Upserted(w.rows, r), results := w.results + multiset{r.key})
  }

  function StatusAfter(w: World, r: Result): A.Status {
    Recount(w.status, w.total, Upserted(w.rows, r))
  }

  function After(w: World, s: Step): World
    requires Enabled(w, s)
  {
    match s
    case Check(c) => w.(callers := w.callers[c := Checked(w.status == A.Completed)])
    case ClaimRows(c, asked, call) =>
      var claimed := if call == NotDone then {} else Claimable(w.rows, asked);
      w.(rows := WithStatus(w.rows, claimed, Queued),
         callers := if call == Done
                    then w.callers[c := Publishing(claimed, {}, 0, w.callers[c].wasCompleted && claimed != {}, false)]
                    else w.callers - {c},
         claims := w.claims + multiset(claimed))
    case Reopen(c, call) =>
      w.(status := if call == NotDone then w.status else A.Processing,
         callers := w.callers[c := w.callers[c].(mustReopen := false, reopened := call == Done)])
    case Publish(c, key, call) =>
      var p := w.callers[c].(todo := w.callers[c].todo - {key});
      var sent, unseen := if call == NotDone then multiset{} else multiset{key}, if call == DoneUnseen then multiset{key} else multiset{};
      w.(callers := w.callers[c := if call == Done then p.(published := p.published + 1) else p.(failed := p.failed + {key})],
         tasks := w.tasks + sent, publishes := w.publishes + sent, unseen := w.unseen + unseen)
    case ReleaseRows(c, done) =>
      var released := if done then w.callers[c].failed * Pending(w.rows) else {};
      w.(rows := Release(w.rows, released),
         callers := w.callers[c := w.callers[c].(failed := {})],
         releases := w.releases + multiset(released))
    case Return(c, done) =>
      w.(status := if w.callers[c].published == 0 && w.callers[c].reopened && done then A.Completed else w.status,
         callers := w.callers - {c})
    case Die(c) => w.(callers := w.callers - {c})
    case Report(r) => Recorded(w, r, StatusAfter(w, r)).(tasks := w.tasks - multiset{r.key})
    case Redeliver(r) => Recorded(w, r, StatusAfter(w, r))
    case Drop(key, _) => w.(tasks := w.tasks - multiset{key})
    case Pause => w.(status := A.Paused)
    case Resume => w.(status := A.Processing)
  }

  /** The steps are possible one after the other and lead from w to end. */
  ghost predicate Runs(w: World, steps: seq<Step>, end: World)
    decreases |steps|
  {
    if steps == [] then w == end
    else Enabled(w, steps[0]) && Runs(After(w, steps[0]), steps[1..], end)
  }

  /** Right after a dispatch: no callers, and tasks and rows whatever they are, the dispatch's
      own tasks and what earlier, aborted dispatches have left. */
  ghost predicate Begins(w: World) {
    && w.status == A.Processing && w.callers == map[]
    && w.claims == w.publishes == w.unseen == w.results == w.releases == multiset{}
  }

  /** Right after a first dispatch: no rows, and only its own tasks. */
  ghost predicate Dispatched(w: World) {
    Begins(w) && w.total == |w.tasks| && w.rows == map[]
  }

  /** Steps that leave rows alone and give no caller anything to hold. */
  predicate Quiet(s: Step) {
    s.Check? || s.Reopen? || s.Return? || s.Die? || s.Drop? || s.Pause? || s.Resume?
  }

  /** Someone is about to send the row's message, or it is waiting to be sent. */
  ghost predicate InHands(w: World, k: Key) {
    k in w.tasks || exists c :: c in w.callers && k in Held(w.callers[c])
  }

  predicate Retryable(rows: map<Key, Row>, k: Key) {
    k in rows && rows[k].status == Failed && rows[k].retryable
  }

  function Failure(k: Key): Result {
    Result(k, Failed, true)
  }

  ghost function Start(tasks: multiset<Key>): World {
    World(A.Processing, |tasks|, map[], map[], tasks, multiset{}, multiset{}, multiset{}, multiset{}, multiset{})
  }

  // ---- Composing runs ----

  lemma {:induction false} Extend(w: World, steps: seq<Step>, now: World, s: Step)
    requires Runs(w, steps, now) && Enabled(now, s)
    ensures Runs(w, steps + [s], After(now, s))
    decreases |steps|
  {
    if steps == [] {
      assert Runs(After(w, s), [], After(now, s));
      assert (steps + [s])[1..] == [];
    } else {
      Extend(After(w, steps[0]), steps[1..], now, s);
      assert (steps + [s])[1..] == steps[1..] + [s];
    }
  }

  lemma RunsTwo(w: World, a: Step, b: Step)
    requires Enabled(w, a) && Enabled(After(w, a), b)
    ensures Runs(w, [a, b], After(After(w, a), b))
  {
    Extend(w, [], w, a);
    Extend(w, [a], After(w, a), b);
    assert [] + [a] == [a] && [a] + [b] == [a, b];
  }

  lemma {:induction false} RunsJoin(w: World, first: seq<Step>, mid: World, second: seq<Step>, end: World)
    requires Runs(w, first, mid) && Runs(mid, second, end)
    ensures Runs(w, first + second, end)
    decreases |first|
  {
    if first == [] {
      assert first + second == second;
    } else {
      RunsJoin(After(w, first[0]), first[1..], mid, second, end);
      assert (first + second)[1..] == first[1..] + second;
    }
  }

  // ---- Counting ----

  ghost function Holding(callers: map<nat, Caller>, k: Key): set<nat> {
    set c | c in callers && k in Held(callers[c])
  }

  function Todo(c: Caller): set<Key> {
    if c.Publishing? then c.todo else {}
  }

  ghost function ToPublish(callers: map<nat, Caller>, k: Key): set<nat> {
    set c | c in callers && k in Todo(callers[c])
  }

  /** How the two counts change when one caller's claims do. */
  lemma OneCallerChanges(callers: map<nat, Caller>, c: nat, now: Caller, k: Key)
    requires c in callers
    ensures |Holding(callers[c := now], k)|
         == |Holding(callers, k)| - (if k in Held(callers[c]) then 1 else 0) + (if k in Held(now) then 1 else 0)
    ensures |ToPublish(callers[c := now], k)|
         == |ToPublish(callers, k)| - (if k in Todo(callers[c]) then 1 else 0) + (if k in Todo(now) then 1 else 0)
  {
    var after := callers[c := now];
    HoldingElsewhere(callers, c, now, k);
    SameBut(Holding(callers, k), Holding(after, k), c);
    SameBut(ToPublish(callers, k), ToPublish(after, k), c);
  }

  lemma HoldingElsewhere(callers: map<nat, Caller>, c: nat, now: Caller, k: Key)
    ensures Holding(callers[c := now], k) - {c} == Holding(callers, k) - {c}
    ensures ToPublish(callers[c := now], k) - {c} == ToPublish(callers, k) - {c}
  {
  }

  lemma SameBut(before: set<nat>, after: set<nat>, c: nat)
    requires before - {c} == after - {c}
    ensures |after| == |before| - (if c in before then 1 else 0) + (if c in after then 1 else 0)
  {
    var rest := before - {c};
    assert before == if c in before then rest + {c} else rest;
    assert after == if c in after then rest + {c} else rest;
  }

  function Settled(w: World, k: Key): nat {
    if k in w.rows && w.rows[k].status != Queued then 1 else 0
  }

  /** A claim takes a settled row, which only a result or a release can have left, unless it
      was there before. What was claimed is published at most once; and it is published,
      released, or still held, except that a row whose publishing went unseen may be both
      published and released. */
  ghost predicate Tallied(w: World, k: Key, before: nat) {
    && w.claims[k] + Settled(w, k) <= w.results[k] + w.releases[k] + before
    && w.publishes[k] + |ToPublish(w.callers, k)| <= w.claims[k]
    && w.publishes[k] + w.releases[k] + |Holding(w.callers, k)| <= w.claims[k] + w.unseen[k]
    && (forall c | c in w.callers && w.callers[c].Publishing? :: w.callers[c].todo !! w.callers[c].failed)
  }

  lemma TalliedStep(w: World, s: Step, k: Key, before: nat)
    requires Tallied(w, k, before) && Enabled(w, s)
    ensures Tallied(After(w, s), k, before)
  {
    match s
    case ClaimRows(c, asked, call) => ClaimTallied(w, c, asked, call, k, before);
    case Publish(c, key, call) => PublishTallied(w, c, key, call, k, before);
    case ReleaseRows(c, done) => ReleaseTallied(w, c, done, k, before);
    case Report(r) => RecordTallied(w, r, StatusAfter(w, r), w.tasks - multiset{r.key}, k, before);
    case Redeliver(r) => RecordTallied(w, r, StatusAfter(w, r), w.tasks, k, before);
    case _ => QuietTallied(w, s, k, before);
  }

  lemma QuietTallied(w: World, s: Step, k: Key, before: nat)
    requires Tallied(w, k, before) && Enabled(w, s) && Quiet(s)
    ensures Tallied(After(w, s), k, before)
  {
    FewerHold(w.callers, After(w, s).callers, k);
  }

  lemma FewerHold(before: map<nat, Caller>, after: map<nat, Caller>, k: Key)
    requires forall c | c in after && after[c].Publishing? ::
               && c in before && before[c].Publishing?
               && after[c].todo <= before[c].todo && after[c].failed <= before[c].failed
    ensures |Holding(after, k)| <= |Holding(before, k)| && |ToPublish(after, k)| <= |ToPublish(before, k)|
  {
    SubsetCount(Holding(after, k), Holding(before, k));
    SubsetCount(ToPublish(after, k), ToPublish(before, k));
  }

  lemma ClaimTallied(w: World, c: nat, asked: Option<set<Key>>, call: Call, k: Key, before: nat)
    requires Tallied(w, k, before) && Enabled(w, ClaimRows(c, asked, call))
    ensures Tallied(After(w, ClaimRows(c, asked, call)), k, before)
  {
    ClaimCounts(w, c, asked, call, k);
    ClaimHolding(w, c, asked, call, k);
  }

  lemma ClaimCounts(w: World, c: nat, asked: Option<set<Key>>, call: Call, k: Key)
    requires Enabled(w, ClaimRows(c, asked, call))
    ensures var after := After(w, ClaimRows(c, asked, call));
            var taken := if Takes(w, ClaimRows(c, asked, call), k) then 1 else 0;
            after.claims[k] == w.claims[k] + taken && Settled(after, k) == Settled(w, k) - taken
  {
  }

  lemma ClaimHolding(w: World, c: nat, asked: Option<set<Key>>, call: Call, k: Key)
    requires Enabled(w, ClaimRows(c, asked, call))
    ensures var after := After(w, ClaimRows(c, asked, call));
            var taken := if Takes(w, ClaimRows(c, asked, call), k) then 1 else 0;
            && |Holding(after.callers, k)| <= |Holding(w.callers, k)| + taken
            && |ToPublish(after.callers, k)| <= |ToPublish(w.callers, k)| + taken
  {
    var after := After(w, ClaimRows(c, asked, call));
    if call == Done {
      OneCallerChanges(w.callers, c, after.callers[c], k);
      assert Held(after.callers[c]) == Todo(after.callers[c]) == Claimable(w.rows, asked);
    } else {
      FewerHold(w.callers, after.callers, k);
    }
  }

  /** The step claims the row, seen or unseen. */
  predicate Takes(w: World, s: Step, k: Key) {
    s.ClaimRows? && s.call != NotDone && k in Claimable(w.rows, s.asked)
  }

  lemma ReleaseTallied(w: World, c: nat, ok: bool, k: Key, before: nat)
    requires Tallied(w, k, before) && Enabled(w, ReleaseRows(c, ok))
    ensures Tallied(After(w, ReleaseRows(c, ok)), k, before)
  {
    ReleaseSettles(w, c, ok, k);
    ReleaseHolding(w, c, ok, k);
  }

  lemma ReleaseHolding(w: World, c: nat, done: bool, k: Key)
    requires Enabled(w, ReleaseRows(c, done))
    ensures var after := After(w, ReleaseRows(c, done));
            && |Holding(after.callers, k)| == |Holding(w.callers, k)| - (if k in w.callers[c].failed then 1 else 0)
            && |ToPublish(after.callers, k)| == |ToPublish(w.callers, k)|
  {
    OneCallerChanges(w.callers, c, w.callers[c].(failed := {}), k);
  }

  lemma ReleaseSettles(w: World, c: nat, ok: bool, k: Key)
    requires Enabled(w, ReleaseRows(c, ok))
    ensures var after := After(w, ReleaseRows(c, ok));
            if ok && k in w.callers[c].failed && k in Pending(w.rows)
            then after.releases[k] == w.releases[k] + 1 && Settled(after, k) == Settled(w, k) + 1
            else after.releases[k] == w.releases[k] && Settled(after, k) == Settled(w, k)
  {
  }

  lemma RecordTallied(w: World, r: Result, status: A.Status, tasks: multiset<Key>, k: Key, before: nat)
    requires Tallied(w, k, before) && Reportable(r)
    ensures Tallied(Recorded(w, r, status).(tasks := tasks), k, before)
  {
    FewerHold(w.callers, w.callers, k);
  }

  lemma PublishTallied(w: World, c: nat, key: Key, call: Call, k: Key, before: nat)
    requires Tallied(w, k, before) && Enabled(w, Publish(c, key, call))
    ensures Tallied(After(w, Publish(c, key, call)), k, before)
  {
    var after := After(w, Publish(c, key, call));
    PublishHolding(w, c, key, call, k);
    if k != key {
      assert after.publishes[k] == w.publishes[k] && after.unseen[k] == w.unseen[k];
    }
  }

  lemma PublishHolding(w: World, c: nat, key: Key, call: Call, k: Key)
    requires Enabled(w, Publish(c, key, call)) && w.callers[c].todo !! w.callers[c].failed
    ensures var after := After(w, Publish(c, key, call));
            && |Holding(after.callers, k)| == |Holding(w.callers, k)| - (if call == Done && k == key then 1 else 0)
            && |ToPublish(after.callers, k)| == |ToPublish(w.callers, k)| - (if k == key then 1 else 0)
  {
    var after := After(w, Publish(c, key, call));
    OneCallerChanges(w.callers, c, after.callers[c], k);
    assert Held(after.callers[c]) == if call == Done then Held(w.callers[c]) - {key} else Held(w.callers[c]);
  }

  lemma {:induction false} TalliedAlong(w: World, steps: seq<Step>, end: World, k: Key, before: nat)
    requires Tallied(w, k, before) && Runs(w, steps, end)
    ensures Tallied(end, k, before)
    decreases |steps|
  {
    if steps != [] {
      TalliedStep(w, steps[0], k, before);
      TalliedAlong(After(w, steps[0]), steps[1..], end, k, before);
    }
  }

  /** Three counters count what happens to the row: a claim queues it, a release ends its being
      queued, and a result is one more attempt. */
  lemma RowCounters(w: World, s: Step, k: Key)
    requires Enabled(w, s)
    ensures var after := After(w, s);
            && after.claims[k] == w.claims[k]
                 + (if s.ClaimRows? && k !in Pending(w.rows) && k in Pending(after.rows) then 1 else 0)
            && after.releases[k] == w.releases[k]
                 + (if s.ReleaseRows? && k in Pending(w.rows) && k !in Pending(after.rows) then 1 else 0)
            && after.results[k] + AttemptsOf(w.rows, k) == w.results[k] + AttemptsOf(after.rows, k)
  {
    match s
    case ClaimRows(c, asked, call) => ClaimCounts(w, c, asked, call, k);
    case ReleaseRows(c, done) => ReleaseSettles(w, c, done, k);
    case _ =>
  }

  /** Two count its tasks: a publish is one more task, and an unseen one leaves its caller wanting
      to give the row back. */
  lemma TaskCounters(w: World, s: Step, k: Key)
    requires Enabled(w, s)
    requires forall c | c in w.callers && w.callers[c].Publishing? :: w.callers[c].todo !! w.callers[c].failed
    ensures var after := After(w, s);
            && after.publishes[k] + w.tasks[k] == w.publishes[k] + (if s.Publish? then after.tasks[k] else w.tasks[k])
            && after.unseen[k] == w.unseen[k]
                 + (if s.Publish? && after.tasks[k] > w.tasks[k] && k in Held(after.callers[s.c]) then 1 else 0)
  {
  }

  /** In every interleaving, redelivered results, unseen calls and dying callers included, a
      row is claimed at most once per recorded result or release, and once more if it was there
      and settled at the dispatch; its retries are published at most once per claim, and at
      most as often as that counting unseen publishes for releases. */
  lemma RetriesNeverExceedResults(w: World, steps: seq<Step>, end: World, k: Key)
    requires Begins(w) && Runs(w, steps, end)
    ensures end.publishes[k] <= end.claims[k] <= end.results[k] + end.releases[k] + Settled(w, k)
    ensures end.publishes[k] <= end.results[k] + end.unseen[k] + Settled(w, k)
  {
    assert Holding(w.callers, k) == {} && ToPublish(w.callers, k) == {};
    TalliedAlong(w, steps, end, k, Settled(w, k));
  }

  // ---- Between two claims ----

  /** A queued row stays queued until a result for it is recorded or its claim is given up. */
  lemma QueuedUntilSettled(w: World, s: Step, k: Key)
    requires k in Pending(w.rows) && Enabled(w, s)
    ensures After(w, s).results[k] >= w.results[k] && After(w, s).releases[k] >= w.releases[k]
    ensures After(w, s).results[k] == w.results[k] && After(w, s).releases[k] == w.releases[k] ==>
              k in Pending(After(w, s).rows)
  {
    if s.ReleaseRows? {
      ReleaseSettles(w, s.c, s.done, k);
    }
  }

  lemma CountersGrow(w: World, s: Step, k: Key)
    requires Enabled(w, s)
    ensures After(w, s).results[k] >= w.results[k] && After(w, s).releases[k] >= w.releases[k]
  {
  }

  lemma {:induction false} QueuedAlong(w: World, steps: seq<Step>, end: World, k: Key)
    requires Runs(w, steps, end)
    ensures end.results[k] >= w.results[k] && end.releases[k] >= w.releases[k]
    ensures k in Pending(w.rows) && end.results[k] == w.results[k] && end.releases[k] == w.releases[k] ==>
              k in Pending(end.rows)
    decreases |steps|
  {
    if steps != [] {
      CountersGrow(w, steps[0], k);
      QueuedAlong(After(w, steps[0]), steps[1..], end, k);
      if k in Pending(w.rows) {
        QueuedUntilSettled(w, steps[0], k);
      }
    }
  }

  /** From any world whatever, with duplicates and failures: between two claims of one row
      that take effect, by whichever callers, a result for it was recorded or its claim was
      released. */
  lemma SettledBetweenClaims(w: World, claim: Step, steps: seq<Step>, end: World, again: Step, k: Key)
    requires Enabled(w, claim) && Takes(w, claim, k)
    requires Runs(After(w, claim), steps, end)
    requires Enabled(end, again) && Takes(end, again, k)
    ensures var claimed := After(w, claim);
            end.results[k] > claimed.results[k] || end.releases[k] > claimed.releases[k]
  {
    assert k in Pending(After(w, claim).rows);
    QueuedAlong(After(w, claim), steps, end, k);
  }

  // ---- What a caller remembers ----

  /** Steps in which the caller neither returns nor dies. */
  ghost predicate Stays(steps: seq<Step>, c: nat) {
    forall i | 0 <= i < |steps| :: !(steps[i].Return? && steps[i].c == c) && !(steps[i].Die? && steps[i].c == c)
  }

  /** How many of the caller's publishes were acknowledged. */
  ghost function Publishes(steps: seq<Step>, c: nat): nat
    decreases |steps|
  {
    if steps == [] then 0
    else
      var s := steps[0];
      (if s.Publish? && s.c == c && s.call == Done then 1 else 0) + Publishes(steps[1..], c)
  }

  ghost predicate SomeReopened(steps: seq<Step>, c: nat) {
    exists i :: 0 <= i < |steps| && steps[i] == Reopen(c, Done)
  }

  lemma StepRemembers(w: World, s: Step, c: nat)
    requires Enabled(w, s) && c in w.callers && w.callers[c].Publishing? && Stays([s], c)
    ensures var after := After(w, s);
            && c in after.callers && after.callers[c].Publishing?
            && after.callers[c].published == w.callers[c].published + (if s.Publish? && s.c == c && s.call == Done then 1 else 0)
            && (s.Reopen? && s.c == c ==> after.callers[c].reopened == (s.call == Done) && !after.callers[c].mustReopen)
            && (!(s.Reopen? && s.c == c) ==>
                  after.callers[c].reopened == w.callers[c].reopened && after.callers[c].mustReopen == w.callers[c].mustReopen)
  {
    assert [s][0] == s;
  }

  /** The caller's counter counts its acknowledged publishes, whatever others do. */
  lemma {:induction false} Remembers(w: World, steps: seq<Step>, end: World, c: nat)
    requires Runs(w, steps, end) && c in w.callers && w.callers[c].Publishing? && Stays(steps, c)
    ensures c in end.callers && end.callers[c].Publishing?
    ensures end.callers[c].published == w.callers[c].published + Publishes(steps, c)
    ensures !w.callers[c].mustReopen ==>
              end.callers[c].reopened == w.callers[c].reopened && !end.callers[c].mustReopen && !SomeReopened(steps, c)
    ensures w.callers[c].mustReopen && !w.callers[c].reopened ==> (end.callers[c].reopened <==> SomeReopened(steps, c))
    decreases |steps|
  {
    if steps != [] {
      var s, rest := steps[0], steps[1..];
      assert Stays([s], c) && Stays(rest, c);
      StepRemembers(w, s, c);
      Remembers(After(w, s), rest, end, c);
      ReopenedInParts(steps, c);
    }
  }

  lemma ReopenedInParts(steps: seq<Step>, c: nat)
    requires steps != []
    ensures SomeReopened(steps, c) <==> steps[0] == Reopen(c, Done) || SomeReopened(steps[1..], c)
  {
    var rest := steps[1..];
    if i :| 0 <= i < |rest| && rest[i] == Reopen(c, Done) {
      assert steps[i + 1] == rest[i];
    }
    if i :| 0 < i < |steps| && steps[i] == Reopen(c, Done) {
      assert rest[i - 1] == steps[i];
    }
  }

  /** Whose step it is. */
  ghost predicate Acts(s: Step, c: nat) {
    (s.Check? || s.ClaimRows? || s.Reopen? || s.Publish? || s.ReleaseRows? || s.Return? || s.Die?) && s.c == c
  }

  /** A caller comes with its check, and goes when it returns, dies, or is told that its claim
      failed; nobody else's step touches it. */
  lemma CallersComeAndGo(w: World, s: Step, c: nat)
    requires Enabled(w, s)
    ensures var after := After(w, s);
            && (!Acts(s, c) ==> (c in after.callers <==> c in w.callers)
                                && (c in w.callers ==> after.callers[c] == w.callers[c]))
            && (Acts(s, c) ==> (c in after.callers <==> !(s.Return? || s.Die? || (s.ClaimRows? && s.call != Done))))
  {
  }

  /** Whatever others do in between, a returning caller has counted exactly its acknowledged
      publishes. It restores "completed" exactly when it had reopened the campaign and there
      was none; else it leaves the status alone. */
  lemma RestoresExactlyWhen(w: World, c: nat, asked: Option<set<Key>>, steps: seq<Step>, end: World, done: bool)
    requires Enabled(w, ClaimRows(c, asked, Done)) && Runs(After(w, ClaimRows(c, asked, Done)), steps, end)
    requires Stays(steps, c) && Enabled(end, Return(c, done))
    ensures end.callers[c].published == Publishes(steps, c)
    ensures After(end, Return(c, done)).status
         == if done && SomeReopened(steps, c) && Publishes(steps, c) == 0 then A.Completed else end.status
  {
    Remembers(After(w, ClaimRows(c, asked, Done)), steps, end, c);
  }

  // ---- What the worker drops ----

  /** Whether the last result for the row, if there was any, said "delivered". */
  ghost predicate LastSaidDelivered(steps: seq<Step>, k: Key, before: bool)
    decreases |steps|
  {
    if steps == [] then before
    else
      var s := steps[0];
      var tells := (s.Report? || s.Redeliver?) && s.result.key == k;
      LastSaidDelivered(steps[1..], k, if tells then s.result.outcome == Delivered else before)
  }

  ghost predicate IsDelivered(w: World, k: Key) {
    k in w.rows && w.rows[k].status == Delivered
  }

  lemma DeliveredStep(w: World, s: Step, k: Key)
    requires Enabled(w, s)
    ensures IsDelivered(After(w, s), k)
       <==> if (s.Report? || s.Redeliver?) && s.result.key == k then s.result.outcome == Delivered else IsDelivered(w, k)
  {
  }

  /** Retries never touch a delivered row: it is one exactly from a result that says so to the
      next result that does not. */
  lemma {:induction false} DeliveredExactlyWhen(w: World, steps: seq<Step>, end: World, k: Key)
    requires Runs(w, steps, end)
    ensures IsDelivered(end, k) <==> LastSaidDelivered(steps, k, IsDelivered(w, k))
    decreases |steps|
  {
    if steps != [] {
      DeliveredStep(w, steps[0], k);
      DeliveredExactlyWhen(After(w, steps[0]), steps[1..], end, k);
    }
  }

  /** What a worker may drop after any steps from a world without rows: any task when the campaign
      is completed, those of an address for one of whose rows the last result said "delivered",
      and, where reading fails, any. */
  lemma DroppedExactlyWhen(w: World, steps: seq<Step>, end: World, key: Key)
    requires Runs(w, steps, end) && w.rows == map[] && key in end.tasks
    ensures Enabled(end, Drop(key, Finished)) <==> end.status == A.Completed
    ensures Enabled(end, Drop(key, AlreadyDelivered))
       <==> exists d: Key :: d.routing == key.routing && LastSaidDelivered(steps, d, false)
    ensures Enabled(end, Drop(key, Lost))
  {
    DeliveredSomewhere(w, steps, end, key);
    assert Droppable(end, key, AlreadyDelivered) <==> exists d :: IsDelivered(end, d) && d.routing == key.routing;
  }

  lemma DeliveredSomewhere(w: World, steps: seq<Step>, end: World, key: Key)
    requires Runs(w, steps, end) && w.rows == map[]
    ensures (exists d :: IsDelivered(end, d) && d.routing == key.routing)
       <==> exists d: Key :: d.routing == key.routing && LastSaidDelivered(steps, d, false)
  {
    if d :| IsDelivered(end, d) && d.routing == key.routing {
      DeliveredExactlyWhen(w, steps, end, d);
    }
    if d: Key :| d.routing == key.routing && LastSaidDelivered(steps, d, false) {
      DeliveredExactlyWhen(w, steps, end, d);
    }
  }
}
