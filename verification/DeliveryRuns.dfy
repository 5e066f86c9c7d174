/**
 Whole runs of one campaign's delivery ledger: what the counters mean, when the
 campaign completes, and how a retry drains.
 */
module DeliveryRuns {
  import opened Audience
  import opened Listings
  import FanOut
  import A = Approval
  import opened DeliveryLedger

  /** Anything that touches the ledger after dispatch. A status change stands for pausing,
      resuming, reopening and restoring. */
  datatype Step =
    | Report(result: Result)
    | ClaimRows(asked: Option<set<Key>>)
    | ReleaseRows(keys: set<Key>)
    | SetStatus(status: A.Status)

  function Next(l: Ledger, s: Step): Ledger {
    match s
    case Report(r) => Record(l, r)
    case ClaimRows(asked) => l.(rows := Claim(l.rows, asked))
    case ReleaseRows(keys) => l.(rows := Release(l.rows, keys))
    case SetStatus(status) => l.(status := status)
  }

  function Run(l: Ledger, steps: seq<Step>): Ledger {
    if steps == [] then l else Next(Run(l, steps[..|steps| - 1]), steps[|steps| - 1])
  }

  /** How many results a run records for a key. */
  function ResultsFor(steps: seq<Step>, k: Key): nat {
    if steps == [] then 0
    else
      var last := steps[|steps| - 1];
      ResultsFor(steps[..|steps| - 1], k) + if last.Report? && last.result.key == k then 1 else 0
  }

  // ---- The counters ----

  /** A row exists for exactly the keys ever reported, and its attempt count is the number
      of results recorded for it, whatever is claimed or released in between. */
  lemma {:induction false} RowsTellTheHistory(l: Ledger, steps: seq<Step>, k: Key)
    requires k in l.rows ==> l.rows[k].attempts > 0
    ensures AttemptsOf(Run(l, steps).rows, k) == AttemptsOf(l.rows, k) + ResultsFor(steps, k)
    ensures k in Run(l, steps).rows <==> AttemptsOf(l.rows, k) + ResultsFor(steps, k) > 0
  {
    if steps != [] {
      RowsTellTheHistory(l, steps[..|steps| - 1], k);
    }
  }

  function LatestResult(steps: seq<Step>, k: Key): Option<Result> {
    if steps == [] then None
    else
      var last := steps[|steps| - 1];
      if last.Report? && last.result.key == k then Some(last.result) else LatestResult(steps[..|steps| - 1], k)
  }

  /** A row shows its latest result; only if that was a retryable failure may it be queued
      for a retry instead. What was sent or delivered, or failed for good, is never sent again. */
  lemma {:induction false} RowShowsLatestResult(l: Ledger, steps: seq<Step>, k: Key)
    requires LatestResult(steps, k).Some? && Reportable(LatestResult(steps, k).value)
    ensures var r, rows := LatestResult(steps, k).value, Run(l, steps).rows;
            && k in rows && rows[k].retryable == r.retryable
            && (rows[k].status == r.outcome || (r.outcome == Failed && r.retryable && rows[k].status == Queued))
  {
    var front, last := steps[..|steps| - 1], steps[|steps| - 1];
    if !(last.Report? && last.result.key == k) {
      RowShowsLatestResult(l, front, k);
    }
  }

  /** Right after a result the progress counter is the number of distinct targets reported,
      and it never passes the total when results come only from emitted targets. */
  lemma ProgressIsTrue(l: Ledger, steps: seq<Step>, emitted: seq<Key>)
    requires steps != [] && steps[|steps| - 1].Report?
    requires l.total == |emitted| && l.rows.Keys <= Members(emitted) && FromEmitted(steps, emitted)
    ensures var end := Run(l, steps);
            end.processed == |end.rows.Keys| <= end.total
  {
    TotalsStay(l, steps, emitted);
    MembersCount(emitted);
    SubsetCount(Run(l, steps).rows.Keys, Members(emitted));
    assert |Run(l, steps).rows| == |Run(l, steps).rows.Keys|;
  }

  /** A dispatch starts the counter over: it is zero until the first result, whatever rows there
      are and whatever is claimed, released or paused. */
  lemma {:induction false} ProgressStartsOver(l: Ledger, targets: nat, steps: seq<Step>)
    requires forall i | 0 <= i < |steps| :: !steps[i].Report?
    ensures Run(Dispatching(l, targets), steps).processed == 0
    ensures Run(Dispatching(l, targets), steps).total == targets
    ensures Run(Dispatching(l, targets), steps).rows.Keys == l.rows.Keys
    ensures steps == [] ==> Run(Dispatching(l, targets), steps).status == A.Processing
  {
    if steps != [] {
      ProgressStartsOver(l, targets, steps[..|steps| - 1]);
    }
  }

  /** A claim with a list touches only rows on it, one without takes every failed row that may
      be retried; and what it leaves alone is exactly as it was. */
  lemma ClaimsWhatIsAsked(rows: map<Key, Row>, asked: Option<set<Key>>, k: Key)
    requires k in rows
    ensures k in Claim(rows, asked)
    ensures Claim(rows, asked)[k] ==
              if rows[k].status == Failed && rows[k].retryable && (asked.Some? ==> k in asked.value)
              then Row(Queued, true, rows[k].attempts) else rows[k]
  {
  }

  /** Contacts and destinations never share a row, whatever their addresses. */
  lemma KindsKeepApart(id: string, platform: string, routing: string, chat: string)
    ensures KeyOf(FanOut.ContactTask(id, platform, routing)) != KeyOf(FanOut.DestinationTask(chat))
    ensures KeyOf(FanOut.ContactTask(id, platform, routing)).routing == routing && KeyOf(FanOut.DestinationTask(chat)).routing == chat
  {
  }

  /** Every result in the run is for an emitted target, and no result says "queued". */
  ghost predicate FromEmitted(steps: seq<Step>, emitted: seq<Key>) {
    forall i | 0 <= i < |steps| && steps[i].Report? :: steps[i].result.key in emitted && Reportable(steps[i].result)
  }

  lemma {:induction false} TotalsStay(l: Ledger, steps: seq<Step>, emitted: seq<Key>)
    requires l.rows.Keys <= Members(emitted) && FromEmitted(steps, emitted)
    ensures Run(l, steps).total == l.total
    ensures Run(l, steps).rows.Keys <= Members(emitted)
  {
    if steps != [] {
      TotalsStay(l, steps[..|steps| - 1], emitted);
    }
  }

  // ---- What progress depends on ----

  /** All that completion looks at: which targets have a row, and which of those are queued. */
  datatype View = View(status: A.Status, total: nat, keys: set<Key>, pending: set<Key>)

  function ViewOf(l: Ledger): View {
    View(l.status, l.total, l.rows.Keys, Pending(l.rows))
  }

  function Seen(v: View, k: Key): View {
    var keys, pending := v.keys + {k}, v.pending - {k};
    View(if v.status == A.Processing && 0 < v.total <= |keys| && pending == {} then A.Completed else v.status,
         v.total, keys, pending)
  }

  function SeenAll(v: View, keys: seq<Key>): View {
    if keys == [] then v else Seen(SeenAll(v, keys[..|keys| - 1]), keys[|keys| - 1])
  }

  function RecordAll(l: Ledger, results: seq<Result>): Ledger {
    if results == [] then l else Record(RecordAll(l, results[..|results| - 1]), results[|results| - 1])
  }

  function KeysOf(results: seq<Result>): (keys: seq<Key>)
    ensures |keys| == |results|
  {
    seq(|results|, i requires 0 <= i < |results| => results[i].key)
  }

  ghost predicate AllReportable(results: seq<Result>) {
    forall i | 0 <= i < |results| :: Reportable(results[i])
  }

  lemma RecordIsSeen(l: Ledger, r: Result)
    requires Reportable(r)
    ensures ViewOf(Record(l, r)) == Seen(ViewOf(l), r.key)
  {
    var rows := Upserted(l.rows, r);
    assert rows.Keys == l.rows.Keys + {r.key} && |rows| == |rows.Keys|;
    assert Pending(rows) == Pending(l.rows) - {r.key};
  }

  /** Outcomes and attempt counts do not matter to completion: a run of results is the run
      of their keys. */
  lemma {:induction false} ResultsAreSeen(l: Ledger, results: seq<Result>)
    requires AllReportable(results)
    ensures ViewOf(RecordAll(l, results)) == SeenAll(ViewOf(l), KeysOf(results))
  {
    if results != [] {
      var n := |results| - 1;
      ResultsAreSeen(l, results[..n]);
      RecordIsSeen(RecordAll(l, results[..n]), results[n]);
      KeysPrefix(results, n);
    }
  }

  lemma KeysPrefix(results: seq<Result>, n: nat)
    requires n <= |results|
    ensures KeysOf(results)[..n] == KeysOf(results[..n])
  {
  }

  // ---- Completion ----

  /** The campaign is being sent to the emitted targets; results may have come in already,
      but only for those. */
  ghost predicate Sending(l: Ledger, emitted: seq<Key>) {
    l.status == A.Processing && l.total == |emitted| && l.rows.Keys <= Members(emitted)
  }

  /** The step is a result that completes the campaign. */
  ghost predicate Completes(l: Ledger, s: Step) {
    s.Report? && l.status != A.Completed && Next(l, s).status == A.Completed
  }

  /** When a result completes the campaign, every emitted target has reported and no retry
      is in flight; moreover no two targets shared a row. */
  lemma CompletionIsSound(l: Ledger, steps: seq<Step>, last: Step, emitted: seq<Key>)
    requires Sending(l, emitted) && FromEmitted(steps + [last], emitted)
    requires Completes(Run(l, steps), last)
    ensures var end := Next(Run(l, steps), last);
            && end.rows.Keys == Members(emitted)
            && Pending(end.rows) == {}
            && |Members(emitted)| == |emitted|
  {
    assert (steps + [last])[..|steps|] == steps;
    var end := Run(l, steps + [last]);
    TotalsStay(l, steps + [last], emitted);
    TotalsStay(l, steps, emitted);
    MembersCount(emitted);
    assert |end.rows| == |end.rows.Keys|;
    SubsetCount(end.rows.Keys, Members(emitted));
  }

  /** A dispatch to the emitted targets has begun, over whatever rows there already were. */
  ghost predicate Begun(l: Ledger, emitted: seq<Key>) {
    l.status == A.Processing && l.total == |emitted|
  }

  /** The keys for which a result may come: this dispatch's targets, the targets of earlier,
      aborted ones, and every row, whose result may be repeated or whose sending retried. */
  ghost function Known(l: Ledger, emitted: seq<Key>, earlier: seq<Key>): set<Key> {
    Members(emitted) + Members(earlier) + l.rows.Keys
  }

  ghost predicate FromKnown(steps: seq<Step>, known: set<Key>) {
    forall i | 0 <= i < |steps| && steps[i].Report? :: steps[i].result.key in known && Reportable(steps[i].result)
  }

  /** Some continuation of the campaign is completed by a result; results may be repeated. */
  ghost predicate Completable(l: Ledger, emitted: seq<Key>, earlier: seq<Key>) {
    exists steps, last: Step :: FromKnown(steps + [last], Known(l, emitted, earlier)) && Completes(Run(l, steps), last)
  }

  /** A campaign can complete exactly when it has a target and results may come for as many
      keys as it has targets: when nothing is left of earlier dispatches, when no two of its
      targets share a target kind and routing value. */
  lemma CompletableExactlyWhen(l: Ledger, emitted: seq<Key>, earlier: seq<Key>)
    requires Begun(l, emitted)
    ensures Completable(l, emitted, earlier) <==> emitted != [] && |Known(l, emitted, earlier)| >= |emitted|
    ensures Sending(l, emitted) && Members(earlier) <= Members(emitted) ==>
              (|Known(l, emitted, earlier)| >= |emitted| <==> |Members(emitted)| == |emitted|)
  {
    var known := Known(l, emitted, earlier);
    if steps, last: Step :| FromKnown(steps + [last], known) && Completes(Run(l, steps), last) {
      RowsAreKnown(l, steps + [last], known);
      RunSnoc(l, steps, last);
      RowsStay(l, steps);
      SubsetCount(Next(Run(l, steps), last).rows.Keys, known);
    }
    if emitted != [] && |known| >= |emitted| {
      assert l.rows.Keys + known == known && known != {};
      var steps, last := ReportedComplete(l, known, known);
    }
    NothingFromOutside(l, emitted, earlier);
  }

  lemma NothingFromOutside(l: Ledger, emitted: seq<Key>, earlier: seq<Key>)
    ensures l.rows.Keys <= Members(emitted) && Members(earlier) <= Members(emitted) ==>
              (|Known(l, emitted, earlier)| >= |emitted| <==> |Members(emitted)| == |emitted|)
    ensures |Members(emitted)| == |emitted| ==>
              (|Known(l, emitted, earlier)| > |emitted| <==> !(Known(l, emitted, earlier) <= Members(emitted)))
  {
    MembersCount(emitted);
    SubsetCount(Members(emitted), Known(l, emitted, earlier));
    if Known(l, emitted, earlier) <= Members(emitted) {
      SubsetCount(Known(l, emitted, earlier), Members(emitted));
    }
  }

  lemma {:induction false} RowsAreKnown(l: Ledger, steps: seq<Step>, known: set<Key>)
    requires FromKnown(steps, known) && l.rows.Keys <= known
    ensures Run(l, steps).rows.Keys <= known
  {
    if steps != [] {
      RowsAreKnown(l, steps[..|steps| - 1], known);
    }
  }

  lemma {:induction false} RowsStay(l: Ledger, steps: seq<Step>)
    ensures l.rows.Keys <= Run(l, steps).rows.Keys && Run(l, steps).total == l.total
  {
    if steps != [] {
      RowsStay(l, steps[..|steps| - 1]);
    }
  }

  /** All rows are released, and the given keys report, the last of them once the campaign is
      resumed: that completes it, with rows for just those keys besides the old ones. */
  lemma ReportedComplete(l: Ledger, reporting: set<Key>, known: set<Key>) returns (steps: seq<Step>, last: Step)
    requires reporting != {} && reporting <= known && 0 < l.total <= |l.rows.Keys + reporting|
    ensures FromKnown(steps + [last], known) && Completes(Run(l, steps), last)
    ensures Next(Run(l, steps), last).rows.Keys == l.rows.Keys + reporting
  {
    var keys := Listed(reporting);
    ReleasedThenReported(l, keys);
    AllFromKnown(keys, known);
    var front := PausedReports(keys[..|keys| - 1]);
    last := Report(Result(keys[|keys| - 1], Delivered, false));
    steps := [ReleaseRows(l.rows.Keys)] + front;
    assert steps + [last] == [ReleaseRows(l.rows.Keys)] + (front + [last]);
  }

  lemma RunSnoc(l: Ledger, steps: seq<Step>, last: Step)
    ensures Run(l, steps + [last]) == Next(Run(l, steps), last)
  {
    assert (steps + [last])[..|steps|] == steps;
  }

  function Successes(keys: seq<Key>): seq<Result> {
    seq(|keys|, i requires 0 <= i < |keys| => Result(keys[i], Delivered, false))
  }

  function Reports(results: seq<Result>): seq<Step> {
    seq(|results|, i requires 0 <= i < |results| => Report(results[i]))
  }

  lemma {:induction false} RunReports(l: Ledger, results: seq<Result>)
    ensures Run(l, Reports(results)) == RecordAll(l, results)
  {
    if results != [] {
      var n := |results| - 1;
      RunReports(l, results[..n]);
      assert Reports(results)[..n] == Reports(results[..n]);
    }
  }

  lemma {:induction false} RunFirst(l: Ledger, s: Step, rest: seq<Step>)
    ensures Run(l, [s] + rest) == Run(Next(l, s), rest)
  {
    if rest == [] {
      assert [s] + rest == [s] && [s][..0] == [];
    } else {
      var n := |rest| - 1;
      assert ([s] + rest)[..n + 1] == [s] + rest[..n];
      RunFirst(l, s, rest[..n]);
    }
  }

  lemma {:induction false} SeenWhilePaused(v: View, keys: seq<Key>)
    requires v.status == A.Paused
    ensures SeenAll(v, keys) == View(A.Paused, v.total, v.keys + Members(keys), v.pending - Members(keys))
  {
    if keys != [] {
      var n := |keys| - 1;
      SeenWhilePaused(v, keys[..n]);
      assert keys == keys[..n] + [keys[n]];
      MembersSnoc(keys[..n], keys[n]);
    }
  }

  /** All but one report while the campaign is paused, the last once it is resumed. */
  ghost function PausedReports(keys: seq<Key>): seq<Step> {
    [SetStatus(A.Paused)] + Reports(Successes(keys)) + [SetStatus(A.Processing)]
  }

  lemma PausedReportsRun(l: Ledger, keys: seq<Key>)
    ensures ViewOf(Run(l, PausedReports(keys)))
         == View(A.Processing, l.total, l.rows.Keys + Members(keys), Pending(l.rows) - Members(keys))
  {
    RunPausedReports(l, Successes(keys));
    ReportedThenResumed(l, keys);
  }

  lemma ReportedThenResumed(l: Ledger, keys: seq<Key>)
    ensures ViewOf(Next(RecordAll(Next(l, SetStatus(A.Paused)), Successes(keys)), SetStatus(A.Processing)))
         == View(A.Processing, l.total, l.rows.Keys + Members(keys), Pending(l.rows) - Members(keys))
  {
    ReportedWhilePaused(Next(l, SetStatus(A.Paused)), keys);
    ViewResumed(RecordAll(Next(l, SetStatus(A.Paused)), Successes(keys)));
  }

  lemma RunPausedReports(l: Ledger, results: seq<Result>)
    ensures Run(l, [SetStatus(A.Paused)] + Reports(results) + [SetStatus(A.Processing)])
         == Next(RecordAll(Next(l, SetStatus(A.Paused)), results), SetStatus(A.Processing))
  {
    FirstThenReports(l, SetStatus(A.Paused), results);
    RunSnoc(l, [SetStatus(A.Paused)] + Reports(results), SetStatus(A.Processing));
  }

  lemma FirstThenReports(l: Ledger, s: Step, results: seq<Result>)
    ensures Run(l, [s] + Reports(results)) == RecordAll(Next(l, s), results)
  {
    RunFirst(l, s, Reports(results));
    RunReports(Next(l, s), results);
  }

  lemma ReportedWhilePaused(l: Ledger, keys: seq<Key>)
    requires l.status == A.Paused
    ensures ViewOf(RecordAll(l, Successes(keys)))
         == View(A.Paused, l.total, l.rows.Keys + Members(keys), Pending(l.rows) - Members(keys))
  {
    KeysOfSuccesses(keys);
    ResultsAreSeen(l, Successes(keys));
    SeenWhilePaused(ViewOf(l), keys);
  }

  lemma KeysOfSuccesses(keys: seq<Key>)
    ensures KeysOf(Successes(keys)) == keys && AllReportable(Successes(keys))
  {
  }

  lemma ViewResumed(l: Ledger)
    ensures ViewOf(Next(l, SetStatus(A.Processing))) == ViewOf(l).(status := A.Processing)
  {
  }

  /** Reports for all the keys, the last one once the campaign is resumed, complete it. */
  lemma ReportsComplete(l: Ledger, keys: seq<Key>)
    requires keys != [] && 0 < l.total <= |l.rows.Keys + Members(keys)| && Pending(l.rows) <= Members(keys)
    ensures var before := Run(l, PausedReports(keys[..|keys| - 1]));
            var last := Report(Result(keys[|keys| - 1], Delivered, false));
            && Completes(before, last)
            && Next(before, last).rows.Keys == l.rows.Keys + Members(keys)
  {
    var front, k := keys[..|keys| - 1], keys[|keys| - 1];
    assert keys == front + [k];
    MembersSnoc(front, k);
    PausedReportsRun(l, front);
    LastCompletes(Run(l, PausedReports(front)), l.rows.Keys, Members(front), k, Pending(l.rows));
  }

  lemma LastCompletes(before: Ledger, rows: set<Key>, front: set<Key>, k: Key, pending: set<Key>)
    requires ViewOf(before) == View(A.Processing, before.total, rows + front, pending - front)
    requires 0 < before.total <= |rows + (front + {k})| && pending <= front + {k}
    ensures Completes(before, Report(Result(k, Delivered, false)))
    ensures Next(before, Report(Result(k, Delivered, false))).rows.Keys == rows + (front + {k})
  {
    var r := Result(k, Delivered, false);
    RecordIsSeen(before, r);
    assert rows + front + {k} == rows + (front + {k});
    assert pending - front - {k} == {};
    assert Seen(ViewOf(before), k) == ViewOf(Record(before, r));
  }

  lemma AllFromKnown(keys: seq<Key>, known: set<Key>)
    requires keys != [] && Members(keys) <= known
    ensures FromKnown(PausedReports(keys[..|keys| - 1]) + [Report(Result(keys[|keys| - 1], Delivered, false))], known)
  {
    var front := keys[..|keys| - 1];
    forall i | 0 <= i < |keys| ensures keys[i] in known {
      assert keys[i] in Members(keys);
    }
    forall i | 0 <= i < |front| ensures Reports(Successes(front))[i].result.key in known {
      assert front[i] == keys[i];
    }
  }

  lemma ReleasedThenReported(l: Ledger, keys: seq<Key>)
    requires keys != [] && 0 < l.total <= |l.rows.Keys + Members(keys)|
    ensures var before := Run(l, [ReleaseRows(l.rows.Keys)] + PausedReports(keys[..|keys| - 1]));
            var last := Report(Result(keys[|keys| - 1], Delivered, false));
            && Completes(before, last)
            && Next(before, last).rows.Keys == l.rows.Keys + Members(keys)
  {
    var released := Next(l, ReleaseRows(l.rows.Keys));
    assert released.rows.Keys == l.rows.Keys && Pending(released.rows) == {};
    ReportsComplete(released, keys);
    RunFirst(l, ReleaseRows(l.rows.Keys), PausedReports(keys[..|keys| - 1]));
  }

  lemma {:induction false} Listed(s: set<Key>) returns (keys: seq<Key>)
    ensures Enumerates(keys, s)
  {
    keys := [];
    if s != {} {
      var k :| k in s;
      var rest := Listed(s - {k});
      MembersSnoc(rest, k);
      keys := rest + [k];
    }
  }

  /** Two contacts on different channels may have the same routing value. A campaign that
      addresses both counts two targets but keeps one row; unless something of an earlier
      dispatch makes up the number, it can never complete. */
  lemma SharedRoutingNeverCompletes(s: Selection, w: Workspace, l: Ledger, earlier: seq<Key>, a: Contact, b: Contact)
    requires DistinctIds(w.contacts) && a in w.contacts && b in w.contacts && a != b
    requires Eligible(s, a) && Eligible(s, b) && a.routing == b.routing
    requires Begun(l, PlanKeys(s, w))
    ensures Completable(l, PlanKeys(s, w), earlier) ==>
              exists k :: k in Known(l, PlanKeys(s, w), earlier) && k !in PlanKeys(s, w)
  {
    TargetsAreEligible(s, w.contacts);
    var targets, keys := Targets(s, w.contacts), PlanKeys(s, w);
    var i :| 0 <= i < |targets| && targets[i] == a;
    var j :| 0 <= j < |targets| && targets[j] == b;
    assert keys[i] == keys[j] == Key(ContactKind, a.routing);
    RepeatedKey(keys, i, j);
    CompletableExactlyWhen(l, keys, earlier);
    if Known(l, keys, earlier) <= Members(keys) {
      SubsetCount(Known(l, keys, earlier), Members(keys));
    } else {
      var k :| k in Known(l, keys, earlier) && k !in Members(keys);
      assert k !in keys;
    }
  }

  /** The row keys under which the results of a dispatch will come back. */
  ghost function PlanKeys(s: Selection, w: Workspace): seq<Key> {
    var plan := FanOut.Plan(s, w);
    seq(|plan|, i requires 0 <= i < |plan| => KeyOf(plan[i]))
  }

  lemma RepeatedKey(keys: seq<Key>, i: nat, j: nat)
    requires i < |keys| && j < |keys| && i != j && keys[i] == keys[j]
    ensures |Members(keys)| < |keys|
  {
    MembersCount(keys);
    assert i < j ==> keys[i] == keys[j];
  }

  // ---- Completing too early ----

  /** The step completes the campaign although some emitted target never reported. */
  ghost predicate CompletesEarly(l: Ledger, s: Step, emitted: seq<Key>) {
    Completes(l, s) && !(Members(emitted) <= Next(l, s).rows.Keys)
  }

  ghost predicate CanCompleteEarly(l: Ledger, emitted: seq<Key>, earlier: seq<Key>) {
    exists steps, last: Step ::
      FromKnown(steps + [last], Known(l, emitted, earlier)) && CompletesEarly(Run(l, steps), last, emitted)
  }

  /** Rows and tasks of earlier dispatches let a campaign complete before all its targets have
      reported exactly when some target has no row and results may come for more keys than it
      has targets: when the targets are distinct, for a key from outside. */
  lemma EarlyCompletionExactlyWhen(l: Ledger, emitted: seq<Key>, earlier: seq<Key>)
    requires Begun(l, emitted)
    ensures CanCompleteEarly(l, emitted, earlier)
       <==> !(Members(emitted) <= l.rows.Keys) && |Known(l, emitted, earlier)| > |emitted|
    ensures |Members(emitted)| == |emitted| ==>
              (|Known(l, emitted, earlier)| > |emitted| <==> !(Known(l, emitted, earlier) <= Members(emitted)))
  {
    var known := Known(l, emitted, earlier);
    if steps, last: Step :| FromKnown(steps + [last], known) && CompletesEarly(Run(l, steps), last, emitted) {
      EarlyMeansMore(l, steps, last, emitted, known);
    }
    if !(Members(emitted) <= l.rows.Keys) && |known| > |emitted| {
      var absent :| absent in Members(emitted) && absent !in l.rows.Keys;
      AllButOne(l, known, absent, emitted);
    }
    NothingFromOutside(l, emitted, earlier);
  }

  lemma EarlyMeansMore(l: Ledger, steps: seq<Step>, last: Step, emitted: seq<Key>, known: set<Key>)
    requires Begun(l, emitted) && FromKnown(steps + [last], known) && l.rows.Keys <= known && Members(emitted) <= known
    requires CompletesEarly(Run(l, steps), last, emitted)
    ensures !(Members(emitted) <= l.rows.Keys) && |known| > |emitted|
  {
    var absent :| absent in Members(emitted) && absent !in Next(Run(l, steps), last).rows.Keys;
    RunSnoc(l, steps, last);
    RowsStay(l, steps);
    RowsStay(l, steps + [last]);
    RowsAreKnown(l, steps + [last], known);
    SubsetCount(Next(Run(l, steps), last).rows.Keys, known - {absent});
  }

  lemma AllButOne(l: Ledger, known: set<Key>, absent: Key, emitted: seq<Key>)
    requires l.total == |emitted| < |known| && l.rows.Keys <= known - {absent} && absent in Members(emitted) && Members(emitted) <= known
    ensures exists steps, last: Step :: FromKnown(steps + [last], known) && CompletesEarly(Run(l, steps), last, emitted)
  {
    var reporting := known - {absent};
    assert l.rows.Keys + reporting == reporting && |reporting| == |known| - 1;
    MembersCount(emitted);
    var steps, last := ReportedComplete(l, reporting, known);
    assert absent !in Next(Run(l, steps), last).rows.Keys;
    assert CompletesEarly(Run(l, steps), last, emitted);
  }

  // ---- Without repeated results ----

  /** The tasks still outstanding after the steps. A result uses one up, unless its row is
      queued: then it is the result of a retry. */
  ghost function Left(l: Ledger, tasks: multiset<Key>, steps: seq<Step>): multiset<Key> {
    if steps == [] then tasks
    else
      var front, last := steps[..|steps| - 1], steps[|steps| - 1];
      if last.Report? && last.result.key !in Pending(Run(l, front).rows)
      then Left(l, tasks, front) - multiset{last.result.key}
      else Left(l, tasks, front)
  }

  /** Every result in the run is that of an outstanding task or of a retry. */
  ghost predicate Fed(l: Ledger, tasks: multiset<Key>, steps: seq<Step>) {
    steps == [] ||
    var front, last := steps[..|steps| - 1], steps[|steps| - 1];
    && Fed(l, tasks, front)
    && (last.Report? ==>
          && Reportable(last.result)
          && (last.result.key in Pending(Run(l, front).rows) || last.result.key in Left(l, tasks, front)))
  }

  ghost function KeysIn(tasks: multiset<Key>): set<Key> {
    set k | k in tasks
  }

  /** The keys other than those in `without` for which a first result can come: outstanding
      tasks, retries in flight, and rows that can be retried. */
  ghost function Feeding(l: Ledger, tasks: multiset<Key>, without: set<Key>): set<Key> {
    KeysIn(tasks) - without + Pending(l.rows) + Claimable(l.rows, None)
  }

  /** All the rows there can come to be without those keys. */
  ghost function Reachable(l: Ledger, tasks: multiset<Key>, without: set<Key>): set<Key> {
    l.rows.Keys + (KeysIn(tasks) - without)
  }

  ghost predicate CompletableFreshly(l: Ledger, tasks: multiset<Key>) {
    exists steps, last: Step :: Fed(l, tasks, steps + [last]) && Completes(Run(l, steps), last)
  }

  /** When no result is delivered twice, a campaign being sent can complete exactly when some
      result is still to come and rows can come to exist for as many keys as it has targets. If
      all results were recorded before the dispatch set the status, and none can be retried, it
      is stuck in processing. */
  lemma CompletableFreshlyExactlyWhen(l: Ledger, emitted: seq<Key>, tasks: multiset<Key>)
    requires Begun(l, emitted)
    ensures CompletableFreshly(l, tasks)
       <==> emitted != [] && Feeding(l, tasks, {}) != {} && |Reachable(l, tasks, {})| >= |emitted|
  {
    if steps, last: Step :| Fed(l, tasks, steps + [last]) && Completes(Run(l, steps), last) {
      FedCompletion(l, tasks, steps, last, {});
    }
    if emitted != [] && Feeding(l, tasks, {}) != {} && |Reachable(l, tasks, {})| >= |emitted| {
      var steps, last := FeedToCompletion(l, tasks, {});
    }
  }

  ghost predicate CanCompleteEarlyFreshly(l: Ledger, emitted: seq<Key>, tasks: multiset<Key>) {
    exists steps, last: Step :: Fed(l, tasks, steps + [last]) && CompletesEarly(Run(l, steps), last, emitted)
  }

  /** The condition for completing, without the result of one of the targets. */
  ghost predicate EnoughWithout(l: Ledger, emitted: seq<Key>, tasks: multiset<Key>, absent: Key) {
    Feeding(l, tasks, {absent}) != {} && |Reachable(l, tasks, {absent})| >= |emitted|
  }

  /** And it can complete early exactly when that holds without some target that has no row. */
  lemma EarlyFreshlyExactlyWhen(l: Ledger, emitted: seq<Key>, tasks: multiset<Key>)
    requires Begun(l, emitted)
    ensures CanCompleteEarlyFreshly(l, emitted, tasks)
       <==> exists absent :: absent in Members(emitted) - l.rows.Keys && EnoughWithout(l, emitted, tasks, absent)
  {
    if steps, last: Step :| Fed(l, tasks, steps + [last]) && CompletesEarly(Run(l, steps), last, emitted) {
      var absent :| absent in Members(emitted) && absent !in Next(Run(l, steps), last).rows.Keys;
      FedCompletion(l, tasks, steps, last, {absent});
      RunSnoc(l, steps, last);
      RowsStay(l, steps + [last]);
      assert absent in Members(emitted) - l.rows.Keys;
    }
    if absent :| absent in Members(emitted) - l.rows.Keys && EnoughWithout(l, emitted, tasks, absent) {
      MembersCount(emitted);
      var steps, last := FeedToCompletion(l, tasks, {absent});
      assert CompletesEarly(Run(l, steps), last, emitted);
    }
  }

  /** A fed run that completes the campaign and leaves some keys without a row. */
  lemma FedCompletion(l: Ledger, tasks: multiset<Key>, steps: seq<Step>, last: Step, without: set<Key>)
    requires Fed(l, tasks, steps + [last]) && Completes(Run(l, steps), last)
    requires without !! Next(Run(l, steps), last).rows.Keys
    ensures 0 < l.total <= |Reachable(l, tasks, without)| && Feeding(l, tasks, without) != {}
  {
    RunSnoc(l, steps, last);
    RowsStay(l, steps);
    FedRows(l, tasks, steps + [last], without);
    SubsetCount(Next(Run(l, steps), last).rows.Keys, Reachable(l, tasks, without));
    assert (steps + [last])[..|steps|] == steps && (steps + [last])[|steps|] == last;
    if Feeding(l, tasks, without) == {} {
      Starved(l, tasks, steps + [last], without);
    }
  }

  /** Rows come only from tasks. */
  lemma {:induction false} FedRows(l: Ledger, tasks: multiset<Key>, steps: seq<Step>, without: set<Key>)
    requires Fed(l, tasks, steps) && without !! Run(l, steps).rows.Keys
    ensures Run(l, steps).rows.Keys <= Reachable(l, tasks, without)
    ensures Left(l, tasks, steps) <= tasks
  {
    if steps != [] {
      var front, last := steps[..|steps| - 1], steps[|steps| - 1];
      assert Run(l, steps) == Next(Run(l, front), last);
      FedRows(l, tasks, front, without);
      assert last.Report? ==> last.result.key in Run(l, front).rows.Keys || last.result.key in tasks;
    }
  }

  /** With nothing to feed on, no result comes and no row changes. */
  lemma {:induction false} Starved(l: Ledger, tasks: multiset<Key>, steps: seq<Step>, without: set<Key>)
    requires Fed(l, tasks, steps) && without !! Run(l, steps).rows.Keys && Feeding(l, tasks, without) == {}
    ensures Run(l, steps).rows == l.rows && Left(l, tasks, steps) == tasks
    ensures forall i | 0 <= i < |steps| :: !steps[i].Report?
  {
    if steps != [] {
      var front, last := steps[..|steps| - 1], steps[|steps| - 1];
      assert Run(l, steps) == Next(Run(l, front), last);
      Starved(l, tasks, front, without);
      assert Pending(l.rows) <= Feeding(l, tasks, without) && Claimable(l.rows, None) <= Feeding(l, tasks, without);
      assert KeysIn(tasks) - without <= Feeding(l, tasks, without);
      NoneFed(tasks, without);
      assert !last.Report?;
      NothingToClaim(l.rows, last);
    }
  }

  lemma NoneFed(tasks: multiset<Key>, without: set<Key>)
    requires KeysIn(tasks) - without == {}
    ensures forall k | k in tasks :: k in without
  {
    assert KeysIn(tasks) == (KeysIn(tasks) - without) + (KeysIn(tasks) * without);
    assert forall k | k in tasks :: k in KeysIn(tasks);
  }

  lemma NothingToClaim(rows: map<Key, Row>, s: Step)
    requires Pending(rows) == {} && Claimable(rows, None) == {}
    ensures s.ClaimRows? ==> Claim(rows, s.asked) == rows
    ensures s.ReleaseRows? ==> Release(rows, s.keys) == rows
  {
    if s.ClaimRows? {
      assert Claimable(rows, s.asked) <= Claimable(rows, None);
    }
  }

  /** And as long as there is something to feed on, and enough of it, a fed run completes. */
  lemma FeedToCompletion(l: Ledger, tasks: multiset<Key>, without: set<Key>) returns (steps: seq<Step>, last: Step)
    requires l.status == A.Processing && 0 < l.total <= |Reachable(l, tasks, without)|
    requires Feeding(l, tasks, without) != {}
    ensures Fed(l, tasks, steps + [last]) && Completes(Run(l, steps), last)
    ensures Next(Run(l, steps), last).rows.Keys == Reachable(l, tasks, without)
  {
    var reporting := KeysIn(tasks) - without + Pending(l.rows);
    assert l.rows.Keys + reporting == Reachable(l, tasks, without);
    if reporting != {} {
      var keys := Listed(reporting);
      ReportsComplete(l, keys);
      steps, last := PausedReports(keys[..|keys| - 1]), Report(Result(keys[|keys| - 1], Delivered, false));
      ReportsAreFed(l, tasks, keys);
    } else {
      var k :| k in Claimable(l.rows, None);
      steps, last := [ClaimRows(Some({k}))], Report(Result(k, Delivered, false));
      assert Pending(l.rows) <= reporting;
      OneClaimed(l, k);
      OneStep(l, ClaimRows(Some({k})));
      FedStep(l, tasks, [], ClaimRows(Some({k})));
      FedStep(l, tasks, steps, last);
    }
  }

  lemma FedStep(l: Ledger, tasks: multiset<Key>, steps: seq<Step>, last: Step)
    requires Fed(l, tasks, steps)
    requires last.Report? ==>
               && Reportable(last.result)
               && (last.result.key in Pending(Run(l, steps).rows) || last.result.key in Left(l, tasks, steps))
    ensures Fed(l, tasks, steps + [last])
    ensures Left(l, tasks, steps + [last])
         == if last.Report? && last.result.key !in Pending(Run(l, steps).rows)
            then Left(l, tasks, steps) - multiset{last.result.key} else Left(l, tasks, steps)
  {
    assert (steps + [last])[..|steps|] == steps;
  }

  /** Distinct keys, each of an outstanding task or a retry, may all report. */
  lemma ReportsAreFed(l: Ledger, tasks: multiset<Key>, keys: seq<Key>)
    requires keys != [] && |Members(keys)| == |keys|
    requires Members(keys) <= KeysIn(tasks) + Pending(l.rows)
    ensures Fed(l, tasks, PausedReports(keys[..|keys| - 1]) + [Report(Result(keys[|keys| - 1], Delivered, false))])
  {
    var n := |keys| - 1;
    FedPrefix(l, tasks, keys, n);
    assert keys[n] in Members(keys);
    FedLast(l, tasks, [SetStatus(A.Paused)] + Reports(Successes(keys[..n])), keys[n]);
  }

  lemma FedLast(l: Ledger, tasks: multiset<Key>, paused: seq<Step>, k: Key)
    requires Fed(l, tasks, paused) && (k in Pending(Run(l, paused).rows) || Left(l, tasks, paused)[k] > 0)
    ensures Fed(l, tasks, paused + [SetStatus(A.Processing)] + [Report(Result(k, Delivered, false))])
  {
    FedStep(l, tasks, paused, SetStatus(A.Processing));
    RunSnoc(l, paused, SetStatus(A.Processing));
    FedStep(l, tasks, paused + [SetStatus(A.Processing)], Report(Result(k, Delivered, false)));
  }

  /** The tasks and queued rows of the keys from n on are as they were. */
  ghost predicate Untouched(l: Ledger, tasks: multiset<Key>, steps: seq<Step>, keys: seq<Key>, n: nat) {
    forall i | n <= i < |keys| ::
      && (keys[i] in Pending(Run(l, steps).rows) <==> keys[i] in Pending(l.rows))
      && Left(l, tasks, steps)[keys[i]] == tasks[keys[i]]
  }

  lemma {:induction false} FedPrefix(l: Ledger, tasks: multiset<Key>, keys: seq<Key>, n: nat)
    requires n <= |keys| == |Members(keys)| && Members(keys) <= KeysIn(tasks) + Pending(l.rows)
    ensures var steps := [SetStatus(A.Paused)] + Reports(Successes(keys[..n]));
            Fed(l, tasks, steps) && Untouched(l, tasks, steps, keys, n)
  {
    var first := [SetStatus(A.Paused)];
    if n == 0 {
      assert first + Reports(Successes(keys[..0])) == [] + first;
      FedStep(l, tasks, [], SetStatus(A.Paused));
      RunSnoc(l, [], SetStatus(A.Paused));
    } else {
      FedPrefix(l, tasks, keys, n - 1);
      var before, s := first + Reports(Successes(keys[..n - 1])), Report(Result(keys[n - 1], Delivered, false));
      OneMoreReport(keys, n);
      assert first + Reports(Successes(keys[..n])) == before + [s];
      OneMoreFed(l, tasks, before, keys, n);
    }
  }

  lemma OneMoreReport(keys: seq<Key>, n: nat)
    requires 0 < n <= |keys|
    ensures Reports(Successes(keys[..n])) == Reports(Successes(keys[..n - 1])) + [Report(Result(keys[n - 1], Delivered, false))]
  {
  }

  lemma OneMoreFed(l: Ledger, tasks: multiset<Key>, before: seq<Step>, keys: seq<Key>, n: nat)
    requires 0 < n <= |keys| == |Members(keys)| && Members(keys) <= KeysIn(tasks) + Pending(l.rows)
    requires Fed(l, tasks, before) && Untouched(l, tasks, before, keys, n - 1)
    ensures var after := before + [Report(Result(keys[n - 1], Delivered, false))];
            Fed(l, tasks, after) && Untouched(l, tasks, after, keys, n)
  {
    var r := Result(keys[n - 1], Delivered, false);
    assert keys[n - 1] in Members(keys);
    FedStep(l, tasks, before, Report(r));
    MembersCount(keys);
    forall i | n <= i < |keys|
      ensures var after := before + [Report(r)];
              && (keys[i] in Pending(Run(l, after).rows) <==> keys[i] in Pending(l.rows))
              && Left(l, tasks, after)[keys[i]] == tasks[keys[i]]
    {
      OthersUntouched(l, tasks, before, r, keys[i]);
    }
  }

  lemma OthersUntouched(l: Ledger, tasks: multiset<Key>, before: seq<Step>, r: Result, k: Key)
    requires Fed(l, tasks, before) && k != r.key && Reportable(r)
    ensures var after := before + [Report(r)];
            && (k in Pending(Run(l, after).rows) <==> k in Pending(Run(l, before).rows))
            && Left(l, tasks, after)[k] == Left(l, tasks, before)[k]
  {
    assert (before + [Report(r)])[..|before|] == before;
    RunSnoc(l, before, Report(r));
  }

  lemma OneClaimed(l: Ledger, k: Key)
    requires l.status == A.Processing && 0 < l.total <= |l.rows.Keys| && Pending(l.rows) == {} && k in Claimable(l.rows, None)
    ensures var claimed := Next(l, ClaimRows(Some({k})));
            && k in Pending(claimed.rows)
            && Completes(claimed, Report(Result(k, Delivered, false)))
            && Next(claimed, Report(Result(k, Delivered, false))).rows.Keys == l.rows.Keys
  {
    var claimed := Next(l, ClaimRows(Some({k})));
    assert Claimable(l.rows, Some({k})) == {k};
    assert claimed.rows.Keys == l.rows.Keys && Pending(claimed.rows) == {k};
    RecordIsSeen(claimed, Result(k, Delivered, false));
    assert claimed.rows.Keys + {k} == claimed.rows.Keys;
  }

  lemma OneStep(l: Ledger, s: Step)
    ensures Run(l, [s]) == Next(l, s)
  {
    assert [s][..0] == [];
  }

  // ---- After an aborted dispatch ----

  /** A dispatch emits tasks to `first` and is aborted; a later one emits tasks to distinct
      targets; some results of either come in before it sets the status. It can complete early
      exactly when one of its targets has no result so far and the aborted one emitted a task
      for none of its targets. */
  lemma AbortedDispatchExactlyWhen(status: A.Status, first: seq<Key>, results: seq<Result>, emitted: seq<Key>)
    requires status in {A.Draft, A.PendingApproval, A.Approved, A.Scheduled}
    requires Members(KeysOf(results)) <= Members(first) + Members(emitted) && |Members(emitted)| == |emitted|
    ensures var before := RecordAll(Ledger(status, 0, 0, map[]), results);
            && before.status == status
            && (CanCompleteEarly(Dispatching(before, |emitted|), emitted, first)
                <==> (exists k :: k in emitted && k !in KeysOf(results)) && (exists k :: k in first && k !in emitted))
  {
    var before := RecordAll(Ledger(status, 0, 0, map[]), results);
    RecordedKeys(Ledger(status, 0, 0, map[]), results);
    assert before.rows.Keys == Members(KeysOf(results));
    EarlyCompletionExactlyWhen(Dispatching(before, |emitted|), emitted, first);
    SomeOutside(emitted, KeysOf(results));
    SomeOutside(first, emitted);
  }

  /** Without repeated results, each task has one, in already or still outstanding. Then there
      must also be something else to wait for: an outstanding task, or a retry of a failed row. */
  lemma AbortedFreshlyExactlyWhen(status: A.Status, first: seq<Key>, results: seq<Result>, emitted: seq<Key>)
    requires status in {A.Draft, A.PendingApproval, A.Approved, A.Scheduled} && AllReportable(results)
    requires multiset(KeysOf(results)) <= multiset(first) + multiset(emitted) && |Members(emitted)| == |emitted|
    ensures var before := RecordAll(Ledger(status, 0, 0, map[]), results);
            var outstanding := multiset(first) + multiset(emitted) - multiset(KeysOf(results));
            CanCompleteEarlyFreshly(Dispatching(before, |emitted|), emitted, outstanding)
            <==> && (exists k :: k in first && k !in emitted)
                 && (exists e :: e in emitted && e !in KeysOf(results)
                                 && SomethingElse(KeysIn(outstanding) + Claimable(before.rows, None), e))
  {
    var l := Dispatching(RecordAll(Ledger(status, 0, 0, map[]), results), |emitted|);
    RecordedKeys(Ledger(status, 0, 0, map[]), results);
    NoneQueued(Ledger(status, 0, 0, map[]), results);
    assert l.rows.Keys == Members(KeysOf(results));
    EarlyOverLeftovers(l, first, KeysOf(results), emitted);
  }

  ghost predicate SomethingElse(keys: set<Key>, e: Key) {
    exists k :: k in keys && k != e
  }

  lemma EarlyOverLeftovers(l: Ledger, first: seq<Key>, seen: seq<Key>, emitted: seq<Key>)
    requires Begun(l, emitted) && l.rows.Keys == Members(seen) && Pending(l.rows) == {}
    requires multiset(seen) <= multiset(first) + multiset(emitted) && |Members(emitted)| == |emitted|
    ensures var outstanding := multiset(first) + multiset(emitted) - multiset(seen);
            CanCompleteEarlyFreshly(l, emitted, outstanding)
            <==> && (exists k :: k in first && k !in emitted)
                 && (exists e :: e in emitted && e !in seen && SomethingElse(KeysIn(outstanding) + Claimable(l.rows, None), e))
  {
    var outstanding := multiset(first) + multiset(emitted) - multiset(seen);
    EarlyFreshlyExactlyWhen(l, emitted, outstanding);
    SomeOutside(first, emitted);
    forall e ensures e in Members(emitted) - l.rows.Keys <==> e in emitted && e !in seen {
    }
    forall e | e in Members(emitted) - l.rows.Keys
      ensures EnoughWithout(l, emitted, outstanding, e)
         <==> !(Members(first) <= Members(emitted)) && SomethingElse(KeysIn(outstanding) + Claimable(l.rows, None), e)
    {
      WithoutOne(l, first, seen, emitted, outstanding, e);
    }
  }

  lemma WithoutOne(l: Ledger, first: seq<Key>, seen: seq<Key>, emitted: seq<Key>, outstanding: multiset<Key>, e: Key)
    requires l.rows.Keys == Members(seen) && Pending(l.rows) == {} && e in Members(emitted) - l.rows.Keys
    requires multiset(seen) <= multiset(first) + multiset(emitted)
    requires outstanding == multiset(first) + multiset(emitted) - multiset(seen)
    requires |Members(emitted)| == |emitted|
    ensures EnoughWithout(l, emitted, outstanding, e)
       <==> !(Members(first) <= Members(emitted)) && SomethingElse(KeysIn(outstanding) + Claimable(l.rows, None), e)
  {
    SeenOrOutstanding(first, seen, emitted, outstanding);
    AsSets(l, outstanding, Members(emitted) + Members(first), e);
    LessOne(Members(emitted), Members(first), KeysIn(outstanding) + Claimable(l.rows, None), e);
  }

  lemma AsSets(l: Ledger, outstanding: multiset<Key>, all: set<Key>, e: Key)
    requires l.rows.Keys + KeysIn(outstanding) == all && Pending(l.rows) == {} && e !in l.rows.Keys
    ensures Reachable(l, outstanding, {e}) == all - {e}
    ensures Feeding(l, outstanding, {e}) == KeysIn(outstanding) + Claimable(l.rows, None) - {e}
  {
    assert Claimable(l.rows, None) <= l.rows.Keys;
  }

  lemma LessOne(targets: set<Key>, first: set<Key>, feeding: set<Key>, e: Key)
    requires e in targets
    ensures feeding - {e} != {} && |targets + first - {e}| >= |targets| <==> !(first <= targets) && SomethingElse(feeding, e)
  {
    var all := targets + first;
    assert |all - {e}| == |all| - 1;
    SubsetCount(targets, all);
    if first <= targets {
      assert all == targets;
    }
    if k :| k in feeding && k != e {
      assert k in feeding - {e};
    }
  }

  lemma SeenOrOutstanding(first: seq<Key>, seen: seq<Key>, emitted: seq<Key>, outstanding: multiset<Key>)
    requires multiset(seen) <= multiset(first) + multiset(emitted)
    requires outstanding == multiset(first) + multiset(emitted) - multiset(seen)
    ensures Members(seen) + KeysIn(outstanding) == Members(emitted) + Members(first)
  {
    assert forall k :: k in first <==> k in multiset(first);
    assert forall k :: k in seen <==> k in multiset(seen);
    assert forall k :: k in emitted <==> k in multiset(emitted);
  }

  lemma {:induction false} NoneQueued(l: Ledger, results: seq<Result>)
    requires Pending(l.rows) == {} && AllReportable(results)
    ensures Pending(RecordAll(l, results).rows) == {}
  {
    if results != [] {
      var n := |results| - 1;
      NoneQueued(l, results[..n]);
      RecordIsSeen(RecordAll(l, results[..n]), results[n]);
    }
  }

  lemma SomeOutside(a: seq<Key>, b: seq<Key>)
    ensures (exists k :: k in a && k !in b) <==> !(Members(a) <= Members(b))
  {
    if k :| k in a && k !in b {
      assert k in Members(a) - Members(b);
    }
    if k :| k in Members(a) - Members(b) {
      assert k in a && k !in b;
    }
  }

  lemma {:induction false} RecordedKeys(l: Ledger, results: seq<Result>)
    requires l.status != A.Processing
    ensures RecordAll(l, results).rows.Keys == l.rows.Keys + Members(KeysOf(results))
    ensures RecordAll(l, results).status == l.status
  {
    if results != [] {
      var n := |results| - 1;
      RecordedKeys(l, results[..n]);
      KeysSnoc(results, n);
      assert Upserted(RecordAll(l, results[..n]).rows, results[n]).Keys
          == RecordAll(l, results[..n]).rows.Keys + {results[n].key};
    }
  }

  lemma KeysSnoc(results: seq<Result>, n: nat)
    requires n + 1 == |results|
    ensures Members(KeysOf(results)) == Members(KeysOf(results[..n])) + {results[n].key}
  {
    assert KeysOf(results) == KeysOf(results[..n]) + [results[n].key];
    MembersSnoc(KeysOf(results[..n]), results[n].key);
  }

  // ---- Draining a retry ----

  /** Each queued row reported once, in some order. */
  ghost predicate DrainsQueue(l: Ledger, results: seq<Result>) {
    Enumerates(KeysOf(results), Pending(l.rows)) && AllReportable(results)
  }

  lemma {:induction false} DistinctPrefix(keys: seq<Key>, n: nat)
    requires |Members(keys)| == |keys| && n <= |keys|
    ensures |Members(keys[..n])| == n
    ensures Members(keys[..n]) <= Members(keys)
    decreases |keys| - n
  {
    if n < |keys| {
      DistinctPrefix(keys, n + 1);
      assert keys[..n + 1] == keys[..n] + [keys[n]];
      MembersSnoc(keys[..n], keys[n]);
      MembersCount(keys[..n]);
    } else {
      assert keys[..n] == keys;
    }
  }

  /** The number of queued keys is the measure: it is the number still to come. */
  lemma LeftToDrain(pending: set<Key>, keys: seq<Key>, n: nat)
    requires Enumerates(keys, pending) && n <= |keys|
    ensures |pending - Members(keys[..n])| == |keys| - n
  {
    DistinctPrefix(keys, n);
    assert pending == (pending - Members(keys[..n])) + Members(keys[..n]);
  }

  /** After n keys the queue is shorter by exactly those n, and the campaign is completed
      only once it is empty. */
  lemma {:induction false} DrainStep(v: View, keys: seq<Key>, n: nat)
    requires Enumerates(keys, v.pending) && v.pending <= v.keys && n <= |keys|
    requires v.status == A.Processing && 0 < v.total <= |v.keys|
    ensures SeenAll(v, keys[..n])
         == View(if 0 < n == |keys| then A.Completed else A.Processing, v.total, v.keys, v.pending - Members(keys[..n]))
  {
    if n > 0 {
      DrainStep(v, keys, n - 1);
      assert keys[..n][..n - 1] == keys[..n - 1];
      OneDrained(v, keys, n);
    }
  }

  lemma OneDrained(v: View, keys: seq<Key>, n: nat)
    requires Enumerates(keys, v.pending) && v.pending <= v.keys && 0 < n <= |keys|
    requires v.status == A.Processing && 0 < v.total <= |v.keys|
    ensures Seen(v.(pending := v.pending - Members(keys[..n - 1])), keys[n - 1])
         == View(if n == |keys| then A.Completed else A.Processing, v.total, v.keys, v.pending - Members(keys[..n]))
  {
    LeftToDrain(v.pending, keys, n);
    OneMore(v.pending, keys, n);
    assert v.keys + {keys[n - 1]} == v.keys;
  }

  lemma OneMore(pending: set<Key>, keys: seq<Key>, n: nat)
    requires Enumerates(keys, pending) && 0 < n <= |keys|
    ensures pending - Members(keys[..n - 1]) - {keys[n - 1]} == pending - Members(keys[..n])
    ensures keys[n - 1] in pending
  {
    assert keys[..n] == keys[..n - 1] + [keys[n - 1]];
    MembersSnoc(keys[..n - 1], keys[n - 1]);
    assert keys[n - 1] in Members(keys);
  }

  /** A retry of a completed campaign either restores everything, when the queue takes
      nothing, or reopens it; and then, in whatever order the results arrive, the campaign
      is processing until the last of them and completed at it. */
  lemma RetryDrainsOrRollsBack(l: Ledger, published: set<Key>, results: seq<Result>, n: nat)
    requires l.status == A.Completed && Pending(l.rows) == {} && 0 < l.total <= |l.rows.Keys|
    requires published <= l.rows.Keys
    requires published != {} ==> DrainsQueue(AfterRetry(l, published), results) && n <= |results|
    ensures published == {} ==> AfterRetry(l, published) == l
    ensures published != {} ==>
              var now := RecordAll(AfterRetry(l, published), results[..n]);
              && |results| == |published|
              && |Pending(now.rows)| == |published| - n
              && now.status == if n == |results| then A.Completed else A.Processing
  {
    if published == {} {
      assert WithStatus(l.rows, {}, Queued) == l.rows;
    } else {
      Reopened(l, published);
      Drains(AfterRetry(l, published), results, n);
    }
  }

  lemma Drains(l: Ledger, results: seq<Result>, n: nat)
    requires l.status == A.Processing && DrainsQueue(l, results) && 0 < l.total <= |l.rows.Keys| && n <= |results|
    requires Pending(l.rows) != {}
    ensures var now := RecordAll(l, results[..n]);
            && |results| == |Pending(l.rows)|
            && |Pending(now.rows)| == |Pending(l.rows)| - n
            && now.status == if n == |results| then A.Completed else A.Processing
  {
    ResultsAreSeen(l, results[..n]);
    KeysPrefix(results, n);
    assert Pending(l.rows) <= l.rows.Keys;
    DrainStep(ViewOf(l), KeysOf(results), n);
    LeftToDrain(Pending(l.rows), KeysOf(results), n);
    assert ViewOf(RecordAll(l, results[..n])).pending == Pending(RecordAll(l, results[..n]).rows);
  }

  lemma Reopened(l: Ledger, published: set<Key>)
    requires Pending(l.rows) == {} && published <= l.rows.Keys
    ensures var rows := AfterRetry(l, published).rows;
            Pending(rows) == published && rows.Keys == l.rows.Keys
  {
    var rows := AfterRetry(l, published).rows;
    assert rows.Keys == l.rows.Keys;
    forall k ensures k in Pending(rows) <==> k in published {
      assert k in l.rows && l.rows[k].status == Queued ==> k in Pending(l.rows);
    }
  }
}
