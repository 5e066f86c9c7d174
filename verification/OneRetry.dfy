/**
 One retry among the steps of the protocol.

 A caller whose calls all take effect, and whom nobody disturbs, takes the protocol
 from one world to another just as the retry of the delivery ledger goes from one
 ledger to another; what it published is on the queue, and it is gone.
 */
module OneRetry {
  import opened Audience
  import A = Approval
  import opened DeliveryLedger
  import opened RetryProtocol

  /** The ledger as the world shows it. */
  function LedgerOf(w: World, processed: nat): Ledger {
    Ledger(w.status, w.total, processed, w.rows)
  }

  /** A result that uses up its task does to the ledger what recording it does. */
  lemma ReportRecords(w: World, r: Result, processed: nat)
    requires Enabled(w, Report(r))
    ensures var after := After(w, Report(r));
            && LedgerOf(after, |after.rows|) == Record(LedgerOf(w, processed), r)
            && after.tasks + multiset{r.key} == w.tasks && after.callers == w.callers
  {
  }

  /** Pausing and resuming are possible, and do to the status, what the campaign's operator can. */
  lemma PausesAsOperated(w: World, c: A.Campaign, required: bool)
    requires c.status == w.status
    ensures Enabled(w, Pause) <==> A.Refused(c, A.Pause, required).None?
    ensures Enabled(w, Resume) <==> A.Refused(c, A.Resume, required).None?
    ensures Enabled(w, Pause) ==> After(w, Pause) == w.(status := A.Paused)
    ensures Enabled(w, Resume) ==> After(w, Resume) == w.(status := A.Processing)
  {
  }

  lemma RunsFirst(w: World, s: Step, steps: seq<Step>, end: World)
    requires Enabled(w, s) && Runs(After(w, s), steps, end)
    ensures Runs(w, [s] + steps, end)
  {
    assert ([s] + steps)[1..] == steps;
  }

  /** From the check on, the queue taking exactly the tasks in `accepts`: the same rows, status
      and total as after the ledger's retry, and exactly the published tasks on the queue. */
  lemma UndisturbedRetry(w: World, c: nat, asked: Option<set<Key>>, accepts: Key -> bool, processed: nat)
    returns (steps: seq<Step>, end: World)
    requires c !in w.callers && w.status in {A.Processing, A.Completed}
    ensures Runs(w, steps, end)
    ensures var published := Accepted(Claimable(w.rows, asked), accepts);
            && LedgerOf(end, processed) == AfterRetry(LedgerOf(w, processed), published)
            && end.tasks == w.tasks + multiset(published)
    ensures end.callers == w.callers
    ensures w.status == A.Processing ==> end.status == A.Processing
  {
    var checked := After(w, Check(c));
    var claimed := After(checked, ClaimRows(c, asked, Done));
    steps, end := ReopenAndRest(claimed, c, accepts);
    RunsFirst(checked, ClaimRows(c, asked, Done), steps, end);
    RunsFirst(w, Check(c), [ClaimRows(c, asked, Done)] + steps, end);
    steps := [Check(c)] + ([ClaimRows(c, asked, Done)] + steps);
    AsTheLedger(w, asked, accepts);
  }

  /** Reopening first if the campaign was seen completed. */
  lemma ReopenAndRest(w: World, c: nat, accepts: Key -> bool) returns (steps: seq<Step>, end: World)
    requires c in w.callers && w.callers[c].Publishing?
    requires w.callers[c].failed == {} && w.callers[c].published == 0 && !w.callers[c].reopened
    ensures Runs(w, steps, end)
    ensures var p := w.callers[c];
            && end.rows == Release(w.rows, Refused(p.todo, accepts))
            && end.tasks == w.tasks + multiset(Accepted(p.todo, accepts))
            && end.status == (if !p.mustReopen then w.status
                              else if Accepted(p.todo, accepts) == {} then A.Completed else A.Processing)
            && end.total == w.total && end.callers == w.callers - {c}
  {
    var s := Reopen(c, Done);
    var ready := if w.callers[c].mustReopen then After(w, s) else w;
    steps, end := RestOfRetry(ready, c, accepts);
    assert {} + Refused(w.callers[c].todo, accepts) == Refused(w.callers[c].todo, accepts);
    if w.callers[c].mustReopen {
      assert ready.callers - {c} == w.callers - {c};
      RunsFirst(w, s, steps, end);
      steps := [s] + steps;
    }
  }

  lemma AsTheLedger(w: World, asked: Option<set<Key>>, accepts: Key -> bool)
    ensures var claims := Claimable(w.rows, asked);
            && Release(Claim(w.rows, asked), Refused(claims, accepts)) == WithStatus(w.rows, Accepted(claims, accepts), Queued)
            && (claims == {} ==> Accepted(claims, accepts) == {})
  {
    var claims := Claimable(w.rows, asked);
    RollBack(w.rows, asked, accepts);
    assert Refused(claims, accepts) == claims - Accepted(claims, accepts);
  }

  ghost function Refused(keys: set<Key>, accepts: Key -> bool): set<Key> {
    set k | k in keys && !accepts(k)
  }

  /** How it ends from a world in which the caller still has some to publish. */
  ghost predicate Ends(w: World, c: nat, accepts: Key -> bool, end: World)
    requires c in w.callers && w.callers[c].Publishing?
  {
    var p := w.callers[c];
    && end.rows == Release(w.rows, p.failed + Refused(p.todo, accepts))
    && end.tasks == w.tasks + multiset(Accepted(p.todo, accepts))
    && end.status == (if p.reopened && p.published == 0 && Accepted(p.todo, accepts) == {} then A.Completed else w.status)
    && end.total == w.total && end.callers == w.callers - {c}
  }

  /** Publish what is still to do, release what was refused, and return. */
  lemma {:induction false} RestOfRetry(w: World, c: nat, accepts: Key -> bool) returns (steps: seq<Step>, end: World)
    requires c in w.callers && w.callers[c].Publishing? && !w.callers[c].mustReopen
    ensures Runs(w, steps, end) && Ends(w, c, accepts, end)
    decreases w.callers[c].todo
  {
    if k :| k in w.callers[c].todo {
      var s := Publish(c, k, if accepts(k) then Done else NotDone);
      steps, end := RestOfRetry(After(w, s), c, accepts);
      EndsAlike(w, c, k, accepts, end);
      RunsFirst(w, s, steps, end);
      steps := [s] + steps;
    } else {
      var p := w.callers[c];
      assert Refused(p.todo, accepts) == {} && Accepted(p.todo, accepts) == {} && p.failed + {} == p.failed;
      steps, end := ReleaseAndReturn(w, c);
    }
  }

  lemma EndsAlike(w: World, c: nat, k: Key, accepts: Key -> bool, end: World)
    requires c in w.callers && w.callers[c].Publishing? && !w.callers[c].mustReopen && k in w.callers[c].todo
    requires Ends(After(w, Publish(c, k, if accepts(k) then Done else NotDone)), c, accepts, end)
    ensures Ends(w, c, accepts, end)
  {
    var after, p := After(w, Publish(c, k, if accepts(k) then Done else NotDone)), w.callers[c];
    OneFewer(p.todo, k, accepts);
    assert after.callers - {c} == w.callers - {c};
    if accepts(k) {
      assert w.tasks + multiset{k} + multiset(Accepted(p.todo - {k}, accepts)) == w.tasks + multiset(Accepted(p.todo, accepts));
    } else {
      assert p.failed + {k} + Refused(p.todo - {k}, accepts) == p.failed + Refused(p.todo, accepts);
    }
  }

  lemma OneFewer(todo: set<Key>, k: Key, accepts: Key -> bool)
    requires k in todo
    ensures accepts(k) ==>
              && multiset(Accepted(todo, accepts)) == multiset{k} + multiset(Accepted(todo - {k}, accepts))
              && Accepted(todo, accepts) != {} && Refused(todo, accepts) == Refused(todo - {k}, accepts)
    ensures !accepts(k) ==>
              && Accepted(todo, accepts) == Accepted(todo - {k}, accepts)
              && Refused(todo, accepts) == {k} + Refused(todo - {k}, accepts)
  {
    if accepts(k) {
      assert Accepted(todo, accepts) == {k} + Accepted(todo - {k}, accepts) && k in Accepted(todo, accepts);
      assert Refused(todo, accepts) == Refused(todo - {k}, accepts);
    } else {
      assert Accepted(todo, accepts) == Accepted(todo - {k}, accepts);
      assert Refused(todo, accepts) == {k} + Refused(todo - {k}, accepts);
    }
  }

  lemma ReleaseAndReturn(w: World, c: nat) returns (steps: seq<Step>, end: World)
    requires c in w.callers && w.callers[c].Publishing? && !w.callers[c].mustReopen && w.callers[c].todo == {}
    ensures Runs(w, steps, end)
    ensures end.rows == Release(w.rows, w.callers[c].failed) && end.tasks == w.tasks && end.total == w.total
    ensures end.status == if w.callers[c].reopened && w.callers[c].published == 0 then A.Completed else w.status
    ensures end.callers == w.callers - {c}
  {
    steps, end := [Return(c, true)], After(ReleasedFirst(w, c), Return(c, true));
    assert ReleasedFirst(w, c).callers - {c} == w.callers - {c};
    assert steps[1..] == [] && Runs(end, [], end);
    if w.callers[c].failed != {} {
      RunsFirst(w, ReleaseRows(c, true), steps, end);
      steps := [ReleaseRows(c, true)] + steps;
    }
    ReleasedRows(w, c);
  }

  ghost function ReleasedFirst(w: World, c: nat): World
    requires c in w.callers && w.callers[c].Publishing? && w.callers[c].todo == {}
  {
    if w.callers[c].failed != {} then After(w, ReleaseRows(c, true)) else w
  }

  lemma ReleasedRows(w: World, c: nat)
    requires c in w.callers && w.callers[c].Publishing? && w.callers[c].todo == {}
    ensures ReleasedFirst(w, c).rows == Release(w.rows, w.callers[c].failed)
  {
    assert Release(w.rows, {}) == w.rows;
    var released := w.callers[c].failed * Pending(w.rows);
    assert released * Pending(w.rows) == released;
  }
}
