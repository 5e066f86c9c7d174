/**
 The per-target delivery rows of one campaign and the progress derived from them.

 Rows are keyed by target kind and routing value. Every result upserts its row and
 recounts; the campaign completes when as many rows as targets exist and none is
 queued. A retry claims failed rows, reopens the campaign, publishes, and gives
 back what it could not publish.
 */
module DeliveryLedger {
  import opened Audience
  import opened Listings
  import FanOut
  import A = Approval

  datatype Kind = ContactKind | DestinationKind

  /** The unique key of a delivery row within a campaign. The platform is not part of it. */
  datatype Key = Key(kind: Kind, routing: string)

  datatype RowStatus = Queued | Sent | Delivered | Failed

  datatype Row = Row(status: RowStatus, retryable: bool, attempts: nat)

  datatype Ledger = Ledger(status: A.Status, total: nat, processed: nat, rows: map<Key, Row>)

  /** What a worker reports: never "queued". */
  datatype Result = Result(key: Key, outcome: RowStatus, retryable: bool)

  predicate Reportable(r: Result) {
    r.outcome != Queued
  }

  function KeyOf(t: FanOut.Task): Key {
    match t
    case ContactTask(_, _, routing) => Key(ContactKind, routing)
    case DestinationTask(routing) => Key(DestinationKind, routing)
  }

  function Pending(rows: map<Key, Row>): set<Key> {
    set k | k in rows && rows[k].status == Queued
  }

  function AttemptsOf(rows: map<Key, Row>, k: Key): nat {
    if k in rows then rows[k].attempts else 0
  }

  function Upserted(rows: map<Key, Row>, r: Result): map<Key, Row> {
    rows[r.key := Row(r.outcome, r.retryable, AttemptsOf(rows, r.key) + 1)]
  }

  /** The recount: a campaign being sent completes once every target has a row and no row is queued. */
  function Recount(status: A.Status, total: nat, rows: map<Key, Row>): A.Status {
    if status == A.Processing && total > 0 && |rows| >= total && Pending(rows) == {} then A.Completed else status
  }

  function Record(l: Ledger, r: Result): Ledger {
    var rows := Upserted(l.rows, r);
    Ledger(Recount(l.status, l.total, rows), l.total, |rows|, rows)
  }

  /** A dispatch sets status and total and starts the counter over; rows stay. */
  function Dispatching(l: Ledger, totalTargets: nat): Ledger {
    Ledger(A.Processing, totalTargets, 0, l.rows)
  }

  /** The failed, retryable rows among those asked for; no list asks for all. */
  function Claimable(rows: map<Key, Row>, asked: Option<set<Key>>): set<Key> {
    set k | k in rows && rows[k].status == Failed && rows[k].retryable && (asked.None? || k in asked.value)
  }

  function WithStatus(rows: map<Key, Row>, keys: set<Key>, status: RowStatus): map<Key, Row> {
    map k | k in rows :: if k in keys then rows[k].(status := status) else rows[k]
  }

  function Claim(rows: map<Key, Row>, asked: Option<set<Key>>): map<Key, Row> {
    WithStatus(rows, Claimable(rows, asked), Queued)
  }

  function Release(rows: map<Key, Row>, keys: set<Key>): map<Key, Row> {
    WithStatus(rows, keys * Pending(rows), Failed)
  }

  lemma ClaimOne(rows: map<Key, Row>, keys: set<Key>, k: Key)
    requires k in rows && k !in keys
    ensures WithStatus(rows, keys + {k}, Queued)
         == WithStatus(rows, keys, Queued)[k := WithStatus(rows, keys, Queued)[k].(status := Queued)]
  {
  }

  datatype Retry = NotRetryable | Retried(retried: nat, totalTasks: nat)

  class CampaignDeliveries {
    var status: A.Status
    var total: nat
    var processed: nat
    var rows: map<Key, Row>

    ghost function State(): Ledger
      reads this
    {
      Ledger(status, total, processed, rows)
    }

    constructor (status: A.Status)
      ensures State() == Ledger(status, 0, 0, map[])
    {
      this.status, total, processed, rows := status, 0, 0, map[];
    }

    method SetDispatching(totalTargets: nat)
      modifies this
      ensures State() == Dispatching(old(State()), totalTargets)
    {
      status, total, processed := A.Processing, totalTargets, 0;
    }

    method UpdateStatus(to: A.Status)
      modifies this`status
      ensures status == to
    {
      status := to;
    }

    /** The upsert and the recount, in one transaction. */
    method RecordDeliveryResult(r: Result)
      modifies this
      ensures State() == Record(old(State()), r)
    {
      var attempts := 1;
      if r.key in rows {
        attempts := rows[r.key].attempts + 1;
      }
      rows := rows[r.key := Row(r.outcome, r.retryable, attempts)];
      var pending := set k | k in rows && rows[k].status == Queued;
      processed := |rows|;
      if status == A.Processing && total > 0 && |rows| >= total && |pending| == 0 {
        status := A.Completed;
      }
    }

    method ClaimDeliveriesForRetry(asked: Option<set<Key>>) returns (claimed: seq<Key>)
      modifies this`rows
      ensures rows == Claim(old(rows), asked)
      ensures Enumerates(claimed, Claimable(old(rows), asked))
    {
      claimed := [];
      ghost var done: set<Key> := {};
      var left := Claimable(rows, asked);
      while left != {}
        invariant left == Claimable(old(rows), asked) - done && done <= Claimable(old(rows), asked)
        invariant Enumerates(claimed, done)
        invariant rows == WithStatus(old(rows), done, Queued)
        decreases left
      {
        var k :| k in left;
        MembersSnoc(claimed, k);
        ClaimOne(old(rows), done, k);
        rows := rows[k := rows[k].(status := Queued)];
        claimed := claimed + [k];
        done := done + {k};
        left := left - {k};
      }
    }

    method ReleaseDeliveryClaims(keys: seq<Key>)
      modifies this`rows
      ensures rows == Release(old(rows), Members(keys))
    {
      rows := map k | k in rows :: if k in keys && rows[k].status == Queued then rows[k].(status := Failed) else rows[k];
    }

    /** A retry that nothing interrupts, with database calls that succeed; `accepts` says
        which tasks the queue takes. */
    method RetryDeliveries(asked: Option<set<Key>>, accepts: Key -> bool) returns (r: Retry, ghost published: set<Key>)
      modifies this
      ensures r.NotRetryable? <==> old(status) != A.Processing && old(status) != A.Completed
      ensures r.NotRetryable? ==> State() == old(State()) && published == {}
      ensures r.Retried? ==>
                && published == Accepted(Claimable(old(rows), asked), accepts)
                && State() == AfterRetry(old(State()), published)
                && r.retried == |published|
                && r.totalTasks == |Claimable(old(rows), asked)|
    {
      published := {};
      if status != A.Processing && status != A.Completed {
        return NotRetryable, published;
      }
      var wasCompleted := status == A.Completed;
      var claimed := ClaimDeliveriesForRetry(asked);
      ghost var claims := Claimable(old(rows), asked);
      var reopened := false;
      if |claimed| > 0 && wasCompleted {
        UpdateStatus(A.Processing);
        reopened := true;
      }
      var taken, failedClaims := Publish(claimed, accepts);
      published := Accepted(claims, accepts);
      PublishSplits(claimed, claims, accepts, failedClaims);
      if |failedClaims| > 0 {
        ReleaseDeliveryClaims(failedClaims);
      }
      RollBack(old(rows), asked, accepts);
      if taken == 0 && reopened {
        UpdateStatus(A.Completed);
      }
      return Retried(taken, |claimed|), published;
    }
  }

  /** The publishing loop: counts what the queue takes and lists what it does not. */
  method Publish(claimed: seq<Key>, accepts: Key -> bool) returns (published: nat, failedClaims: seq<Key>)
    ensures failedClaims == Declined(claimed, accepts)
    ensures published + |failedClaims| == |claimed|
  {
    published, failedClaims := 0, [];
    for i := 0 to |claimed|
      invariant failedClaims == Declined(claimed[..i], accepts)
      invariant published + |failedClaims| == i
    {
      assert claimed[..i + 1][..i] == claimed[..i];
      if !accepts(claimed[i]) {
        failedClaims := failedClaims + [claimed[i]];
        continue;
      }
      published := published + 1;
    }
    assert claimed[..|claimed|] == claimed;
  }

  function Declined(keys: seq<Key>, accepts: Key -> bool): seq<Key> {
    if keys == [] then []
    else
      var front, last := keys[..|keys| - 1], keys[|keys| - 1];
      if accepts(last) then Declined(front, accepts) else Declined(front, accepts) + [last]
  }

  ghost function Accepted(keys: set<Key>, accepts: Key -> bool): set<Key> {
    set k | k in keys && accepts(k)
  }

  ghost predicate Enumerates(keys: seq<Key>, s: set<Key>) {
    Members(keys) == s && |keys| == |s|
  }

  /** What a retry leaves: exactly the published rows are queued anew, and a completed
      campaign is open again only if something was published. */
  ghost function AfterRetry(l: Ledger, published: set<Key>): Ledger {
    l.(rows := WithStatus(l.rows, published, Queued), status := if published == {} then l.status else A.Processing)
  }

  lemma {:induction false} DeclinedMembers(keys: seq<Key>, accepts: Key -> bool)
    ensures forall k :: k in Declined(keys, accepts) <==> k in keys && !accepts(k)
  {
    if keys != [] {
      DeclinedMembers(keys[..|keys| - 1], accepts);
      assert forall k :: k in keys <==> k in keys[..|keys| - 1] || k == keys[|keys| - 1];
    }
  }

  /** Claims that were not declined were published: as sets and as counts. */
  lemma PublishSplits(claimed: seq<Key>, claims: set<Key>, accepts: Key -> bool, failed: seq<Key>)
    requires Enumerates(claimed, claims) && failed == Declined(claimed, accepts)
    ensures Members(failed) == claims - Accepted(claims, accepts)
    ensures |failed| == |claims| - |Accepted(claims, accepts)|
  {
    DeclinedMembers(claimed, accepts);
    var no, yes := claims - Accepted(claims, accepts), Accepted(claims, accepts);
    assert claims == no + yes;
    assert Members(failed) == no;
    DeclinedDistinct(claimed, accepts);
    assert Members(claimed) == claims;
  }

  /** Keys listed without repetition stay so when some are dropped. */
  lemma {:induction false} DeclinedDistinct(keys: seq<Key>, accepts: Key -> bool)
    requires |Members(keys)| == |keys|
    ensures |Members(Declined(keys, accepts))| == |Declined(keys, accepts)|
  {
    if keys != [] {
      var front, last := keys[..|keys| - 1], keys[|keys| - 1];
      assert keys == front + [last];
      MembersSnoc(front, last);
      MembersCount(front);
      DeclinedDistinct(front, accepts);
      DeclinedMembers(front, accepts);
      MembersSnoc(Declined(front, accepts), last);
    }
  }

  /** Releasing the declined claims leaves the published rows queued and every other row
      as it was. */
  lemma RollBack(rows: map<Key, Row>, asked: Option<set<Key>>, accepts: Key -> bool)
    ensures var claims := Claimable(rows, asked);
            var published := Accepted(claims, accepts);
            && Release(Claim(rows, asked), claims - published) == WithStatus(rows, published, Queued)
            && (claims == published ==> Claim(rows, asked) == WithStatus(rows, published, Queued))
            && WithStatus(rows, {}, Queued) == rows
  {
  }
}
