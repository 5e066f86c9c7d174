/**
 Erased recipients and the retention sweep that finally deletes them.

 The sweep asks for the oldest expired recipients, one batch at a time, deletes
 each, and stops after a short batch or after its allowance of batches. Deletes
 may fail; a recipient whose delete fails is listed again in the next batch.
 */
module Erasure {
  import opened Audience
  import opened Listings

  /** A recipient row; the deadline is set once it has been erased. */
  datatype Recipient = Recipient(name: string, routing: string, status: ContactStatus, erasedAt: Option<int>, deleteAfter: Option<int>)

  const DEFAULT_LIMIT: nat := 500

  predicate Expired(r: Recipient, now: int) {
    r.deleteAfter.Some? && r.deleteAfter.value <= now
  }

  ghost function ExpiredIds(contacts: map<string, Recipient>, now: int): set<string> {
    set id | id in contacts && Expired(contacts[id], now)
  }

  ghost function Deadline(contacts: map<string, Recipient>, id: string): int {
    if id in contacts && contacts[id].deleteAfter.Some? then contacts[id].deleteAfter.value else 0
  }

  /** ids lists the oldest expired recipients, at most `limit` of them, oldest first. */
  ghost predicate OldestExpired(contacts: map<string, Recipient>, now: int, limit: nat, ids: seq<string>) {
    && (forall i | 0 <= i < |ids| :: ids[i] in ExpiredIds(contacts, now))
    && (forall i, j | 0 <= i < j < |ids| :: ids[i] != ids[j] && Deadline(contacts, ids[i]) <= Deadline(contacts, ids[j]))
    && (forall i, x | 0 <= i < |ids| && x in ExpiredIds(contacts, now) && x !in ids :: Deadline(contacts, ids[i]) <= Deadline(contacts, x))
    && |ids| <= limit
    && (|ids| < limit ==> forall x | x in ExpiredIds(contacts, now) :: x in ids)
  }

  /** Only recipients whose time has come are listed, by their times, and whoever is left out has
      no earlier one. */
  lemma ListedOldestFirst(contacts: map<string, Recipient>, now: int, limit: nat, ids: seq<string>)
    requires OldestExpired(contacts, now, limit, ids)
    ensures forall i | 0 <= i < |ids| ::
              ids[i] in contacts && contacts[ids[i]].deleteAfter.Some? && contacts[ids[i]].deleteAfter.value <= now
    ensures forall i, j | 0 <= i < j < |ids| :: contacts[ids[i]].deleteAfter.value <= contacts[ids[j]].deleteAfter.value
    ensures forall i, x | 0 <= i < |ids| && x in contacts && contacts[x].deleteAfter.Some? && x !in ids ::
              contacts[ids[i]].deleteAfter.value <= contacts[x].deleteAfter.value
  {
    assert forall i | 0 <= i < |ids| :: ids[i] in ExpiredIds(contacts, now);
    forall i, x | 0 <= i < |ids| && x in contacts && contacts[x].deleteAfter.Some? && x !in ids
      ensures contacts[ids[i]].deleteAfter.value <= contacts[x].deleteAfter.value
    {
      if contacts[x].deleteAfter.value <= now {
        assert x in ExpiredIds(contacts, now);
        assert Deadline(contacts, ids[i]) <= Deadline(contacts, x);
      }
    }
    forall i, j | 0 <= i < j < |ids|
      ensures contacts[ids[i]].deleteAfter.value <= contacts[ids[j]].deleteAfter.value
    {
      assert Deadline(contacts, ids[i]) <= Deadline(contacts, ids[j]);
    }
  }

  ghost function Deleted(contacts: map<string, Recipient>, gone: set<string>): map<string, Recipient> {
    contacts - gone
  }

  ghost function Unlinked(deliveries: map<string, Option<string>>, gone: set<string>): map<string, Option<string>> {
    map d | d in deliveries ::
      if deliveries[d].Some? && deliveries[d].value in gone then None else deliveries[d]
  }

  lemma GoneTwice(contacts: map<string, Recipient>, deliveries: map<string, Option<string>>, a: set<string>, b: set<string>)
    ensures Deleted(Deleted(contacts, a), b) == Deleted(contacts, a + b)
    ensures Unlinked(Unlinked(deliveries, a), b) == Unlinked(deliveries, a + b)
  {
  }

  lemma BatchStep(contacts: map<string, Recipient>, deliveries: map<string, Option<string>>, ids: seq<string>, k: nat, failing: set<string>)
    requires forall i, j | 0 <= i < j < |ids| :: ids[i] != ids[j]
    requires k < |ids| && ids[k] in contacts
    ensures var gone, gone' := Members(ids[..k]) - failing, Members(ids[..k + 1]) - failing;
            && ids[k] !in gone && ids[k] in Deleted(contacts, gone)
            && gone' == (if ids[k] in failing then gone else gone + {ids[k]})
            && Deleted(Deleted(contacts, gone), {ids[k]}) == Deleted(contacts, gone + {ids[k]})
            && Unlinked(Unlinked(deliveries, gone), {ids[k]}) == Unlinked(deliveries, gone + {ids[k]})
  {
    assert ids[..k + 1] == ids[..k] + [ids[k]];
    MembersSnoc(ids[..k], ids[k]);
    GoneTwice(contacts, deliveries, Members(ids[..k]) - failing, {ids[k]});
  }

  class RecipientStore {
    var contacts: map<string, Recipient>
    /** Delivery rows with the recipient they point to. */
    var deliveries: map<string, Option<string>>

    constructor (contacts: map<string, Recipient>, deliveries: map<string, Option<string>>)
      ensures this.contacts == contacts && this.deliveries == deliveries
    {
      this.contacts, this.deliveries := contacts, deliveries;
    }

    /** Blanks the personal data and sets the deadline, unless one is set already. */
    method Anonymize(id: string, now: int, deleteAfter: int) returns (found: bool)
      modifies this
      ensures found <==> id in old(contacts)
      ensures deliveries == old(deliveries)
      ensures contacts == if found then old(contacts)[id := Erased(old(contacts)[id], id, now, deleteAfter)] else old(contacts)
    {
      found := id in contacts;
      if found {
        var r := contacts[id];
        contacts := contacts[id := Recipient(
          "Redacted recipient", "redacted-" + id, OptedOut,
          if r.erasedAt.Some? then r.erasedAt else Some(now),
          if r.deleteAfter.Some? then r.deleteAfter else Some(deleteAfter))];
      }
    }

    /** The query: expired, ORDER BY deadline, LIMIT, with 500 for a limit of zero or less. */
    method FindAnonymizedExpired(now: int, limit: int) returns (ids: seq<string>)
      ensures OldestExpired(contacts, now, if limit <= 0 then 500 else limit, ids)
    {
      var room: nat := if limit <= 0 then DEFAULT_LIMIT else limit;
      var left := set id | id in contacts && Expired(contacts[id], now);
      ids := [];
      while left != {} && |ids| < room
        invariant left == ExpiredIds(contacts, now) - Members(ids)
        invariant |ids| <= room
        invariant forall i | 0 <= i < |ids| :: ids[i] in ExpiredIds(contacts, now)
        invariant forall i, j | 0 <= i < j < |ids| :: ids[i] != ids[j] && Deadline(contacts, ids[i]) <= Deadline(contacts, ids[j])
        invariant forall i, x | 0 <= i < |ids| && x in left :: Deadline(contacts, ids[i]) <= Deadline(contacts, x)
        decreases left
      {
        var oldest := OldestOf(left);
        MembersSnoc(ids, oldest);
        left := left - {oldest};
        ids := ids + [oldest];
      }
      assert forall x | x in ExpiredIds(contacts, now) :: x in Members(ids) || x in left;
    }

    method OldestOf(ids: set<string>) returns (oldest: string)
      requires ids != {} && forall id | id in ids :: id in contacts && contacts[id].deleteAfter.Some?
      ensures oldest in ids && forall x | x in ids :: Deadline(contacts, oldest) <= Deadline(contacts, x)
    {
      oldest :| oldest in ids;
      var left := ids - {oldest};
      while left != {}
        invariant left <= ids && oldest in ids
        invariant forall x | x in ids - left :: Deadline(contacts, oldest) <= Deadline(contacts, x)
        decreases left
      {
        var x :| x in left;
        if contacts[x].deleteAfter.value < contacts[oldest].deleteAfter.value {
          oldest := x;
        }
        left := left - {x};
      }
    }

    /** Unlinks the delivery rows, then deletes the recipient; all or nothing. A delete of
        an ID in `failing` stands for one the database refuses. */
    method HardDelete(id: string, failing: set<string>) returns (ok: bool)
      modifies this
      ensures ok <==> id in old(contacts) && id !in failing
      ensures contacts == if ok then Deleted(old(contacts), {id}) else old(contacts)
      ensures deliveries == if ok then Unlinked(old(deliveries), {id}) else old(deliveries)
    {
      if id in failing || id !in contacts {
        return false;
      }
      deliveries := map d | d in deliveries :: if deliveries[d] == Some(id) then None else deliveries[d];
      contacts := contacts - {id};
      return true;
    }

    /** The inner loop: every listed recipient is tried, failures are passed over. */
    method DeleteBatch(ids: seq<string>, failing: set<string>) returns (deleted: nat, ghost gone: set<string>)
      requires forall i, j | 0 <= i < j < |ids| :: ids[i] != ids[j]
      requires forall i | 0 <= i < |ids| :: ids[i] in contacts
      modifies this
      ensures gone == Members(ids) - failing && deleted == |gone|
      ensures contacts == Deleted(old(contacts), gone) && deliveries == Unlinked(old(deliveries), gone)
    {
      deleted, gone := 0, {};
      for k := 0 to |ids|
        invariant gone == Members(ids[..k]) - failing && deleted == |gone|
        invariant contacts == Deleted(old(contacts), gone) && deliveries == Unlinked(old(deliveries), gone)
      {
        BatchStep(old(contacts), old(deliveries), ids, k, failing);
        var ok := HardDelete(ids[k], failing);
        if ok {
          deleted := deleted + 1;
          gone := gone + {ids[k]};
        }
      }
      assert ids[..|ids|] == ids;
    }

    /** The sweep, at a fixed time. It returns how many rows it deleted, and which. */
    method Sweep(now: int, batchSize: nat, maxBatches: nat, failing: set<string>)
      returns (total: nat, ghost gone: set<string>)
      requires batchSize > 0
      modifies this
      ensures total == |gone| && contacts == Deleted(old(contacts), gone) && deliveries == Unlinked(old(deliveries), gone)
      ensures Swept(old(contacts), now, batchSize, maxBatches, failing, gone)
    {
      total, gone := 0, {};
      NothingSwept(contacts, now, batchSize, failing);
      var batch := 0;
      while batch < maxBatches
        invariant batch <= maxBatches
        invariant total == |gone|
        invariant contacts == Deleted(old(contacts), gone) && deliveries == Unlinked(old(deliveries), gone)
        invariant Swept(old(contacts), now, batchSize, batch, failing, gone)
      {
        var ids := FindAnonymizedExpired(now, batchSize);
        BatchDone(old(contacts), now, batchSize, batch, maxBatches, failing, gone, ids);
        if |ids| == 0 {
          return;
        }
        var deleted;
        ghost var more;
        deleted, more := DeleteBatch(ids, failing);
        GoneTwice(old(contacts), old(deliveries), gone, more);
        total := total + deleted;
        gone := gone + more;
        batch := batch + 1;
        if |ids| < batchSize {
          return;
        }
      }
    }
  }

  function Erased(r: Recipient, id: string, now: int, deleteAfter: int): Recipient {
    Recipient("Redacted recipient", "redacted-" + id, OptedOut,
              if r.erasedAt.Some? then r.erasedAt else Some(now),
              if r.deleteAfter.Some? then r.deleteAfter else Some(deleteAfter))
  }

  /** Erasing again, at any later time and with any other deadline, changes nothing: the
      original erasure time and deadline stand. */
  lemma ErasureIsIdempotent(r: Recipient, id: string, now: int, deadline: int, later: int, other: int)
    ensures Erased(Erased(r, id, now, deadline), id, later, other) == Erased(r, id, now, deadline)
    ensures Erased(r, id, now, deadline).deleteAfter.Some?
    ensures r.deleteAfter.Some? ==> Erased(r, id, now, deadline).deleteAfter == r.deleteAfter
  {
  }

  /** An erased row keeps nothing of the person and is suppressed, whatever was in it. */
  lemma ErasureBlanks(r: Recipient, other: Recipient, id: string, now: int, deadline: int)
    ensures var e := Erased(r, id, now, deadline);
            && e.status == OptedOut
            && e.name == "Redacted recipient" && e.routing == "redacted-" + id
            && (r.erasedAt == other.erasedAt && r.deleteAfter == other.deleteAfter ==> e == Erased(other, id, now, deadline))
  {
  }

  /** A first erasure sets the time and the deadline given, and the row expires exactly from
      that deadline on; a row never erased does not expire. */
  lemma ExpiresExactlyFrom(r: Recipient, id: string, now: int, deadline: int, at: int)
    requires r.erasedAt.None? && r.deleteAfter.None?
    ensures Erased(r, id, now, deadline).erasedAt == Some(now)
    ensures Expired(Erased(r, id, now, deadline), at) <==> at >= deadline
    ensures !Expired(r, at)
  {
  }

  ghost function Times(batches: nat, size: int): int {
    if batches == 0 then 0 else Times(batches - 1, size) + size
  }

  lemma {:induction false} TimesIsProduct(batches: nat, size: int)
    ensures Times(batches, size) == batches * size
  {
    if batches > 0 {
      TimesIsProduct(batches - 1, size);
    }
  }

  lemma {:induction false} TimesGrows(fewer: nat, batches: nat, size: nat)
    requires fewer <= batches
    ensures Times(fewer, size) <= Times(batches, size)
    decreases batches
  {
    if fewer < batches {
      TimesGrows(fewer, batches - 1, size);
    }
  }

  /** Only expired recipients are gone, and none that is left and could be deleted has an
      older deadline than one that went. */
  ghost predicate OldestFirst(contacts: map<string, Recipient>, now: int, failing: set<string>, gone: set<string>) {
    var expired := ExpiredIds(contacts, now);
    && gone <= expired - failing
    && forall g, x | g in gone && x in expired - gone && x !in failing :: Deadline(contacts, g) <= Deadline(contacts, x)
  }

  /** Within `batch` batches: no more went than the allowance; and either all that could be
      deleted went, or every batch was full and deleted all but the failing ones. */
  ghost predicate AtPace(contacts: map<string, Recipient>, now: int, batchSize: nat, batch: nat,
                         failing: set<string>, gone: set<string>) {
    var expired := ExpiredIds(contacts, now);
    && |gone| <= Times(batch, batchSize)
    && (|gone| >= Times(batch, batchSize - |failing * expired|) || expired - gone <= failing)
  }

  ghost predicate Progress(contacts: map<string, Recipient>, now: int, batchSize: nat, batch: nat,
                           failing: set<string>, gone: set<string>) {
    OldestFirst(contacts, now, failing, gone) && AtPace(contacts, now, batchSize, batch, failing, gone)
  }

  /** The batch deletes all it lists but the failing ones: a full batch makes its share of
      progress, and a short one leaves only failing recipients behind. */
  lemma BatchProgress(contacts: map<string, Recipient>, now: int, batchSize: nat, batch: nat,
                      failing: set<string>, gone: set<string>, ids: seq<string>, more: set<string>)
    requires Progress(contacts, now, batchSize, batch, failing, gone)
    requires OldestExpired(Deleted(contacts, gone), now, batchSize, ids) && more == Members(ids) - failing
    ensures |gone + more| == |gone| + |more|
    ensures Progress(contacts, now, batchSize, batch + 1, failing, gone + more)
    ensures |ids| < batchSize ==> ExpiredIds(contacts, now) - (gone + more) <= failing
  {
    ListedAreLeft(contacts, now, batchSize, gone, ids);
    BatchIsOldest(contacts, now, batchSize, failing, gone, ids);
    BatchSize(ids, failing, ExpiredIds(contacts, now));
    assert gone !! more;
  }

  lemma ListedAreLeft(contacts: map<string, Recipient>, now: int, batchSize: nat, gone: set<string>, ids: seq<string>)
    requires OldestExpired(Deleted(contacts, gone), now, batchSize, ids)
    ensures Members(ids) <= ExpiredIds(contacts, now) - gone
    ensures |ids| < batchSize ==> ExpiredIds(contacts, now) - gone <= Members(ids)
  {
    assert ExpiredIds(Deleted(contacts, gone), now) == ExpiredIds(contacts, now) - gone;
  }

  lemma BatchSize(ids: seq<string>, failing: set<string>, expired: set<string>)
    requires forall i, j | 0 <= i < j < |ids| :: ids[i] != ids[j]
    requires Members(ids) <= expired
    ensures |ids| - |failing * expired| <= |Members(ids) - failing| <= |ids|
  {
    MembersCount(ids);
    SubsetCount(Members(ids) * failing, failing * expired);
    assert Members(ids) == (Members(ids) - failing) + (Members(ids) * failing);
  }

  lemma BatchIsOldest(contacts: map<string, Recipient>, now: int, batchSize: nat,
                      failing: set<string>, gone: set<string>, ids: seq<string>)
    requires OldestFirst(contacts, now, failing, gone)
    requires OldestExpired(Deleted(contacts, gone), now, batchSize, ids)
    ensures OldestFirst(contacts, now, failing, gone + (Members(ids) - failing))
  {
    ListedAreLeft(contacts, now, batchSize, gone, ids);
    var left := Deleted(contacts, gone);
    forall g, x | g in ids && x in ExpiredIds(contacts, now) - gone && x !in ids
      ensures Deadline(contacts, g) <= Deadline(contacts, x)
    {
      assert x in ExpiredIds(left, now);
      var i :| 0 <= i < |ids| && ids[i] == g;
      assert Deadline(left, ids[i]) <= Deadline(left, x);
    }
  }

  /** A whole batch of failing recipients has older deadlines than any that could be deleted. */
  ghost predicate Blocked(contacts: map<string, Recipient>, now: int, batchSize: nat, failing: set<string>) {
    |Foremost(contacts, now, failing)| >= batchSize
  }

  ghost function Foremost(contacts: map<string, Recipient>, now: int, failing: set<string>): set<string> {
    set s | s in failing * ExpiredIds(contacts, now)
            && forall x | x in ExpiredIds(contacts, now) - failing :: Deadline(contacts, s) < Deadline(contacts, x)
  }

  ghost predicate DistinctDeadlines(contacts: map<string, Recipient>, now: int) {
    forall a, b | a in ExpiredIds(contacts, now) && b in ExpiredIds(contacts, now) && a != b ::
      Deadline(contacts, a) != Deadline(contacts, b)
  }

  /** No batch can delete anything: it is blocked, or there is nothing that could be deleted. */
  ghost predicate Stuck(contacts: map<string, Recipient>, now: int, batchSize: nat, failing: set<string>) {
    Blocked(contacts, now, batchSize, failing) || ExpiredIds(contacts, now) <= failing
  }

  /** A batch lists only failing recipients, and those behind them wait for ever, exactly
      then; only when deadlines coincide may the listing be unlucky without being blocked. */
  lemma BlockedBatch(contacts: map<string, Recipient>, now: int, batchSize: nat, failing: set<string>, ids: seq<string>)
    requires OldestExpired(contacts, now, batchSize, ids)
    ensures Stuck(contacts, now, batchSize, failing) ==> Members(ids) <= failing
    ensures DistinctDeadlines(contacts, now) && Members(ids) <= failing ==> Stuck(contacts, now, batchSize, failing)
  {
    var foremost := Foremost(contacts, now, failing);
    MembersCount(ids);
    forall i | 0 <= i < |ids| && ids[i] !in failing
      ensures |foremost| < batchSize
    {
      assert foremost <= Members(ids) - {ids[i]};
      SubsetCount(foremost, Members(ids) - {ids[i]});
    }
    if DistinctDeadlines(contacts, now) && Members(ids) <= failing && !(ExpiredIds(contacts, now) <= failing) {
      ListedAreForemost(contacts, now, batchSize, failing, ids);
      SubsetCount(Members(ids), foremost);
    }
  }

  /** A sweep of at least one batch deletes nothing exactly when it is stuck. */
  ghost predicate NothingGoneWhenStuck(contacts: map<string, Recipient>, now: int, batchSize: nat, batches: nat,
                                       failing: set<string>, gone: set<string>)
  {
    && (Stuck(contacts, now, batchSize, failing) ==> gone == {})
    && (DistinctDeadlines(contacts, now) && batches > 0 && gone == {} ==> Stuck(contacts, now, batchSize, failing))
  }

  lemma StuckOrNot(contacts: map<string, Recipient>, now: int, batchSize: nat, batch: nat,
                   failing: set<string>, gone: set<string>, ids: seq<string>)
    requires OldestExpired(Deleted(contacts, gone), now, batchSize, ids)
    requires NothingGoneWhenStuck(contacts, now, batchSize, batch, failing, gone)
    ensures NothingGoneWhenStuck(contacts, now, batchSize, batch + 1, failing, gone + (Members(ids) - failing))
  {
    if gone == {} {
      assert Deleted(contacts, gone) == contacts;
      BlockedBatch(contacts, now, batchSize, failing, ids);
      assert gone + (Members(ids) - failing) == {} <==> Members(ids) <= failing;
    }
  }

  /** What a sweep of so many batches promises of the recipients that are gone. */
  ghost predicate Swept(contacts: map<string, Recipient>, now: int, batchSize: nat, batches: nat,
                        failing: set<string>, gone: set<string>)
  {
    && Progress(contacts, now, batchSize, batches, failing, gone)
    && NothingGoneWhenStuck(contacts, now, batchSize, batches, failing, gone)
  }

  lemma NothingSwept(contacts: map<string, Recipient>, now: int, batchSize: nat, failing: set<string>)
    ensures Swept(contacts, now, batchSize, 0, failing, {})
    ensures Deleted(contacts, {}) == contacts
  {
  }

  /** One batch more; and a short or empty one is as good as all that were allowed. */
  lemma BatchDone(contacts: map<string, Recipient>, now: int, batchSize: nat, batch: nat, maxBatches: nat,
                  failing: set<string>, gone: set<string>, ids: seq<string>)
    requires batchSize > 0 && batch < maxBatches && Swept(contacts, now, batchSize, batch, failing, gone)
    requires OldestExpired(Deleted(contacts, gone), now, batchSize, ids)
    ensures var more := Members(ids) - failing;
            && |gone + more| == |gone| + |more|
            && Swept(contacts, now, batchSize, batch + 1, failing, gone + more)
            && (|ids| < batchSize ==> Swept(contacts, now, batchSize, maxBatches, failing, gone + more))
            && (ids == [] ==> Swept(contacts, now, batchSize, maxBatches, failing, gone))
  {
    var more := Members(ids) - failing;
    StuckOrNot(contacts, now, batchSize, batch, failing, gone, ids);
    BatchProgress(contacts, now, batchSize, batch, failing, gone, ids, more);
    if |ids| < batchSize {
      EnoughBatches(contacts, now, batchSize, batch + 1, maxBatches, failing, gone + more);
    }
    if ids == [] {
      assert gone + more == gone;
    }
  }

  lemma ListedAreForemost(contacts: map<string, Recipient>, now: int, batchSize: nat, failing: set<string>, ids: seq<string>)
    requires OldestExpired(contacts, now, batchSize, ids) && DistinctDeadlines(contacts, now)
    requires Members(ids) <= failing && !(ExpiredIds(contacts, now) <= failing)
    ensures Members(ids) <= Foremost(contacts, now, failing) && |ids| == batchSize
  {
    var x :| x in ExpiredIds(contacts, now) && x !in failing;
    assert x !in Members(ids);
    forall i, y | 0 <= i < |ids| && y in ExpiredIds(contacts, now) - failing
      ensures Deadline(contacts, ids[i]) < Deadline(contacts, y)
    {
      assert y !in Members(ids);
    }
  }

  lemma EnoughBatches(contacts: map<string, Recipient>, now: int, batchSize: nat, batch: nat, maxBatches: nat,
                      failing: set<string>, gone: set<string>)
    requires Progress(contacts, now, batchSize, batch, failing, gone) && batch <= maxBatches
    requires ExpiredIds(contacts, now) - gone <= failing
    ensures Progress(contacts, now, batchSize, maxBatches, failing, gone)
  {
    TimesGrows(batch, maxBatches, batchSize);
  }

  /** With no failing delete a sweep removes exactly as many as are expired, up to its
      allowance, and none that is left has an older deadline than one that went. */
  lemma SweepIsExact(contacts: map<string, Recipient>, now: int, batchSize: nat, maxBatches: nat, gone: set<string>)
    requires Progress(contacts, now, batchSize, maxBatches, {}, gone)
    ensures var expired := ExpiredIds(contacts, now);
            && |gone| == (if |expired| <= maxBatches * batchSize then |expired| else maxBatches * batchSize)
            && (forall g | g in gone :: g in contacts && contacts[g].deleteAfter.Some? && contacts[g].deleteAfter.value <= now)
            && forall g, x | g in gone && x in expired - gone ::
                 contacts[g].deleteAfter.value <= contacts[x].deleteAfter.value
  {
    var expired := ExpiredIds(contacts, now);
    forall g, x | g in gone && x in expired - gone
      ensures contacts[g].deleteAfter.value <= contacts[x].deleteAfter.value
    {
      assert Deadline(contacts, g) <= Deadline(contacts, x);
    }
    assert {} * expired == {};
    TimesIsProduct(maxBatches, batchSize);
    SubsetCount(gone, expired);
    if expired - gone <= {} {
      forall x | x in expired ensures x in gone {
        assert x in gone || x in expired - gone;
      }
      assert gone == expired;
    }
  }

  /** The delivery history survives a sweep: the same rows, none of them pointing to a
      deleted recipient, the others unchanged. */
  lemma HistorySurvives(deliveries: map<string, Option<string>>, gone: set<string>)
    ensures Unlinked(deliveries, gone).Keys == deliveries.Keys && |Unlinked(deliveries, gone)| == |deliveries|
    ensures forall d | d in deliveries :: Unlinked(deliveries, gone)[d].Some? ==>
              Unlinked(deliveries, gone)[d] == deliveries[d] && deliveries[d].value !in gone
    ensures forall d | d in deliveries && (deliveries[d].None? || deliveries[d].value !in gone) ::
              Unlinked(deliveries, gone)[d] == deliveries[d]
  {
    var unlinked := Unlinked(deliveries, gone);
    assert unlinked.Keys == deliveries.Keys;
    assert |unlinked| == |unlinked.Keys| && |deliveries| == |deliveries.Keys|;
  }
}
