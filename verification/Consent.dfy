/**
 The consent ledger and its projection onto the contact's status.

 Every decision is appended; the status follows the latest one, by the time it
 occurred and, between equal times, by the time it was recorded. The projection
 compares only event types, which is enough. An event that brings no time of its
 own, and no caller sets one, is stamped on arrival. So replays and late arrivals
 leave the outcome alone only when the undated decisions and those at the latest
 time all agree.
 */
module Consent {
  import opened Audience

  datatype Decision = Granted | Revoked

  /** A decision on its way to the ledger. An empty idempotency key is stored as NULL and
      collides with nothing; a missing time is filled in on arrival. */
  datatype Event = Event(contact: string, decision: Decision, occurredAt: Option<int>, key: Option<string>)

  /** A ledger row. The time of recording is its place in the ledger. */
  datatype Entry = Entry(contact: string, decision: Decision, occurredAt: int, key: Option<string>)

  datatype Ledger = Ledger(events: seq<Entry>, status: map<string, ContactStatus>)

  datatype Applied = Appended | Duplicate | UnknownContact

  function Projection(d: Decision): ContactStatus {
    if d == Revoked then OptedOut else Active
  }

  /** COALESCE(occurred_at, now). */
  function Stored(e: Event, now: int): Entry {
    Entry(e.contact, e.decision, if e.occurredAt.Some? then e.occurredAt.value else now, e.key)
  }

  /** The latest event of a contact: highest time, later recorded first among equals. */
  function Latest(events: seq<Entry>, contact: string): Option<Entry> {
    if events == [] then None
    else
      var front, last := events[..|events| - 1], events[|events| - 1];
      match Latest(front, contact)
      case None => if last.contact == contact then Some(last) else None
      case Some(e) => if last.contact == contact && last.occurredAt >= e.occurredAt then Some(last) else Some(e)
  }

  predicate Recorded(events: seq<Entry>, key: Option<string>) {
    key.Some? && exists i | 0 <= i < |events| :: events[i].key == key
  }

  /** Append unless the key is taken or the contact is gone, then project if the latest event has the same type. */
  function Apply(l: Ledger, e: Event, now: int): (Ledger, Applied) {
    if Recorded(l.events, e.key) then (l, Duplicate)
    else if e.contact !in l.status then (l, UnknownContact)
    else
      var events := l.events + [Stored(e, now)];
      var latest := Latest(events, e.contact);
      if latest.Some? && latest.value.decision == e.decision
      then (Ledger(events, l.status[e.contact := Projection(e.decision)]), Appended)
      else (Ledger(events, l.status), Appended)
  }

  class ConsentRepository {
    var events: seq<Entry>
    var status: map<string, ContactStatus>

    ghost function State(): Ledger
      reads this
    {
      Ledger(events, status)
    }

    constructor (status: map<string, ContactStatus>)
      ensures State() == Ledger([], status)
    {
      this.events, this.status := [], status;
    }

    /** One transaction: the insert with its conflict rule, then the guarded update. */
    method ApplyEvent(e: Event, now: int) returns (outcome: Applied)
      modifies this
      ensures (State(), outcome) == Apply(old(State()), e, now)
      ensures Projected(old(State())) ==> Projected(State())
    {
      ProjectionKept(State(), e, now);
      if e.key.Some? {
        var i := 0;
        while i < |events|
          invariant 0 <= i <= |events|
          invariant forall j | 0 <= j < i :: events[j].key != e.key
        {
          if events[i].key == e.key {
            return Duplicate;
          }
          i := i + 1;
        }
      }
      if e.contact !in status {
        return UnknownContact;
      }
      var occurredAt := now;
      if e.occurredAt.Some? {
        occurredAt := e.occurredAt.value;
      }
      events := events + [Entry(e.contact, e.decision, occurredAt, e.key)];
      var latest := LatestForContact(e.contact);
      if latest.Some? && latest.value.decision == e.decision {
        status := status[e.contact := if e.decision == Revoked then OptedOut else Active];
      }
      return Appended;
    }

    method LatestForContact(contact: string) returns (latest: Option<Entry>)
      ensures latest == Latest(events, contact)
    {
      latest := None;
      for i := 0 to |events|
        invariant latest == Latest(events[..i], contact)
      {
        assert events[..i + 1][..i] == events[..i];
        if events[i].contact == contact && (latest == None || events[i].occurredAt >= latest.value.occurredAt) {
          latest := Some(events[i]);
        }
      }
      assert events[..|events|] == events;
    }
  }

  // ---- The projection ----

  ghost predicate ProjectedFor(l: Ledger, contact: string) {
    contact in l.status && Latest(l.events, contact).Some? ==>
      l.status[contact] == Projection(Latest(l.events, contact).value.decision)
  }

  /** Every contact with a ledger entry has the status its latest entry calls for. */
  ghost predicate Projected(l: Ledger) {
    forall contact :: ProjectedFor(l, contact)
  }

  lemma LatestSnoc(events: seq<Entry>, e: Entry, contact: string)
    ensures Latest(events + [e], contact)
         == match Latest(events, contact)
            case None => if e.contact == contact then Some(e) else None
            case Some(x) => if e.contact == contact && e.occurredAt >= x.occurredAt then Some(e) else Some(x)
  {
    assert (events + [e])[..|events|] == events;
  }

  /** The guard compares event types only, yet the status always follows the latest event. */
  lemma ProjectionKept(l: Ledger, e: Event, now: int)
    ensures Projected(l) ==> Projected(Apply(l, e, now).0)
  {
    if Projected(l) {
      var x := Stored(e, now);
      forall contact
        ensures ProjectedFor(Apply(l, e, now).0, contact)
      {
        assert ProjectedFor(l, contact);
        LatestSnoc(l.events, x, contact);
        LatestSnoc(l.events, x, e.contact);
        LatestIsOwn(l.events + [x], contact);
      }
    }
  }

  lemma LatestIsOwn(events: seq<Entry>, contact: string)
    ensures Latest(events, contact).Some? ==> Latest(events, contact).value.contact == contact
  {
    if events != [] {
      LatestIsOwn(events[..|events| - 1], contact);
    }
  }

  /** The answer tells what happened: appended exactly when the ledger is one row longer, a
      duplicate exactly when the key was there, whoever the contact; and keyless events are
      never duplicates. */
  lemma OutcomeTells(l: Ledger, e: Event, now: int)
    ensures var (after, outcome) := Apply(l, e, now);
            && (outcome.Appended? <==> |after.events| == |l.events| + 1)
            && (outcome.Appended? ==> after.events[..|l.events|] == l.events && Tells(after.events[|l.events|], e))
            && (outcome.Appended? && e.occurredAt.None? ==> after.events[|l.events|].occurredAt == now)
            && (!outcome.Appended? ==> after == l)
            && (outcome.Duplicate? <==> e.key.Some? && exists x :: x in l.events && x.key == e.key)
            && (outcome.UnknownContact? ==> e.contact !in l.status)
            && (e.key.None? && e.contact in l.status ==> outcome.Appended?)
  {
    if x :| x in l.events && x.key == e.key {
      var i :| 0 <= i < |l.events| && l.events[i] == x;
    }
  }

  // ---- Arrivals in any order ----

  datatype Arrival = Arrival(event: Event, at: int)

  function ApplyAll(l: Ledger, arrivals: seq<Arrival>): Ledger {
    if arrivals == [] then l
    else
      var last := arrivals[|arrivals| - 1];
      Apply(ApplyAll(l, arrivals[..|arrivals| - 1]), last.event, last.at).0
  }

  /** One event per idempotency key, and events only for contacts that exist. */
  ghost predicate WellFormed(s: set<Event>, status: map<string, ContactStatus>) {
    && (forall e, f | e in s && f in s && e.key.Some? && e.key == f.key :: e == f)
    && (forall e | e in s :: e.contact in status)
  }

  ghost predicate Arrives(e: Event, arrivals: seq<Arrival>) {
    exists i | 0 <= i < |arrivals| :: arrivals[i].event == e
  }

  /** The events of s arrive in some order, at any times, some of them repeatedly, while
      the clock does not run backwards. */
  ghost predicate Delivers(arrivals: seq<Arrival>, s: set<Event>) {
    && (forall e :: e in s <==> Arrives(e, arrivals))
    && (forall i, j | 0 <= i < j < |arrivals| :: arrivals[i].at <= arrivals[j].at)
  }

  /** The ledger row tells of the event. */
  ghost predicate Tells(x: Entry, e: Event) {
    && x.contact == e.contact && x.decision == e.decision && x.key == e.key
    && (e.occurredAt.Some? ==> x.occurredAt == e.occurredAt.value)
  }

  /** Some event of the ledger tells of e. */
  ghost predicate Told(events: seq<Entry>, e: Event) {
    exists i | 0 <= i < |events| :: Tells(events[i], e)
  }

  /** The ledger row is what one of the arrivals is stored as. */
  ghost predicate Stamped(x: Entry, arrivals: seq<Arrival>) {
    exists i | 0 <= i < |arrivals| :: x == Stored(arrivals[i].event, arrivals[i].at)
  }

  ghost predicate KeyedOnce(events: seq<Entry>) {
    forall i, j | 0 <= i < j < |events| && events[i].key.Some? :: events[i].key != events[j].key
  }

  /** However often and in whatever order events arrive, the ledger tells of exactly those
      events, and of each keyed one once. */
  lemma LedgerHoldsArrivals(status: map<string, ContactStatus>, arrivals: seq<Arrival>, s: set<Event>)
    requires WellFormed(s, status) && Delivers(arrivals, s)
    ensures var l := ApplyAll(Ledger([], status), arrivals);
            && l.status.Keys == status.Keys
            && (forall x | x in l.events :: Stamped(x, arrivals))
            && (forall e | e in s :: Told(l.events, e))
            && KeyedOnce(l.events)
            && Projected(l)
  {
    RowsAreStamps(status, arrivals);
    AllInSet(arrivals, s);
    forall e | e in s ensures Told(ApplyAll(Ledger([], status), arrivals).events, e) {
      assert Arrives(e, arrivals);
      var i :| 0 <= i < |arrivals| && arrivals[i].event == e;
      ArrivalIsTold(status, arrivals, s, i);
    }
  }

  lemma {:induction false} RowsAreStamps(status: map<string, ContactStatus>, arrivals: seq<Arrival>)
    ensures var l := ApplyAll(Ledger([], status), arrivals);
            && l.status.Keys == status.Keys
            && (forall x | x in l.events :: Stamped(x, arrivals))
            && KeyedOnce(l.events)
            && Projected(l)
  {
    if arrivals != [] {
      var front, last := arrivals[..|arrivals| - 1], arrivals[|arrivals| - 1];
      RowsAreStamps(status, front);
      var l := ApplyAll(Ledger([], status), front);
      ProjectionKept(l, last.event, last.at);
      forall x | x in ApplyAll(Ledger([], status), arrivals).events ensures Stamped(x, arrivals) {
        if x in l.events {
          StillStamped(x, arrivals);
        } else {
          assert arrivals[|front|] == last;
        }
      }
    }
  }

  lemma StillStamped(x: Entry, arrivals: seq<Arrival>)
    requires arrivals != [] && Stamped(x, arrivals[..|arrivals| - 1])
    ensures Stamped(x, arrivals)
  {
    var front := arrivals[..|arrivals| - 1];
    var i :| 0 <= i < |front| && x == Stored(front[i].event, front[i].at);
    assert arrivals[i] == front[i];
  }

  lemma {:induction false} ArrivalIsTold(status: map<string, ContactStatus>, arrivals: seq<Arrival>, s: set<Event>, i: nat)
    requires WellFormed(s, status) && i < |arrivals| && forall j | 0 <= j < |arrivals| :: arrivals[j].event in s
    ensures Told(ApplyAll(Ledger([], status), arrivals).events, arrivals[i].event)
  {
    var front, last := arrivals[..|arrivals| - 1], arrivals[|arrivals| - 1];
    var l := ApplyAll(Ledger([], status), front);
    var l' := Apply(l, last.event, last.at).0;
    RowsAreStamps(status, front);
    if i < |front| {
      ArrivalIsTold(status, front, s, i);
      var k :| 0 <= k < |l.events| && Tells(l.events[k], front[i].event);
      assert l'.events[k] == l.events[k];
    } else if Recorded(l.events, last.event.key) {
      var k :| 0 <= k < |l.events| && l.events[k].key == last.event.key;
      SameKeySameEvent(front, s, last.event, l.events[k]);
      assert l'.events[k] == l.events[k];
    } else {
      assert Tells(l'.events[|l.events|], last.event);
    }
  }

  /** A row whose key is that of an event of s tells of that event. */
  lemma SameKeySameEvent(arrivals: seq<Arrival>, s: set<Event>, e: Event, x: Entry)
    requires e in s && forall f, g | f in s && g in s && f.key.Some? && f.key == g.key :: f == g
    requires forall j | 0 <= j < |arrivals| :: arrivals[j].event in s
    requires Stamped(x, arrivals) && x.key == e.key && e.key.Some?
    ensures Tells(x, e) && Arrives(e, arrivals)
  {
    var j :| 0 <= j < |arrivals| && x == Stored(arrivals[j].event, arrivals[j].at);
    assert arrivals[j].event == e;
  }

  /** An event that can have the last word: one without a time of its own, or one at the
      contact's latest time. */
  ghost predicate Decisive(s: set<Event>, e: Event) {
    && e in s
    && (e.occurredAt.None?
        || forall f | f in s && f.contact == e.contact && f.occurredAt.Some? :: f.occurredAt.value <= e.occurredAt.value)
  }

  ghost predicate Unanimous(s: set<Event>, contact: string) {
    forall e, f | Decisive(s, e) && Decisive(s, f) && e.contact == f.contact == contact :: e.decision == f.decision
  }

  lemma {:induction false} LatestIsAtLatest(events: seq<Entry>, contact: string)
    ensures Latest(events, contact) == None <==> forall e | e in events :: e.contact != contact
    ensures Latest(events, contact).Some? ==>
              && Latest(events, contact).value in events
              && Latest(events, contact).value.contact == contact
              && forall f | f in events && f.contact == contact :: f.occurredAt <= Latest(events, contact).value.occurredAt
  {
    if events != [] {
      var front, last := events[..|events| - 1], events[|events| - 1];
      LatestIsAtLatest(front, contact);
      assert forall e :: e in events <==> e in front || e == last;
    }
  }

  /** All deliveries of s leave the contact with one status. */
  ghost predicate Converges(s: set<Event>, status: map<string, ContactStatus>, contact: string) {
    forall a, b | Delivers(a, s) && Delivers(b, s) ::
      FinalStatus(status, a, contact) == FinalStatus(status, b, contact)
  }

  ghost function FinalStatus(status: map<string, ContactStatus>, arrivals: seq<Arrival>, contact: string): Option<ContactStatus> {
    var l := ApplyAll(Ledger([], status), arrivals);
    if contact in l.status then Some(l.status[contact]) else None
  }

  /** The final status is the projection of a decisive event, or the status the contact
      began with when it has no events. */
  lemma FinalStatusIsDecisive(s: set<Event>, status: map<string, ContactStatus>, arrivals: seq<Arrival>, contact: string)
    requires WellFormed(s, status) && Delivers(arrivals, s) && contact in status
    ensures if exists e :: e in s && e.contact == contact
            then exists e :: Decisive(s, e) && e.contact == contact && FinalStatus(status, arrivals, contact) == Some(Projection(e.decision))
            else FinalStatus(status, arrivals, contact) == Some(status[contact])
  {
    LedgerHoldsArrivals(status, arrivals, s);
    var l := ApplyAll(Ledger([], status), arrivals);
    LatestIsAtLatest(l.events, contact);
    assert ProjectedFor(l, contact);
    if e :| e in s && e.contact == contact {
      assert Told(l.events, e);
      var d := LatestIsDecisive(l.events, arrivals, s, contact);
      assert FinalStatus(status, arrivals, contact) == Some(Projection(d.decision));
    } else {
      AllInSet(arrivals, s);
      UntouchedStatus(status, arrivals, contact);
    }
  }

  /** The latest row is the stamp of a decisive event. */
  lemma LatestIsDecisive(events: seq<Entry>, arrivals: seq<Arrival>, s: set<Event>, contact: string) returns (d: Event)
    requires Delivers(arrivals, s) && Latest(events, contact).Some?
    requires forall x | x in events :: Stamped(x, arrivals)
    requires forall e | e in s :: Told(events, e)
    ensures Decisive(s, d) && d.contact == contact && d.decision == Latest(events, contact).value.decision
  {
    LatestIsAtLatest(events, contact);
    var x := Latest(events, contact).value;
    assert Stamped(x, arrivals);
    var i :| 0 <= i < |arrivals| && x == Stored(arrivals[i].event, arrivals[i].at);
    d := arrivals[i].event;
    AllInSet(arrivals, s);
    forall f | f in s && f.contact == contact && f.occurredAt.Some? && d.occurredAt.Some?
      ensures f.occurredAt.value <= d.occurredAt.value
    {
      assert Told(events, f);
      var k :| 0 <= k < |events| && Tells(events[k], f);
      assert events[k] in events;
    }
  }

  lemma AllInSet(arrivals: seq<Arrival>, s: set<Event>)
    requires Delivers(arrivals, s)
    ensures forall i | 0 <= i < |arrivals| :: arrivals[i].event in s
  {
    forall i | 0 <= i < |arrivals| ensures arrivals[i].event in s {
      assert Arrives(arrivals[i].event, arrivals);
    }
  }

  lemma {:induction false} UntouchedStatus(status: map<string, ContactStatus>, arrivals: seq<Arrival>, contact: string)
    requires forall i | 0 <= i < |arrivals| :: arrivals[i].event.contact != contact
    ensures FinalStatus(status, arrivals, contact) == if contact in status then Some(status[contact]) else None
  {
    if arrivals != [] {
      UntouchedStatus(status, arrivals[..|arrivals| - 1], contact);
    }
  }

  /** Order, repetition and timing of the arrivals are harmless exactly when the contact's
      undated decisions and those at its latest time all agree. Distinct times are enough if
      every event brings its own; one undated event with a rival decision breaks it. */
  lemma ConvergesExactlyWhen(s: set<Event>, status: map<string, ContactStatus>, contact: string)
    requires WellFormed(s, status) && contact in status
    ensures Converges(s, status, contact) <==> Unanimous(s, contact)
  {
    if Unanimous(s, contact) {
      forall a, b | Delivers(a, s) && Delivers(b, s)
        ensures FinalStatus(status, a, contact) == FinalStatus(status, b, contact)
      {
        FinalStatusIsDecisive(s, status, a, contact);
        FinalStatusIsDecisive(s, status, b, contact);
      }
    } else {
      var e, f :| Decisive(s, e) && Decisive(s, f) && e.contact == f.contact == contact && e.decision != f.decision;
      var a := LastArrival(s, status, e);
      var b := LastArrival(s, status, f);
      assert FinalStatus(status, a, contact) != FinalStatus(status, b, contact);
    }
  }

  /** A delivery in which the decisive event e arrives last and decides: an undated one late
      enough to be stamped after all others, a dated one together with all others at its time. */
  lemma LastArrival(s: set<Event>, status: map<string, ContactStatus>, e: Event) returns (arrivals: seq<Arrival>)
    requires WellFormed(s, status) && Decisive(s, e)
    ensures Delivers(arrivals, s)
    ensures FinalStatus(status, arrivals, e.contact) == Some(Projection(e.decision))
  {
    var others := Listing(s - {e}, if e.occurredAt.Some? then e.occurredAt.value else 0);
    RowsAreStamps(status, others);
    var l := ApplyAll(Ledger([], status), others);
    LatestIsAtLatest(l.events, e.contact);
    var latest := Latest(l.events, e.contact);
    var at := if e.occurredAt.Some? then e.occurredAt.value
              else if latest.Some? && latest.value.occurredAt > 0 then latest.value.occurredAt else 0;
    arrivals := others + [Arrival(e, at)];
    assert arrivals[..|others|] == others;
    AllInSet(others, s - {e});
    if latest.Some? {
      assert Stamped(latest.value, others);
    }
    if Recorded(l.events, e.key) {
      var k :| 0 <= k < |l.events| && l.events[k].key == e.key;
      SameKeySameEvent(others, s, e, l.events[k]);
    }
    LatestSnoc(l.events, Stored(e, at), e.contact);
    LastDelivers(others, s, e, at);
  }

  lemma LastDelivers(others: seq<Arrival>, s: set<Event>, e: Event, at: int)
    requires e in s && Delivers(others, s - {e}) && forall i | 0 <= i < |others| :: others[i].at <= at
    ensures Delivers(others + [Arrival(e, at)], s)
  {
    var arrivals := others + [Arrival(e, at)];
    AllInSet(others, s - {e});
    assert arrivals[|others|].event == e;
    forall f ensures f in s <==> Arrives(f, arrivals) {
      if f in s && f != e {
        assert Arrives(f, others);
        var i :| 0 <= i < |others| && others[i].event == f;
        assert arrivals[i].event == f;
      }
      if Arrives(f, arrivals) {
        var i :| 0 <= i < |arrivals| && arrivals[i].event == f;
        assert i < |others| ==> others[i].event in s - {e};
      }
    }
  }

  /** All of s, once each, at one instant. */
  lemma {:induction false} Listing(s: set<Event>, at: int) returns (arrivals: seq<Arrival>)
    ensures Delivers(arrivals, s) && forall i | 0 <= i < |arrivals| :: arrivals[i].at == at
  {
    arrivals := [];
    if s != {} {
      var e :| e in s;
      var rest := Listing(s - {e}, at);
      LastDelivers(rest, s, e, at);
      arrivals := rest + [Arrival(e, at)];
    }
  }

  // ---- Undated events, which are all that the callers send ----

  /** A new event without a time of its own decides, whatever it overtook on the way. */
  lemma UndatedEventDecides(l: Ledger, e: Event, now: int)
    requires e.occurredAt.None? && e.contact in l.status && !Recorded(l.events, e.key)
    requires Latest(l.events, e.contact).Some? ==> Latest(l.events, e.contact).value.occurredAt <= now
    ensures Apply(l, e, now).0.status == l.status[e.contact := Projection(e.decision)]
  {
    LatestSnoc(l.events, Stored(e, now), e.contact);
  }

  /** The delayed webhook: a START sent before a STOP but processed after it makes the
      contact active again. */
  lemma DelayedStartResurrects(contact: string, status: map<string, ContactStatus>, now: int, later: int)
    requires contact in status && now <= later
    ensures var start, stop := Event(contact, Granted, None, Some("1")), Event(contact, Revoked, None, Some("2"));
            && FinalStatus(status, [Arrival(start, now), Arrival(stop, later)], contact) == Some(OptedOut)
            && FinalStatus(status, [Arrival(stop, now), Arrival(start, later)], contact) == Some(Active)
  {
    var start, stop := Event(contact, Granted, None, Some("1")), Event(contact, Revoked, None, Some("2"));
    TwoArrivals(status, start, stop, now, later);
    TwoArrivals(status, stop, start, now, later);
  }

  lemma TwoArrivals(status: map<string, ContactStatus>, e: Event, f: Event, now: int, later: int)
    requires e.contact == f.contact && e.contact in status && now <= later
    requires e.occurredAt.None? && f.occurredAt.None? && e.key != f.key
    ensures FinalStatus(status, [Arrival(e, now), Arrival(f, later)], e.contact) == Some(Projection(f.decision))
  {
    var l := ApplyAll(Ledger([], status), [Arrival(e, now)]);
    assert [] + [Arrival(e, now)] == [Arrival(e, now)];
    ApplyAllSnoc(Ledger([], status), [], Arrival(e, now));
    assert l.events == [Stored(e, now)];
    assert [Arrival(e, now)] + [Arrival(f, later)] == [Arrival(e, now), Arrival(f, later)];
    ApplyAllSnoc(Ledger([], status), [Arrival(e, now)], Arrival(f, later));
    RowsAreStamps(status, [Arrival(e, now)]);
    UndatedEventDecides(l, f, later);
  }

  lemma ApplyAllSnoc(l: Ledger, arrivals: seq<Arrival>, last: Arrival)
    ensures ApplyAll(l, arrivals + [last]) == Apply(ApplyAll(l, arrivals), last.event, last.at).0
  {
    assert (arrivals + [last])[..|arrivals|] == arrivals;
  }
}
