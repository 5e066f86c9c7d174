/**
 Opt-outs across components: consent events, registrations, erasures, deletions and
 dispatches in any order. Only a grant can make a contact active again, so a
 dispatch never addresses a contact whose latest decision is a revocation. Erasure
 is followed both as a row and as the address the row had.
 */
module OptOut {
  import opened Audience
  import opened FanOut
  import opened Consent
  import E = Erasure

  /** The tenant's contact rows by ID, and the consent ledger. */
  datatype System = System(contacts: map<string, Contact>, events: seq<Entry>)

  datatype Step =
    | Record(event: Event, now: int)
    | Register(newId: string, channel: string, routing: string, started: bool)
    | HearFrom(id: string)
    | Anonymize(id: string)
    | HardDelete(id: string)
    | Migrate(from: string, to: string)

  function Statuses(contacts: map<string, Contact>): map<string, ContactStatus> {
    map id | id in contacts :: contacts[id].status
  }

  function WithStatuses(contacts: map<string, Contact>, status: map<string, ContactStatus>): map<string, Contact>
    requires status.Keys == contacts.Keys
  {
    map id | id in contacts :: contacts[id].(status := status[id])
  }

  predicate Registered(contacts: map<string, Contact>, channel: string, routing: string) {
    exists id | id in contacts :: contacts[id].channel == channel && contacts[id].routing == routing
  }

  function WithoutContacts(events: seq<Entry>, ids: set<string>): seq<Entry> {
    if events == [] then []
    else
      var front, last := events[..|events| - 1], events[|events| - 1];
      if last.contact in ids then WithoutContacts(front, ids) else WithoutContacts(front, ids) + [last]
  }

  function At(contacts: map<string, Contact>, channel: string, routing: string): set<string> {
    set id | id in contacts && contacts[id].channel == channel && contacts[id].routing == routing
  }

  /** Registering an address that exists touches nothing but its timestamp; erasing blanks
      the address and suppresses; deleting takes the contact's ledger rows with it. When the
      phone number behind a WhatsApp identifier becomes known, its contact moves to the
      number or, if that is taken, is deleted. */
  function Next(s: System, step: Step): System {
    match step
    case Record(e, now) =>
      var l := Apply(Ledger(s.events, Statuses(s.contacts)), e, now).0;
      System(WithStatuses(s.contacts, l.status), l.events)
    case Register(id, channel, routing, started) =>
      if Registered(s.contacts, channel, routing) || id in s.contacts then s
      else s.(contacts := s.contacts[id := Contact(id, channel, routing, Active, started)])
    case HearFrom(id) =>
      if id in s.contacts then s.(contacts := s.contacts[id := s.contacts[id].(started := true)]) else s
    case Anonymize(id) =>
      if id in s.contacts
      then s.(contacts := s.contacts[id := s.contacts[id].(routing := "redacted-" + id, status := OptedOut)])
      else s
    case HardDelete(id) =>
      System(s.contacts - {id}, WithoutContacts(s.events, {id}))
    case Migrate(from, to) =>
      if from == to then s
      else
        var moved := At(s.contacts, "whatsapp", from);
        if !Registered(s.contacts, "whatsapp", to) then
          s.(contacts := map id | id in s.contacts :: if id in moved then s.contacts[id].(routing := to) else s.contacts[id])
        else System(s.contacts - moved, WithoutContacts(s.events, moved))
  }

  function Run(s: System, steps: seq<Step>): System {
    if steps == [] then s else Next(Run(s, steps[..|steps| - 1]), steps[|steps| - 1])
  }

  /** Rows are stored under their own ID, ledger rows belong to existing contacts, and a
      contact whose latest decision is a revocation is opted out. */
  ghost predicate Suppressed(s: System) {
    && (forall id | id in s.contacts :: s.contacts[id].id == id)
    && (forall e | e in s.events :: e.contact in s.contacts)
    && (forall id | id in s.contacts && RevokedLast(s, id) :: s.contacts[id].status == OptedOut)
  }

  ghost predicate RevokedLast(s: System, id: string) {
    Latest(s.events, id).Some? && Latest(s.events, id).value.decision == Revoked
  }

  lemma {:induction false} LatestWithout(events: seq<Entry>, ids: set<string>, other: string)
    requires other !in ids
    ensures Latest(WithoutContacts(events, ids), other) == Latest(events, other)
  {
    if events != [] {
      var front, last := events[..|events| - 1], events[|events| - 1];
      LatestWithout(front, ids, other);
      LatestSnoc(WithoutContacts(front, ids), last, other);
    }
  }

  lemma {:induction false} WithoutContactsMembers(events: seq<Entry>, ids: set<string>)
    ensures forall e | e in WithoutContacts(events, ids) :: e in events && e.contact !in ids
  {
    if events != [] {
      WithoutContactsMembers(events[..|events| - 1], ids);
    }
  }

  lemma DeletionKeepsSuppression(s: System, ids: set<string>)
    requires Suppressed(s)
    ensures Suppressed(System(s.contacts - ids, WithoutContacts(s.events, ids)))
  {
    forall other | other in s.contacts && other !in ids
      ensures Latest(WithoutContacts(s.events, ids), other) == Latest(s.events, other)
    {
      LatestWithout(s.events, ids, other);
    }
    WithoutContactsMembers(s.events, ids);
  }

  lemma RecordKeepsSuppression(s: System, e: Event, now: int)
    requires Suppressed(s)
    ensures Suppressed(Next(s, Record(e, now)))
  {
    forall id | id in s.contacts && RevokedLast(Next(s, Record(e, now)), id)
      ensures Next(s, Record(e, now)).contacts[id].status == OptedOut
    {
      LatestSnoc(s.events, Stored(e, now), id);
    }
  }

  lemma NextKeepsSuppression(s: System, step: Step)
    requires Suppressed(s)
    ensures Suppressed(Next(s, step))
  {
    match step
    case Record(e, now) => RecordKeepsSuppression(s, e, now);
    case Register(id, channel, routing, started) => LatestIsAtLatest(s.events, id);
    case HearFrom(_) =>
    case Anonymize(_) =>
    case HardDelete(id) => DeletionKeepsSuppression(s, {id});
    case Migrate(from, to) => DeletionKeepsSuppression(s, At(s.contacts, "whatsapp", from));
  }

  lemma {:induction false} RunKeepsSuppression(s: System, steps: seq<Step>)
    requires Suppressed(s)
    ensures Suppressed(Run(s, steps))
  {
    if steps != [] {
      RunKeepsSuppression(s, steps[..|steps| - 1]);
      NextKeepsSuppression(Run(s, steps[..|steps| - 1]), steps[|steps| - 1]);
    }
  }

  /** After any run, no dispatch of any selection, over any listing of the contacts,
      addresses a contact whose latest decision is a revocation. */
  lemma OptOutIsHonoured(s: System, steps: seq<Step>, selection: Selection, w: Workspace, i: nat)
    requires Suppressed(s)
    requires forall c | c in w.contacts :: c.id in Run(s, steps).contacts && Run(s, steps).contacts[c.id] == c
    requires DistinctIds(w.contacts)
    requires i < |Plan(selection, w)| && Plan(selection, w)[i].ContactTask?
    ensures !RevokedLast(Run(s, steps), Plan(selection, w)[i].contactId)
  {
    RunKeepsSuppression(s, steps);
    TargetsAreEligible(selection, w.contacts);
    var targets := Targets(selection, w.contacts);
    assert i < |targets|;
    assert targets[i] in w.contacts && Eligible(selection, targets[i]);
  }

  // ---- Erased contacts ----

  /** The step is a grant that makes the contact active: newly appended, and of the kind
      that the ledger then ends on. */
  predicate Grants(s: System, step: Step, id: string) {
    && step.Record? && step.event.contact == id && id in s.contacts
    && step.event.decision == Granted
    && !Recorded(s.events, step.event.key)
    && Latest(s.events + [Stored(step.event, step.now)], id).value.decision == Granted
  }

  predicate ActiveRow(s: System, id: string) {
    id in s.contacts && s.contacts[id].status == Active
  }

  /** What one step does to a row: only such a grant, or the registration of its ID, makes
      it active. */
  lemma ActivatedExactlyBy(s: System, step: Step, id: string)
    requires !ActiveRow(s, id) && !(step.Register? && step.newId == id)
    ensures ActiveRow(Next(s, step), id) <==> Grants(s, step, id)
  {
    if step.Record? && id in s.contacts {
      RecordActivates(s, step.event, step.now, id);
    }
  }

  lemma RecordActivates(s: System, e: Event, now: int, id: string)
    requires id in s.contacts
    ensures Grants(s, Record(e, now), id) ==> ActiveRow(Next(s, Record(e, now)), id)
    ensures !ActiveRow(s, id) && ActiveRow(Next(s, Record(e, now)), id) ==> Grants(s, Record(e, now), id)
  {
    LatestSnoc(s.events, Stored(e, now), id);
    if e.contact != id {
      OthersKeepStatus(s, e, now, id);
    }
  }

  lemma OthersKeepStatus(s: System, e: Event, now: int, id: string)
    requires id in s.contacts && e.contact != id
    ensures Next(s, Record(e, now)).contacts[id] == s.contacts[id]
  {
  }

  /** The run up to, and without, step i. */
  function Before(s: System, steps: seq<Step>, i: nat): System
    requires i <= |steps|
  {
    Run(s, steps[..i])
  }

  /** IDs come from the database: a registration never reuses one. */
  ghost predicate FreshIds(s: System, steps: seq<Step>, erased: string) {
    forall i | 0 <= i < |steps| && steps[i].Register? ::
      steps[i].newId != erased && steps[i].newId !in Before(s, steps, i).contacts
  }

  /** The row of an erased contact is active again at some point of a run exactly when the
      run contains a grant for it that takes effect there. */
  lemma {:induction false} ErasedRowActiveAgainExactlyWhen(s: System, id: string, steps: seq<Step>)
    requires id in s.contacts && FreshIds(Next(s, Anonymize(id)), steps, id)
    ensures var erased := Next(s, Anonymize(id));
            (exists n :: 0 <= n <= |steps| && ActiveRow(Before(erased, steps, n), id))
            <==> (exists i :: 0 <= i < |steps| && Grants(Before(erased, steps, i), steps[i], id))
  {
    var erased := Next(s, Anonymize(id));
    if n :| 0 <= n <= |steps| && ActiveRow(Before(erased, steps, n), id) {
      assert Before(erased, steps, 0) == erased;
      var i := FirstActive(erased, steps, id, n);
      ActivatedExactlyBy(Before(erased, steps, i), steps[i], id);
    }
    if i :| 0 <= i < |steps| && Grants(Before(erased, steps, i), steps[i], id) {
      RunSnoc(erased, steps, i);
      LatestSnoc(Before(erased, steps, i).events, Stored(steps[i].event, steps[i].now), id);
      assert ActiveRow(Before(erased, steps, i + 1), id);
    }
  }

  lemma RunSnoc(s: System, steps: seq<Step>, i: nat)
    requires i < |steps|
    ensures Before(s, steps, i + 1) == Next(Before(s, steps, i), steps[i])
  {
    assert steps[..i + 1][..i] == steps[..i];
  }

  /** The step at which an inactive row first becomes active. */
  lemma {:induction false} FirstActive(s: System, steps: seq<Step>, id: string, n: nat) returns (i: nat)
    requires n <= |steps| && !ActiveRow(Before(s, steps, 0), id) && ActiveRow(Before(s, steps, n), id)
    ensures i < n && !ActiveRow(Before(s, steps, i), id) && ActiveRow(Next(Before(s, steps, i), steps[i]), id)
  {
    RunSnoc(s, steps, n - 1);
    if ActiveRow(Before(s, steps, n - 1), id) {
      i := FirstActive(s, steps, id, n - 1);
    } else {
      i := n - 1;
    }
  }

  /** The step is the erasure of the recipient row, as far as a contact shows it: address and
      status are those of the erased row, the rest is untouched. */
  lemma AnonymizeIsErasure(s: System, id: string, r: E.Recipient, now: int, deadline: int)
    requires id in s.contacts
    ensures var c, e := Next(s, Anonymize(id)).contacts[id], E.Erased(r, id, now, deadline);
            && c.routing == e.routing && c.status == e.status
            && c.id == s.contacts[id].id && c.channel == s.contacts[id].channel && c.started == s.contacts[id].started
    ensures forall other | other != id && other in s.contacts :: Next(s, Anonymize(id)).contacts[other] == s.contacts[other]
    ensures Next(s, Anonymize(id)).events == s.events && Next(s, Anonymize(id)).contacts.Keys == s.contacts.Keys
  {
    E.ErasureBlanks(r, r, id, now, deadline);
  }

  // ---- What registering, writing in, moving and deleting do ----

  /** A new address gets one active row under a new ID; one that exists is left alone, its
      status included. */
  lemma RegisteringMeans(s: System, id: string, channel: string, routing: string, started: bool)
    requires id !in s.contacts
    ensures var after := Next(s, Register(id, channel, routing, started));
            && after.events == s.events
            && (At(s.contacts, channel, routing) != {} ==> after == s)
            && (At(s.contacts, channel, routing) == {} ==>
                  && id in after.contacts && after.contacts[id] == Contact(id, channel, routing, Active, started)
                  && after.contacts - {id} == s.contacts)
  {
    if At(s.contacts, channel, routing) != {} {
      var other :| other in At(s.contacts, channel, routing);
      assert Registered(s.contacts, channel, routing);
    } else {
      assert forall other | other in s.contacts :: other !in At(s.contacts, channel, routing);
    }
  }

  /** Once a Telegram contact has written, a dispatch may write to it if it is active. */
  lemma WritingInMeans(s: System, id: string, selection: Selection)
    requires id in s.contacts && selection.Matches(s.contacts[id]) && selection.SelectsContacts()
    ensures var after := Next(s, HearFrom(id)); var c := after.contacts[id];
            && (Eligible(selection, c) <==> s.contacts[id].status == Active)
            && c.(started := s.contacts[id].started) == s.contacts[id]
            && after.events == s.events && after.contacts - {id} == s.contacts - {id}
  {
  }

  /** The contact at a WhatsApp identifier moves to its phone number if that is free; if it is
      taken, the contact and its ledger rows are gone and nothing else changes. Nobody is moved
      from a number to itself. */
  lemma MigratingMeans(s: System, from: string, to: string, id: string)
    requires At(s.contacts, "whatsapp", from) == {id}
    ensures Next(s, Migrate(from, from)) == s
    ensures var after := Next(s, Migrate(from, to)); from != to ==>
            && (At(s.contacts, "whatsapp", to) == {} ==>
                  && after.events == s.events && id in after.contacts
                  && after.contacts == s.contacts[id := s.contacts[id].(routing := to)])
            && (At(s.contacts, "whatsapp", to) != {} ==>
                  && after.contacts == s.contacts - {id}
                  && (forall e | e in after.events :: e in s.events && e.contact != id)
                  && (forall other | other != id :: Latest(after.events, other) == Latest(s.events, other)))
  {
    assert id in At(s.contacts, "whatsapp", from);
    assert forall x | x in s.contacts && x != id :: x !in At(s.contacts, "whatsapp", from);
    if from == to {
    } else if At(s.contacts, "whatsapp", to) != {} {
      var other :| other in At(s.contacts, "whatsapp", to);
      assert Registered(s.contacts, "whatsapp", to);
      WithoutContactsMembers(s.events, {id});
      forall x | x != id ensures Latest(WithoutContacts(s.events, {id}), x) == Latest(s.events, x) {
        LatestWithout(s.events, {id}, x);
      }
    } else {
      assert forall other | other in s.contacts :: other !in At(s.contacts, "whatsapp", to);
    }
  }

  /** A deleted contact leaves neither a row nor a decision, and nobody else's change. */
  lemma DeletingMeans(s: System, id: string)
    ensures var after := Next(s, HardDelete(id));
            && after.contacts == s.contacts - {id}
            && Latest(after.events, id) == None
            && (forall other | other != id :: Latest(after.events, other) == Latest(s.events, other))
  {
    WithoutContactsMembers(s.events, {id});
    LatestIsAtLatest(WithoutContacts(s.events, {id}), id);
    forall other | other != id ensures Latest(WithoutContacts(s.events, {id}), other) == Latest(s.events, other) {
      LatestWithout(s.events, {id}, other);
    }
  }

  // ---- Erased addresses ----

  /** The form of the address an erased row is left with. */
  predicate Placeholder(routing: string) {
    |routing| >= 9 && routing[..9] == "redacted-"
  }

  /** Some active contact has this address, so a dispatch may write to it. */
  predicate Sendable(s: System, channel: string, routing: string) {
    exists id | id in s.contacts ::
      s.contacts[id].channel == channel && s.contacts[id].routing == routing && s.contacts[id].status == Active
  }

  /** The unique index on channel and routing value. */
  ghost predicate OneRowPerAddress(s: System) {
    forall a, b | a in s.contacts && b in s.contacts
                  && s.contacts[a].channel == s.contacts[b].channel && s.contacts[a].routing == s.contacts[b].routing :: a == b
  }

  /** The step makes the address sendable: it registers it while it is free, moves an active
      contact onto it while it is free, or grants consent to the contact that has it. */
  predicate Readdresses(s: System, step: Step, channel: string, routing: string) {
    match step
    case Register(newId, c, r, _) => c == channel && r == routing && !Registered(s.contacts, channel, routing)
    case Migrate(from, to) =>
      && channel == "whatsapp" && to == routing && from != to && !Registered(s.contacts, channel, routing)
      && Sendable(s, channel, from)
    case Record(_, _) => exists id | id in At(s.contacts, channel, routing) :: Grants(s, step, id)
    case _ => false
  }

  lemma SendableExactlyBy(s: System, step: Step, channel: string, routing: string)
    requires !Sendable(s, channel, routing) && !Placeholder(routing)
    requires step.Register? ==> step.newId !in s.contacts
    ensures Sendable(Next(s, step), channel, routing) <==> Readdresses(s, step, channel, routing)
  {
    match step
    case Record(e, now) => RecordReaddresses(s, e, now, channel, routing);
    case Register(newId, c, r, started) =>
      if !Registered(s.contacts, c, r) {
        assert Next(s, step).contacts[newId] == Contact(newId, c, r, Active, started);
      }
    case HearFrom(_) =>
    case Anonymize(id) => assert Placeholder("redacted-" + id);
    case HardDelete(_) =>
    case Migrate(from, to) => MigrationReaddresses(s, from, to, channel, routing);
  }

  lemma RecordReaddresses(s: System, e: Event, now: int, channel: string, routing: string)
    requires !Sendable(s, channel, routing)
    ensures Sendable(Next(s, Record(e, now)), channel, routing) <==> Readdresses(s, Record(e, now), channel, routing)
  {
    var step, after := Record(e, now), Next(s, Record(e, now));
    RecordKeepsAddresses(s, e, now);
    forall id | id in At(s.contacts, channel, routing)
      ensures ActiveRow(after, id) <==> Grants(s, step, id)
    {
      ActivatedExactlyBy(s, step, id);
    }
    if id :| id in At(s.contacts, channel, routing) && Grants(s, step, id) {
      assert ActiveRow(after, id);
    }
    if Sendable(after, channel, routing) {
      var id :| id in after.contacts && after.contacts[id].channel == channel && after.contacts[id].routing == routing
                && after.contacts[id].status == Active;
      assert id in At(s.contacts, channel, routing) && ActiveRow(after, id);
    }
  }

  lemma RecordKeepsAddresses(s: System, e: Event, now: int)
    ensures var after := Next(s, Record(e, now)).contacts;
            && after.Keys == s.contacts.Keys
            && forall id | id in after :: after[id] == s.contacts[id].(status := after[id].status)
  {
  }

  lemma MigrationReaddresses(s: System, from: string, to: string, channel: string, routing: string)
    requires !Sendable(s, channel, routing)
    ensures Sendable(Next(s, Migrate(from, to)), channel, routing) <==> Readdresses(s, Migrate(from, to), channel, routing)
  {
    var after := Next(s, Migrate(from, to)).contacts;
    if Readdresses(s, Migrate(from, to), channel, routing) {
      var id :| id in s.contacts && s.contacts[id].channel == channel && s.contacts[id].routing == from && s.contacts[id].status == Active;
      assert id in At(s.contacts, "whatsapp", from);
      assert after[id] == s.contacts[id].(routing := to);
    }
    if Sendable(Next(s, Migrate(from, to)), channel, routing) {
      var id :| id in after && after[id].channel == channel && after[id].routing == routing && after[id].status == Active;
      assert id in s.contacts;
    }
  }

  /** The step at which an address first becomes sendable. */
  lemma {:induction false} FirstSendable(s: System, steps: seq<Step>, channel: string, routing: string, n: nat) returns (i: nat)
    requires n <= |steps| && !Sendable(Before(s, steps, 0), channel, routing) && Sendable(Before(s, steps, n), channel, routing)
    ensures i < n && !Sendable(Before(s, steps, i), channel, routing)
    ensures Sendable(Next(Before(s, steps, i), steps[i]), channel, routing)
  {
    RunSnoc(s, steps, n - 1);
    if Sendable(Before(s, steps, n - 1), channel, routing) {
      i := FirstSendable(s, steps, channel, routing, n - 1);
    } else {
      i := n - 1;
    }
  }

  lemma ErasedAddressIsFree(s: System, id: string)
    requires id in s.contacts && OneRowPerAddress(s) && !Placeholder(s.contacts[id].routing)
    ensures !Registered(Next(s, Anonymize(id)).contacts, s.contacts[id].channel, s.contacts[id].routing)
  {
    assert Placeholder("redacted-" + id);
  }

  /** The address of an erased contact is written to again at some point of a run exactly
      when some step of it registers the free address, moves an active contact onto it, or
      grants consent to whoever has come to have it. */
  lemma ErasedAddressSendableAgainExactlyWhen(s: System, id: string, steps: seq<Step>)
    requires id in s.contacts && OneRowPerAddress(s) && !Placeholder(s.contacts[id].routing)
    requires FreshIds(Next(s, Anonymize(id)), steps, id)
    ensures var erased, c := Next(s, Anonymize(id)), s.contacts[id];
            (exists n :: 0 <= n <= |steps| && Sendable(Before(erased, steps, n), c.channel, c.routing))
            <==> (exists i :: 0 <= i < |steps| && Readdresses(Before(erased, steps, i), steps[i], c.channel, c.routing))
  {
    var erased, c := Next(s, Anonymize(id)), s.contacts[id];
    ErasedAddressIsFree(s, id);
    assert Before(erased, steps, 0) == erased;
    if n :| 0 <= n <= |steps| && Sendable(Before(erased, steps, n), c.channel, c.routing) {
      var i := FirstSendable(erased, steps, c.channel, c.routing, n);
      SendableExactlyBy(Before(erased, steps, i), steps[i], c.channel, c.routing);
    }
    if i :| 0 <= i < |steps| && Readdresses(Before(erased, steps, i), steps[i], c.channel, c.routing) {
      if !Sendable(Before(erased, steps, i), c.channel, c.routing) {
        SendableExactlyBy(Before(erased, steps, i), steps[i], c.channel, c.routing);
        RunSnoc(erased, steps, i);
        assert Sendable(Before(erased, steps, i + 1), c.channel, c.routing);
      }
    }
  }

  /** On a channel or in a run without migrations onto the address that comes to: exactly when
      the run registers it anew. No grant is needed, and none brings it back. */
  lemma RegisteredAnewExactlyWhen(s: System, id: string, steps: seq<Step>)
    requires id in s.contacts && OneRowPerAddress(s) && !Placeholder(s.contacts[id].routing)
    requires FreshIds(Next(s, Anonymize(id)), steps, id)
    requires s.contacts[id].channel != "whatsapp"
             || forall i | 0 <= i < |steps| && steps[i].Migrate? :: steps[i].to != s.contacts[id].routing
    ensures var erased, c := Next(s, Anonymize(id)), s.contacts[id];
            (exists n :: 0 <= n <= |steps| && Sendable(Before(erased, steps, n), c.channel, c.routing))
            <==> (exists i :: 0 <= i < |steps| && RegistersAt(steps[i], c.channel, c.routing))
  {
    var erased, c := Next(s, Anonymize(id)), s.contacts[id];
    ErasedAddressIsFree(s, id);
    if n :| 0 <= n <= |steps| && Sendable(Before(erased, steps, n), c.channel, c.routing) {
      if forall i | 0 <= i < n :: !RegistersAt(steps[i], c.channel, c.routing) {
        UntilRegistered(erased, steps, c.channel, c.routing, n);
      }
    }
    if n :| 0 <= n < |steps| && RegistersAt(steps[n], c.channel, c.routing) {
      var i := FirstRegistration(steps, c.channel, c.routing, n);
      UntilRegistered(erased, steps, c.channel, c.routing, i);
      RunSnoc(erased, steps, i);
      SendableExactlyBy(Before(erased, steps, i), steps[i], c.channel, c.routing);
    }
  }

  predicate RegistersAt(step: Step, channel: string, routing: string) {
    step.Register? && step.channel == channel && step.routing == routing
  }

  /** Nobody has the address until a step registers it. */
  lemma {:induction false} UntilRegistered(s: System, steps: seq<Step>, channel: string, routing: string, n: nat)
    requires n <= |steps| && !Placeholder(routing) && !Registered(s.contacts, channel, routing)
    requires forall i | 0 <= i < n :: !RegistersAt(steps[i], channel, routing)
    requires channel != "whatsapp" || forall i | 0 <= i < |steps| && steps[i].Migrate? :: steps[i].to != routing
    ensures !Registered(Before(s, steps, n).contacts, channel, routing)
  {
    if n > 0 {
      UntilRegistered(s, steps, channel, routing, n - 1);
      RunSnoc(s, steps, n - 1);
      StaysUnregistered(Before(s, steps, n - 1), steps[n - 1], channel, routing);
    }
  }

  lemma StaysUnregistered(s: System, step: Step, channel: string, routing: string)
    requires !Registered(s.contacts, channel, routing) && !Placeholder(routing)
    requires !RegistersAt(step, channel, routing) && !(channel == "whatsapp" && step.Migrate? && step.to == routing)
    ensures !Registered(Next(s, step).contacts, channel, routing)
  {
    var after := Next(s, step).contacts;
    forall id | id in after ensures !(after[id].channel == channel && after[id].routing == routing) {
      if id in s.contacts {
        assert !(s.contacts[id].channel == channel && s.contacts[id].routing == routing);
        assert Placeholder("redacted-" + id);
      }
    }
  }

  lemma {:induction false} FirstRegistration(steps: seq<Step>, channel: string, routing: string, n: nat) returns (i: nat)
    requires n < |steps| && RegistersAt(steps[n], channel, routing)
    ensures i <= n && RegistersAt(steps[i], channel, routing)
    ensures forall j | 0 <= j < i :: !RegistersAt(steps[j], channel, routing)
  {
    i := n;
    if j :| 0 <= j < n && RegistersAt(steps[j], channel, routing) {
      i := FirstRegistration(steps, channel, routing, j);
    }
  }

  /** So the promise "suppressed from every future send" fails at once for a recipient who
      is registered again: no grant, yet a dispatch that selects the new row addresses the
      old address. */
  lemma ErasedThenRegistered(s: System, id: string, newId: string, started: bool)
    requires id in s.contacts && OneRowPerAddress(s) && !Placeholder(s.contacts[id].routing)
    requires newId !in s.contacts
    ensures var c := s.contacts[id];
            var after := Next(Next(s, Anonymize(id)), Register(newId, c.channel, c.routing, started));
            && after.events == s.events
            && newId in after.contacts
            && after.contacts[newId].channel == c.channel && after.contacts[newId].routing == c.routing
            && (Eligible(Selection([newId], [], []), after.contacts[newId]) <==> c.channel != "telegram" || started)
  {
    assert Placeholder("redacted-" + id);
  }
}
