/**
 Dispatching a campaign and the preflight that predicts it.

 Dispatch pages through the tenant's contacts and applies its skip rules one
 contact at a time; preflight never looks at a contact, it only subtracts
 aggregate counts. On one snapshot with a fixed listing order the two agree.
 */
module FanOut {
  import opened Audience
  import opened Listings

  const PAGE_SIZE: nat := 100

  /** A task on the queue; a result comes back under (kind, routing). */
  datatype Task = ContactTask(contactId: string, platform: string, routing: string) | DestinationTask(routing: string)

  datatype Outcome = Dispatched(totalTargets: nat) | WhatsAppNotConnected | NoActiveTargets

  // ---- The queries ----

  /** The row filters of the two counting queries. */
  datatype Filter = All | ActiveRows | OptedOutRows | WithoutEvidence | WhatsAppActive | TelegramUnstarted

  predicate Passes(f: Filter, withEvidence: set<string>, c: Contact) {
    match f
    case All => true
    case ActiveRows => c.status == Active
    case OptedOutRows => c.status == OptedOut
    case WithoutEvidence => c.id !in withEvidence
    case WhatsAppActive => c.status == Active && c.channel == "whatsapp"
    case TelegramUnstarted => c.status == Active && Unstarted(c)
  }

  /** COUNT(*) FILTER (WHERE f) over the rows the selection matches. */
  function CountRows(f: Filter, s: Selection, withEvidence: set<string>, contacts: seq<Contact>): nat {
    if contacts == [] then 0
    else
      var last := contacts[|contacts| - 1];
      CountRows(f, s, withEvidence, contacts[..|contacts| - 1])
      + if s.Matches(last) && Passes(f, withEvidence, last) then 1 else 0
  }

  function Rows(f: Filter, s: Selection, w: Workspace): nat {
    CountRows(f, s, w.withConsentEvidence, w.contacts)
  }

  /** The IDs dispatch must skip. The query is not narrowed by channel. */
  function UnstartedIds(contactIds: seq<string>, contacts: seq<Contact>): set<string> {
    set c | c in contacts && (contactIds == [] || c.id in contactIds) && c.status == Active && Unstarted(c) :: c.id
  }

  function ActiveDestinations(ids: seq<string>, all: seq<Destination>): seq<Destination> {
    if all == [] then []
    else
      var front, last := all[..|all| - 1], all[|all| - 1];
      if last.active && last.id in ids then ActiveDestinations(ids, front) + [last] else ActiveDestinations(ids, front)
  }

  function ContactTasks(targets: seq<Contact>): (tasks: seq<Task>)
    ensures |tasks| == |targets|
  {
    seq(|targets|, i requires 0 <= i < |targets| => ContactTask(targets[i].id, targets[i].channel, targets[i].routing))
  }

  function DestinationTasks(destinations: seq<Destination>): (tasks: seq<Task>)
    ensures |tasks| == |destinations|
  {
    seq(|destinations|, i requires 0 <= i < |destinations| => DestinationTask(destinations[i].chatId))
  }

  /** LIMIT/OFFSET over the listing. */
  function Page(contacts: seq<Contact>, offset: nat): (page: seq<Contact>) {
    if offset >= |contacts| then []
    else if offset + PAGE_SIZE >= |contacts| then contacts[offset..]
    else contacts[offset..offset + PAGE_SIZE]
  }

  // ---- Dispatch ----

  /** Everything a dispatch puts on the queue. */
  function Plan(s: Selection, w: Workspace): seq<Task> {
    ContactTasks(Targets(s, w.contacts)) + DestinationTasks(ActiveDestinations(s.destinationIds, w.destinations))
  }

  predicate WhatsAppGateCloses(s: Selection, w: Workspace) {
    Rows(WhatsAppActive, s, w) > 0 && !w.whatsAppConnected
  }

  /** TriggerDispatch from the reachability gate on: the gate, the branch the selection
      calls for, the destinations, and the refusal of an empty dispatch. */
  method TriggerDispatch(s: Selection, w: Workspace) returns (r: Outcome, tasks: seq<Task>)
    requires DistinctIds(w.contacts)
    ensures r == if WhatsAppGateCloses(s, w) then WhatsAppNotConnected
                 else if Plan(s, w) == [] then NoActiveTargets
                 else Dispatched(|Plan(s, w)|)
    ensures tasks == if WhatsAppGateCloses(s, w) then [] else Plan(s, w)
  {
    tasks := [];
    if Rows(WhatsAppActive, s, w) > 0 && !w.whatsAppConnected {
      return WhatsAppNotConnected, tasks;
    }
    var unstarted: set<string> := {};
    if Rows(TelegramUnstarted, s, w) > 0 {
      unstarted := UnstartedIds(s.contactIds, w.contacts);
    }
    SkipsTheUnstarted(s, w);
    var publishedTargets := 0;
    if s.contactIds != [] {
      tasks, publishedTargets := EmitSelected(s, w, unstarted);
    } else if s.channels != [] {
      tasks, publishedTargets := EmitBroadcast(s, w, unstarted);
    } else {
      NoTargets(s, w.contacts);
    }
    if s.destinationIds != [] {
      var destinations := ActiveDestinations(s.destinationIds, w.destinations);
      tasks := tasks + DestinationTasks(destinations);
      publishedTargets := publishedTargets + |destinations|;
    } else {
      NoDestinations(w.destinations);
    }
    if publishedTargets == 0 {
      return NoActiveTargets, tasks;
    }
    return Dispatched(publishedTargets), tasks;
  }

  /** Among the matched active contacts, exactly the unstarted ones are skipped. */
  ghost predicate SkipsExactly(s: Selection, contacts: seq<Contact>, unstarted: set<string>) {
    forall c | c in contacts && s.Matches(c) && c.status == Active :: c.id in unstarted <==> Unstarted(c)
  }

  lemma SkipsTheUnstarted(s: Selection, w: Workspace)
    requires DistinctIds(w.contacts)
    ensures SkipsExactly(s, w.contacts, if Rows(TelegramUnstarted, s, w) > 0 then UnstartedIds(s.contactIds, w.contacts) else {})
  {
    forall c | c in w.contacts && s.Matches(c) && c.status == Active
      ensures c.id in UnstartedIds(s.contactIds, w.contacts) <==> Unstarted(c)
      ensures Unstarted(c) ==> Rows(TelegramUnstarted, s, w) > 0
    {
      if Unstarted(c) {
        Counted(TelegramUnstarted, s, w.withConsentEvidence, w.contacts, c);
      }
    }
  }

  lemma {:induction false} Counted(f: Filter, s: Selection, withEvidence: set<string>, contacts: seq<Contact>, c: Contact)
    requires c in contacts && s.Matches(c) && Passes(f, withEvidence, c)
    ensures CountRows(f, s, withEvidence, contacts) > 0
  {
    if c != contacts[|contacts| - 1] {
      Counted(f, s, withEvidence, contacts[..|contacts| - 1], c);
    }
  }

  lemma NoTargets(s: Selection, contacts: seq<Contact>)
    requires !s.SelectsContacts()
    ensures Targets(s, contacts) == []
  {
    if contacts != [] {
      NoTargets(s, contacts[..|contacts| - 1]);
    }
  }

  lemma NoDestinations(all: seq<Destination>)
    ensures ActiveDestinations([], all) == []
  {
    if all != [] {
      NoDestinations(all[..|all| - 1]);
    }
  }

  /** The branch for explicitly selected contacts. */
  method EmitSelected(s: Selection, w: Workspace, unstarted: set<string>) returns (tasks: seq<Task>, published: nat)
    requires s.contactIds != [] && SkipsExactly(s, w.contacts, unstarted)
    ensures tasks == ContactTasks(Targets(s, w.contacts)) && published == |tasks|
  {
    tasks, published := [], 0;
    var page := 1;
    while true
      invariant page >= 1 && (page - 1) * PAGE_SIZE <= |w.contacts|
      invariant tasks == ContactTasks(Targets(s, w.contacts[..(page - 1) * PAGE_SIZE])) && published == |tasks|
      decreases |w.contacts| - page * PAGE_SIZE
    {
      var offset := (page - 1) * PAGE_SIZE;
      var contacts := Page(w.contacts, offset);
      if |contacts| == 0 {
        assert w.contacts[..offset] == w.contacts;
        break;
      }
      tasks := EmitSelectedPage(s, w.contacts, unstarted, offset, contacts, tasks);
      published := |tasks|;
      if |contacts| < PAGE_SIZE {
        assert w.contacts[..offset + |contacts|] == w.contacts;
        break;
      }
      page := page + 1;
    }
  }

  method EmitSelectedPage(s: Selection, all: seq<Contact>, unstarted: set<string>, offset: nat, contacts: seq<Contact>, before: seq<Task>)
    returns (tasks: seq<Task>)
    requires s.contactIds != [] && SkipsExactly(s, all, unstarted)
    requires offset + |contacts| <= |all| && contacts == all[offset..offset + |contacts|]
    requires before == ContactTasks(Targets(s, all[..offset]))
    ensures tasks == ContactTasks(Targets(s, all[..offset + |contacts|]))
  {
    tasks := before;
    for i := 0 to |contacts|
      invariant tasks == ContactTasks(Targets(s, all[..offset + i]))
    {
      var contact := contacts[i];
      TargetsSnoc(s, all, offset + i);
      if contact.id !in s.contactIds {
        continue;
      }
      if contact.status != Active {
        continue;
      }
      if contact.id in unstarted {
        continue;
      }
      if |s.channels| > 0 && contact.channel !in s.channels {
        continue;
      }
      tasks := tasks + [ContactTask(contact.id, contact.channel, contact.routing)];
    }
  }

  /** The branch for all active contacts of the selected channels. */
  method EmitBroadcast(s: Selection, w: Workspace, unstarted: set<string>) returns (tasks: seq<Task>, published: nat)
    requires s.contactIds == [] && s.channels != [] && SkipsExactly(s, w.contacts, unstarted)
    ensures tasks == ContactTasks(Targets(s, w.contacts)) && published == |tasks|
  {
    tasks, published := [], 0;
    var page := 1;
    while true
      invariant page >= 1 && (page - 1) * PAGE_SIZE <= |w.contacts|
      invariant tasks == ContactTasks(Targets(s, w.contacts[..(page - 1) * PAGE_SIZE])) && published == |tasks|
      decreases |w.contacts| - page * PAGE_SIZE
    {
      var offset := (page - 1) * PAGE_SIZE;
      var contacts := Page(w.contacts, offset);
      if |contacts| == 0 {
        assert w.contacts[..offset] == w.contacts;
        break;
      }
      tasks := EmitBroadcastPage(s, w.contacts, unstarted, offset, contacts, tasks);
      published := |tasks|;
      if |contacts| < PAGE_SIZE {
        assert w.contacts[..offset + |contacts|] == w.contacts;
        break;
      }
      page := page + 1;
    }
  }

  method EmitBroadcastPage(s: Selection, all: seq<Contact>, unstarted: set<string>, offset: nat, contacts: seq<Contact>, before: seq<Task>)
    returns (tasks: seq<Task>)
    requires s.contactIds == [] && s.channels != [] && SkipsExactly(s, all, unstarted)
    requires offset + |contacts| <= |all| && contacts == all[offset..offset + |contacts|]
    requires before == ContactTasks(Targets(s, all[..offset]))
    ensures tasks == ContactTasks(Targets(s, all[..offset + |contacts|]))
  {
    tasks := before;
    for i := 0 to |contacts|
      invariant tasks == ContactTasks(Targets(s, all[..offset + i]))
    {
      var contact := contacts[i];
      TargetsSnoc(s, all, offset + i);
      if contact.status != Active || contact.channel !in s.channels {
        continue;
      }
      if contact.id in unstarted {
        continue;
      }
      tasks := tasks + [ContactTask(contact.id, contact.channel, contact.routing)];
    }
  }

  lemma TargetsSnoc(s: Selection, contacts: seq<Contact>, n: nat)
    requires n < |contacts|
    ensures Targets(s, contacts[..n + 1])
         == if Eligible(s, contacts[n]) then Targets(s, contacts[..n]) + [contacts[n]] else Targets(s, contacts[..n])
    ensures Eligible(s, contacts[n]) ==>
              ContactTasks(Targets(s, contacts[..n + 1]))
              == ContactTasks(Targets(s, contacts[..n])) + [ContactTask(contacts[n].id, contacts[n].channel, contacts[n].routing)]
  {
    assert contacts[..n + 1][..n] == contacts[..n];
  }

  // ---- Preflight ----

  datatype Reason =
    | OptedOutWillBeSkipped(count: int)
    | NoRecordedConsent(count: int)
    | TelegramNotStarted(count: int)
    | WhatsAppDisconnected(count: int)
    | NoSendableTargets

  datatype Preflight = Preflight(
    totalTargets: int,
    sendable: int,
    optedOut: int,
    noConsent: int,
    unreachable: int,
    whatsAppConnected: bool,
    reasons: seq<Reason>)

  /** Preflight asks about WhatsApp only when the selection narrows the contacts. */
  predicate PreflightSeesDisconnected(s: Selection, w: Workspace) {
    s.SelectsContacts() && WhatsAppGateCloses(s, w)
  }

  function When(c: bool, r: Reason): seq<Reason> {
    if c then [r] else []
  }

  /** One remark for each count that is not zero, one for WhatsApp, and one for an empty plan. */
  function Reasons(p: Preflight, disconnected: bool, whatsAppTargets: int): seq<Reason> {
    AudienceReasons(p, disconnected, whatsAppTargets) + When(p.sendable == 0, NoSendableTargets)
  }

  function AudienceReasons(p: Preflight, disconnected: bool, whatsAppTargets: int): seq<Reason> {
    When(p.optedOut > 0, OptedOutWillBeSkipped(p.optedOut))
    + When(p.noConsent > 0, NoRecordedConsent(p.noConsent))
    + When(p.unreachable > 0, TelegramNotStarted(p.unreachable))
    + When(disconnected, WhatsAppDisconnected(whatsAppTargets))
  }

  /** Preflight works from counts alone. */
  method RunPreflight(s: Selection, w: Workspace) returns (p: Preflight)
    ensures p.sendable == |Plan(s, w)|
    ensures p.totalTargets == p.sendable + p.optedOut + p.unreachable
    ensures p.whatsAppConnected <==> !PreflightSeesDisconnected(s, w)
    ensures p.reasons == Reasons(p, PreflightSeesDisconnected(s, w), Rows(WhatsAppActive, s, w))
    ensures p.optedOut == (if s.SelectsContacts() then Rows(OptedOutRows, s, w) else 0)
    ensures p.noConsent == (if s.SelectsContacts() then Rows(WithoutEvidence, s, w) else 0)
    ensures p.unreachable == (if s.SelectsContacts() then Rows(TelegramUnstarted, s, w) else 0)
  {
    p := Preflight(0, 0, 0, 0, 0, true, []);
    if |s.contactIds| > 0 || |s.channels| > 0 {
      p := CountContacts(s, w);
    } else {
      NoTargets(s, w.contacts);
    }
    if |s.destinationIds| > 0 {
      var destinations := ActiveDestinations(s.destinationIds, w.destinations);
      p := p.(totalTargets := p.totalTargets + |destinations|, sendable := p.sendable + |destinations|);
    } else {
      NoDestinations(w.destinations);
    }
    if p.sendable == 0 {
      p := p.(reasons := p.reasons + [NoSendableTargets]);
    }
  }

  /** The part about contacts. */
  method CountContacts(s: Selection, w: Workspace) returns (p: Preflight)
    requires s.SelectsContacts()
    ensures p.sendable == |Targets(s, w.contacts)|
    ensures p.totalTargets == p.sendable + p.optedOut + p.unreachable
    ensures p.optedOut == Rows(OptedOutRows, s, w) && p.noConsent == Rows(WithoutEvidence, s, w)
    ensures p.unreachable == Rows(TelegramUnstarted, s, w)
    ensures p.whatsAppConnected <==> !WhatsAppGateCloses(s, w)
    ensures p.reasons == AudienceReasons(p, WhatsAppGateCloses(s, w), Rows(WhatsAppActive, s, w))
  {
    TargetsByCounting(s, w.withConsentEvidence, w.contacts);
    var optedOut, noConsent := Rows(OptedOutRows, s, w), Rows(WithoutEvidence, s, w);
    p := Preflight(Rows(All, s, w), Rows(ActiveRows, s, w), optedOut, noConsent, 0, true, []);
    if optedOut > 0 {
      p := p.(reasons := p.reasons + [OptedOutWillBeSkipped(optedOut)]);
    }
    if noConsent > 0 {
      p := p.(reasons := p.reasons + [NoRecordedConsent(noConsent)]);
    }
    assert p.reasons == When(optedOut > 0, OptedOutWillBeSkipped(optedOut)) + When(noConsent > 0, NoRecordedConsent(noConsent));
    p := CountUnreachable(s, w, p);
  }

  method CountUnreachable(s: Selection, w: Workspace, before: Preflight) returns (p: Preflight)
    requires before.sendable >= Rows(TelegramUnstarted, s, w) && before.unreachable == 0 && before.whatsAppConnected
    ensures p == before.(sendable := before.sendable - p.unreachable, unreachable := p.unreachable,
                         whatsAppConnected := p.whatsAppConnected, reasons := p.reasons)
    ensures p.unreachable == Rows(TelegramUnstarted, s, w)
    ensures p.whatsAppConnected <==> !WhatsAppGateCloses(s, w)
    ensures p.reasons == before.reasons + When(p.unreachable > 0, TelegramNotStarted(p.unreachable))
                         + When(WhatsAppGateCloses(s, w), WhatsAppDisconnected(Rows(WhatsAppActive, s, w)))
  {
    p := before;
    var unstarted := Rows(TelegramUnstarted, s, w);
    if unstarted > 0 {
      // The source clamps at zero here; the subtraction cannot go below it.
      var sendable := p.sendable - unstarted;
      if sendable < 0 {
        sendable := 0;
      }
      p := p.(unreachable := unstarted, sendable := sendable, reasons := p.reasons + [TelegramNotStarted(unstarted)]);
    }
    var whatsApp := Rows(WhatsAppActive, s, w);
    if whatsApp > 0 {
      p := p.(whatsAppConnected := w.whatsAppConnected);
      if !w.whatsAppConnected {
        p := p.(reasons := p.reasons + [WhatsAppDisconnected(whatsApp)]);
      }
    }
  }

  /** The counts determine the number of targets, contact by contact. */
  lemma {:induction false} TargetsByCounting(s: Selection, withEvidence: set<string>, contacts: seq<Contact>)
    ensures s.SelectsContacts() ==>
              CountRows(ActiveRows, s, withEvidence, contacts)
              == |Targets(s, contacts)| + CountRows(TelegramUnstarted, s, withEvidence, contacts)
    ensures CountRows(All, s, withEvidence, contacts)
         == CountRows(ActiveRows, s, withEvidence, contacts) + CountRows(OptedOutRows, s, withEvidence, contacts)
  {
    if contacts != [] {
      TargetsByCounting(s, withEvidence, contacts[..|contacts| - 1]);
    }
  }

  // ---- Where they meet ----

  /** One dispatch against one preflight of the same snapshot: the number published is the
      number promised, and a dispatch is refused as empty exactly when preflight says so. */
  method DispatchMatchesPreflight(s: Selection, w: Workspace) returns (p: Preflight, r: Outcome)
    requires DistinctIds(w.contacts)
    ensures r.Dispatched? ==> r.totalTargets == p.sendable > 0
    ensures !r.WhatsAppNotConnected? ==> (r.NoActiveTargets? <==> p.sendable == 0)
    ensures s.SelectsContacts() ==> (r.WhatsAppNotConnected? <==> !p.whatsAppConnected)
  {
    var tasks;
    p := RunPreflight(s, w);
    r, tasks := TriggerDispatch(s, w);
  }

  /** What a dispatch asks of a contact. */
  ghost predicate Addressed(s: Selection, c: Contact) {
    && (s.contactIds != [] || s.channels != [])
    && (s.contactIds != [] ==> c.id in s.contactIds)
    && (s.channels != [] ==> c.channel in s.channels)
    && c.status != OptedOut
    && (c.channel == "telegram" ==> c.started)
  }

  ghost predicate Selected(s: Selection, d: Destination) {
    d.active && d.id in s.destinationIds
  }

  /** The plan is one task for each addressed contact, in listing order, and then one for each
      selected destination that is active, in listing order, to its chat. */
  lemma PlanListing(s: Selection, w: Workspace) returns (people: seq<nat>, places: seq<nat>)
    ensures Ascending(people, |w.contacts|) && Ascending(places, |w.destinations|)
    ensures |Plan(s, w)| == |people| + |places|
    ensures forall j | 0 <= j < |w.contacts| :: Addressed(s, w.contacts[j]) <==> j in people
    ensures forall j | 0 <= j < |w.destinations| :: Selected(s, w.destinations[j]) <==> j in places
    ensures forall i | 0 <= i < |people| ::
              var c := w.contacts[people[i]]; Plan(s, w)[i] == ContactTask(c.id, c.channel, c.routing)
    ensures forall i | 0 <= i < |places| ::
              Plan(s, w)[|people| + i] == DestinationTask(w.destinations[places[i]].chatId)
  {
    TargetsKept(s, w.contacts);
    DestinationsKept(s, w.destinations);
    people := KeptAt(c => Addressed(s, c), w.contacts);
    places := KeptAt(d => Selected(s, d), w.destinations);
    assert forall j | 0 <= j < |w.contacts| :: Addressed(s, w.contacts[j]) == (c => Addressed(s, c))(w.contacts[j]);
    assert forall j | 0 <= j < |w.destinations| :: Selected(s, w.destinations[j]) == (d => Selected(s, d))(w.destinations[j]);
  }

  lemma {:induction false} TargetsKept(s: Selection, contacts: seq<Contact>)
    ensures Targets(s, contacts) == Kept(c => Addressed(s, c), contacts)
  {
    if contacts != [] {
      TargetsKept(s, contacts[..|contacts| - 1]);
    }
  }

  lemma {:induction false} DestinationsKept(s: Selection, all: seq<Destination>)
    ensures ActiveDestinations(s.destinationIds, all) == Kept(d => Selected(s, d), all)
  {
    if all != [] {
      DestinationsKept(s, all[..|all| - 1]);
    }
  }

  /** The plan addresses each addressed contact exactly once and no other contact, and a chat
      exactly when some selected destination there is active. */
  lemma PlanIsExact(s: Selection, w: Workspace)
    requires DistinctIds(w.contacts)
    ensures forall c | c in w.contacts ::
              ContactTask(c.id, c.channel, c.routing) in Plan(s, w) <==> Addressed(s, c)
    ensures forall i, j | 0 <= i < j < |Plan(s, w)| && Plan(s, w)[i].ContactTask? && Plan(s, w)[j].ContactTask? ::
              Plan(s, w)[i].contactId != Plan(s, w)[j].contactId
    ensures forall chat :: DestinationTask(chat) in Plan(s, w) <==>
              exists d :: d in w.destinations && Selected(s, d) && d.chatId == chat
  {
    var people, places := PlanListing(s, w);
    forall i | |people| <= i < |Plan(s, w)| ensures Plan(s, w)[i].DestinationTask? {
      var k := i - |people|;
      assert Plan(s, w)[|people| + k] == DestinationTask(w.destinations[places[k]].chatId);
    }
    forall c | c in w.contacts
      ensures ContactTask(c.id, c.channel, c.routing) in Plan(s, w) <==> Addressed(s, c)
    {
      ContactIsExact(s, w, people, c);
    }
    ChatsAreExact(s, w, people, places);
  }

  lemma ContactIsExact(s: Selection, w: Workspace, people: seq<nat>, c: Contact)
    requires DistinctIds(w.contacts) && Ascending(people, |w.contacts|) && |people| <= |Plan(s, w)| && c in w.contacts
    requires forall i | |people| <= i < |Plan(s, w)| :: Plan(s, w)[i].DestinationTask?
    requires forall j | 0 <= j < |w.contacts| :: Addressed(s, w.contacts[j]) <==> j in people
    requires forall i | 0 <= i < |people| ::
               var p := w.contacts[people[i]]; Plan(s, w)[i] == ContactTask(p.id, p.channel, p.routing)
    ensures ContactTask(c.id, c.channel, c.routing) in Plan(s, w) <==> Addressed(s, c)
  {
    var j :| 0 <= j < |w.contacts| && w.contacts[j] == c;
    if Addressed(s, c) {
      var i :| 0 <= i < |people| && people[i] == j;
      assert Plan(s, w)[i] == ContactTask(c.id, c.channel, c.routing);
    }
    if ContactTask(c.id, c.channel, c.routing) in Plan(s, w) {
      var i :| 0 <= i < |Plan(s, w)| && Plan(s, w)[i] == ContactTask(c.id, c.channel, c.routing);
      assert w.contacts[people[i]].id == c.id && people[i] in people;
    }
  }

  lemma ChatsAreExact(s: Selection, w: Workspace, people: seq<nat>, places: seq<nat>)
    requires |Plan(s, w)| == |people| + |places| && Ascending(places, |w.destinations|)
    requires forall i | 0 <= i < |people| :: Plan(s, w)[i].ContactTask?
    requires forall j | 0 <= j < |w.destinations| :: Selected(s, w.destinations[j]) <==> j in places
    requires forall i | 0 <= i < |places| ::
               Plan(s, w)[|people| + i] == DestinationTask(w.destinations[places[i]].chatId)
    ensures forall chat :: DestinationTask(chat) in Plan(s, w) <==>
              exists d :: d in w.destinations && Selected(s, d) && d.chatId == chat
  {
    var plan := Plan(s, w);
    forall chat
      ensures DestinationTask(chat) in plan <==> exists d :: d in w.destinations && Selected(s, d) && d.chatId == chat
    {
      if DestinationTask(chat) in plan {
        var i :| 0 <= i < |plan| && plan[i] == DestinationTask(chat);
        assert plan[|people| + (i - |people|)] == plan[i];
        assert places[i - |people|] in places;
        assert w.destinations[places[i - |people|]] in w.destinations;
      }
      if d :| d in w.destinations && Selected(s, d) && d.chatId == chat {
        var j :| 0 <= j < |w.destinations| && w.destinations[j] == d;
        var i :| 0 <= i < |places| && places[i] == j;
        assert plan[|people| + i] == DestinationTask(chat);
      }
    }
  }

  // ---- What the counts count ----

  ghost predicate InAudience(s: Selection, c: Contact) {
    (s.contactIds != [] ==> c.id in s.contactIds) && (s.channels != [] ==> c.channel in s.channels)
  }

  /** Each number in a preflight is the number of the audience's contacts it speaks of. */
  lemma CountsMean(s: Selection, w: Workspace)
    requires DistinctIds(w.contacts)
    ensures Rows(All, s, w) == |Those(w.contacts, c => InAudience(s, c))|
    ensures Rows(ActiveRows, s, w) == |Those(w.contacts, c => InAudience(s, c) && c.status == Active)|
    ensures Rows(OptedOutRows, s, w) == |Those(w.contacts, c => InAudience(s, c) && c.status == OptedOut)|
    ensures Rows(WithoutEvidence, s, w) == |Those(w.contacts, c => InAudience(s, c) && c.id !in w.withConsentEvidence)|
  {
    var e := w.withConsentEvidence;
    Counts(All, s, w, c => InAudience(s, c));
    Counts(ActiveRows, s, w, c => InAudience(s, c) && c.status == Active);
    Counts(OptedOutRows, s, w, c => InAudience(s, c) && c.status == OptedOut);
    Counts(WithoutEvidence, s, w, c => InAudience(s, c) && c.id !in w.withConsentEvidence);
  }

  lemma ReachabilityCountsMean(s: Selection, w: Workspace)
    requires DistinctIds(w.contacts)
    ensures Rows(WhatsAppActive, s, w)
         == |Those(w.contacts, c => InAudience(s, c) && c.status == Active && c.channel == "whatsapp")|
    ensures Rows(TelegramUnstarted, s, w)
         == |Those(w.contacts, c => InAudience(s, c) && c.status == Active && c.channel == "telegram" && !c.started)|
  {
    Counts(WhatsAppActive, s, w, c => InAudience(s, c) && c.status == Active && c.channel == "whatsapp");
    Counts(TelegramUnstarted, s, w, c => InAudience(s, c) && c.status == Active && c.channel == "telegram" && !c.started);
  }

  lemma Counts(f: Filter, s: Selection, w: Workspace, P: Contact -> bool)
    requires DistinctIds(w.contacts)
    requires forall c :: P(c) <==> s.Matches(c) && Passes(f, w.withConsentEvidence, c)
    ensures Rows(f, s, w) == |Those(w.contacts, P)|
  {
    CountedKept(f, s, w.withConsentEvidence, w.contacts, P);
    assert forall i, j | 0 <= i < j < |w.contacts| :: w.contacts[i].id != w.contacts[j].id;
    KeptCount(P, w.contacts);
  }

  lemma {:induction false} CountedKept(f: Filter, s: Selection, withEvidence: set<string>, contacts: seq<Contact>, P: Contact -> bool)
    requires forall c :: P(c) <==> s.Matches(c) && Passes(f, withEvidence, c)
    ensures CountRows(f, s, withEvidence, contacts) == |Kept(P, contacts)|
  {
    if contacts != [] {
      CountedKept(f, s, withEvidence, contacts[..|contacts| - 1], P);
    }
  }

  /** Each remark is made exactly when there is something to remark on. */
  lemma RemarksMean(p: Preflight, disconnected: bool, whatsAppTargets: int, n: int)
    ensures var remarks := Reasons(p, disconnected, whatsAppTargets);
            && (OptedOutWillBeSkipped(n) in remarks <==> n == p.optedOut > 0)
            && (NoRecordedConsent(n) in remarks <==> n == p.noConsent > 0)
            && (TelegramNotStarted(n) in remarks <==> n == p.unreachable > 0)
            && (WhatsAppDisconnected(n) in remarks <==> disconnected && n == whatsAppTargets)
            && (NoSendableTargets in remarks <==> p.sendable == 0)
  {
    InRemarks(p, disconnected, whatsAppTargets, OptedOutWillBeSkipped(n));
    InRemarks(p, disconnected, whatsAppTargets, NoRecordedConsent(n));
    InRemarks(p, disconnected, whatsAppTargets, TelegramNotStarted(n));
    InRemarks(p, disconnected, whatsAppTargets, WhatsAppDisconnected(n));
    InRemarks(p, disconnected, whatsAppTargets, NoSendableTargets);
  }

  lemma InRemarks(p: Preflight, disconnected: bool, whatsAppTargets: int, r: Reason)
    ensures r in Reasons(p, disconnected, whatsAppTargets) <==>
              match r
              case OptedOutWillBeSkipped(n) => n == p.optedOut > 0
              case NoRecordedConsent(n) => n == p.noConsent > 0
              case TelegramNotStarted(n) => n == p.unreachable > 0
              case WhatsAppDisconnected(n) => disconnected && n == whatsAppTargets
              case NoSendableTargets => p.sendable == 0
  {
  }

  /** Where the two part: a campaign for Telegram destinations alone. Dispatch still counts
      every WhatsApp contact of the tenant and refuses while WhatsApp is disconnected;
      preflight does not look. They agree on the gate exactly outside that case. */
  lemma GatesAgreeExactlyWhen(s: Selection, w: Workspace)
    ensures (WhatsAppGateCloses(s, w) <==> PreflightSeesDisconnected(s, w))
       <==> s.SelectsContacts() || w.whatsAppConnected
            || forall c | c in w.contacts :: !(c.status == Active && c.channel == "whatsapp")
  {
    CountedIff(WhatsAppActive, s, w.withConsentEvidence, w.contacts);
  }

  lemma {:induction false} CountedIff(f: Filter, s: Selection, withEvidence: set<string>, contacts: seq<Contact>)
    ensures CountRows(f, s, withEvidence, contacts) > 0
       <==> exists c :: c in contacts && s.Matches(c) && Passes(f, withEvidence, c)
  {
    if contacts != [] {
      CountedIff(f, s, withEvidence, contacts[..|contacts| - 1]);
      assert forall c :: c in contacts <==> c in contacts[..|contacts| - 1] || c == contacts[|contacts| - 1];
    }
  }
}
