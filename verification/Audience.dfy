/** Contacts and campaign audiences, shared by dispatch, preflight and consent. */
module Audience {

  datatype Option<+T> = None | Some(value: T)

  datatype ContactStatus = Active | OptedOut

  /** A contact row. `started` is the evidence that a Telegram user ever wrote to the bot. */
  datatype Contact = Contact(id: string, channel: string, routing: string, status: ContactStatus, started: bool)

  datatype Destination = Destination(id: string, chatId: string, active: bool)

  /** What a campaign selects. Empty contact and channel lists do not narrow a query. */
  datatype Selection = Selection(contactIds: seq<string>, channels: seq<string>, destinationIds: seq<string>)
  {
    predicate SelectsContacts() {
      contactIds != [] || channels != []
    }

    predicate Matches(c: Contact) {
      (contactIds == [] || c.id in contactIds) && (channels == [] || c.channel in channels)
    }
  }

  /** One tenant's rows as a dispatch or preflight reads them, contacts in listing order. */
  datatype Workspace = Workspace(
    contacts: seq<Contact>,
    withConsentEvidence: set<string>,
    destinations: seq<Destination>,
    whatsAppConnected: bool)

  ghost predicate DistinctIds(contacts: seq<Contact>) {
    forall i, j | 0 <= i < j < |contacts| :: contacts[i].id != contacts[j].id
  }

  /** A Telegram contact the bot may not write to. */
  predicate Unstarted(c: Contact) {
    c.channel == "telegram" && !c.started
  }

  /** The rule both dispatch branches apply to a contact. */
  predicate Eligible(s: Selection, c: Contact) {
    s.SelectsContacts() && s.Matches(c) && c.status == Active && !Unstarted(c)
  }

  /** The contacts a dispatch addresses, in listing order. */
  function Targets(s: Selection, contacts: seq<Contact>): seq<Contact> {
    if contacts == [] then []
    else
      var front, last := contacts[..|contacts| - 1], contacts[|contacts| - 1];
      if Eligible(s, last) then Targets(s, front) + [last] else Targets(s, front)
  }

  lemma {:induction false} TargetsAreEligible(s: Selection, contacts: seq<Contact>)
    ensures forall c :: c in Targets(s, contacts) <==> c in contacts && Eligible(s, c)
    ensures DistinctIds(contacts) ==> DistinctIds(Targets(s, contacts))
    ensures |Targets(s, contacts)| <= |contacts|
  {
    if contacts != [] {
      var front, last := contacts[..|contacts| - 1], contacts[|contacts| - 1];
      TargetsAreEligible(s, front);
      assert forall c :: c in contacts <==> c in front || c == last;
      if DistinctIds(contacts) {
        forall i | 0 <= i < |Targets(s, front)|
          ensures Targets(s, front)[i].id != last.id
        {
          assert Targets(s, front)[i] in front;
        }
      }
    }
  }
}
