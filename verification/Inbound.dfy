/**
 Filing inbound contact: the contact is found or added, the message or call goes to the ticket it
 replies to, the ticket its subject names, or the best recent ticket of the contact on the channel,
 and otherwise to a new ticket.
 */
module Inbound {
  import opened Basics
  import opened ReusePolicy
  import opened SubjectToken
  import opened Tickets

  datatype Contact = Contact(workspace: Id, name: Option<string>, email: Option<string>, phone: Option<string>,
                             deleted: bool)

  datatype Message = Message(providerId: Option<string>, ticket: Option<Id>, contact: Id, channel: Id)

  /**
   A normalised inbound message or call; missing and empty fields are None. `preview` is the first 80
   characters of the stripped body, `occurredAt` the provider's own time of the message.
   */
  datatype Inbound = Inbound(name: Option<string>, email: Option<string>, phone: Option<string>,
                             inReplyTo: Option<string>, subject: Option<string>, preview: string,
                             providerId: Option<string>, occurredAt: Option<int>)

  /** Where it came from and under which policy it is filed. */
  datatype Setting = Setting(workspace: Id, channel: Id, kind: string, policy: Effective, agents: set<UserId>)

  /** The clock readings of one filing: for the cutoff, for a new ticket, and of the ticket step. */
  datatype Readings = Readings(asked: int, created: int, clock: Clock)

  datatype Db = Db(contacts: map<Id, Contact>, tickets: map<Id, Ticket>, messages: seq<Message>)

  datatype Outcome =
    | Filed(contact: Id, ticket: Id, created: bool)
    | Duplicate               // a message with this provider id is stored already
    | NoChannel               // ValueError: no active channel account
    | Clash                   // a query meant to find at most one row found more
    | NoShortId               // no unique display id could be allocated

  function CallFrom(number: string): Inbound {
    Inbound(None, None, Some(number), None, None, "", None, None)
  }

  // ---------------------------------------------------------------- contacts

  datatype Lookup = Missing | Found(contact: Id) | Several

  function EmailHits(contacts: map<Id, Contact>, workspace: Id, email: Option<string>): set<Id> {
    set c | c in contacts && email.Some? && contacts[c].workspace == workspace &&
            contacts[c].email == email && !contacts[c].deleted
  }

  function PhoneHits(contacts: map<Id, Contact>, workspace: Id, phone: Option<string>): set<Id> {
    set c | c in contacts && phone.Some? && contacts[c].workspace == workspace &&
            contacts[c].phone == phone && !contacts[c].deleted
  }

  /** Who a lookup finds: by email first, then by phone. */
  ghost predicate LooksUp(contacts: map<Id, Contact>, workspace: Id, m: Inbound, r: Lookup) {
    var byEmail, byPhone := EmailHits(contacts, workspace, m.email), PhoneHits(contacts, workspace, m.phone);
    match r
    case Found(c) => byEmail == {c} || (byEmail == {} && byPhone == {c})
    case Several => |byEmail| > 1 || (byEmail == {} && |byPhone| > 1)
    case Missing => byEmail == {} && byPhone == {}
  }

  /** Blank fields of a known contact are filled in. */
  function Filled(c: Contact, m: Inbound): Contact {
    c.(name := if c.name.Some? then c.name else m.name,
       email := if c.email.Some? then c.email else m.email,
       phone := if c.phone.Some? then c.phone else m.phone)
  }

  ghost predicate ContactStep(contacts: map<Id, Contact>, workspace: Id, m: Inbound, c: Id, after: map<Id, Contact>) {
    || (LooksUp(contacts, workspace, m, Found(c)) && c in contacts && after == contacts[c := Filled(contacts[c], m)])
    || (LooksUp(contacts, workspace, m, Missing) && c !in contacts &&
        after == contacts[c := Contact(workspace, m.name, m.email, m.phone, false)])
  }

  // ---------------------------------------------------------------- the three tiers

  /** The stored messages with a provider id. */
  function WithProviderId(messages: seq<Message>, id: string): seq<Message> {
    if messages == [] then []
    else
      var rest, last := WithProviderId(messages[..|messages| - 1], id), messages[|messages| - 1];
      if last.providerId == Some(id) then rest + [last] else rest
  }

  predicate Usable(tickets: map<Id, Ticket>, t: Id, policy: Effective) {
    t in tickets && policy.AllowsStatus(tickets[t].status)
  }

  /** The reply header names several stored messages. */
  predicate ReplyClash(db: Db, m: Inbound) {
    m.inReplyTo.Some? && |WithProviderId(db.messages, m.inReplyTo.value)| > 1
  }

  /** First tier: the ticket of the message replied to, in whatever workspace it is. */
  function ReplyTarget(db: Db, m: Inbound, policy: Effective): Option<Id> {
    if m.inReplyTo.None? then None
    else
      var prior := WithProviderId(db.messages, m.inReplyTo.value);
      if |prior| == 1 && prior[0].ticket.Some? && Usable(db.tickets, prior[0].ticket.value, policy) then prior[0].ticket
      else None
  }

  function SubjectText(m: Inbound): string {
    if m.subject.Some? then m.subject.value else ""
  }

  /** Second tier: the workspace's ticket whose token is the first in the subject. */
  function TokenTargets(tickets: map<Id, Ticket>, workspace: Id, m: Inbound, policy: Effective): set<Id> {
    set t | t in tickets && tickets[t].workspace == workspace && Search(SubjectText(m)) == Some(tickets[t].shortId) &&
            policy.AllowsStatus(tickets[t].status)
  }

  predicate Since(at: Option<int>, cutoff: int) {
    at.Some? && at.value >= cutoff
  }

  predicate Recent(t: Ticket, cutoff: int) {
    t.lastActivity >= cutoff || Since(t.resolvedAt, cutoff) || Since(t.closedAt, cutoff) || t.updatedAt >= cutoff
  }

  /** Third tier: the contact's tickets on the channel with a reusable status and recent activity. */
  function Candidates(tickets: map<Id, Ticket>, s: Setting, contact: Id, now: int): set<Id> {
    set t | t in tickets && tickets[t].workspace == s.workspace && tickets[t].contact == contact &&
            tickets[t].channel == Some(s.channel) && s.policy.AllowsStatus(tickets[t].status) &&
            Recent(tickets[t], now - s.policy.window)
  }

  /** Open tickets first, then the latest activity. */
  predicate AtLeastAsGood(t: Ticket, u: Ticket) {
    || (IsOpenStatus(t.status) && !IsOpenStatus(u.status))
    || (IsOpenStatus(t.status) == IsOpenStatus(u.status) && t.lastActivity >= u.lastActivity)
  }

  predicate IsBest(tickets: map<Id, Ticket>, among: set<Id>, t: Id)
    requires among <= tickets.Keys
  {
    t in among && forall u :: u in among ==> AtLeastAsGood(tickets[t], tickets[u])
  }

  /** The simple specification of the target: None asks for a new ticket. */
  ghost predicate Chooses(db: Db, s: Setting, m: Inbound, contact: Id, now: int, target: Option<Id>) {
    var byToken := TokenTargets(db.tickets, s.workspace, m, s.policy);
    var recent := Candidates(db.tickets, s, contact, now);
    if ReplyTarget(db, m, s.policy).Some? then target == ReplyTarget(db, m, s.policy)
    else if byToken != {} then target.Some? && target.value in byToken
    else if recent != {} then target.Some? && IsBest(db.tickets, recent, target.value)
    else target.None?
  }

  // ---------------------------------------------------------------- filing

  /** The unique constraint on display ids. */
  ghost predicate UniqueShortIds(tickets: map<Id, Ticket>) {
    forall t, u :: t in tickets && u in tickets && tickets[t].shortId == tickets[u].shortId ==> t == u
  }

  function ShortIds(tickets: map<Id, Ticket>): set<string> {
    set t | t in tickets :: tickets[t].shortId
  }

  /** Who an untitled ticket is from. */
  function Who(m: Inbound): string {
    if m.name.Some? then m.name.value
    else if m.phone.Some? then m.phone.value
    else if m.email.Some? then m.email.value
    else "None"
  }

  function Title(kind: string, m: Inbound): string {
    if m.subject.Some? then m.subject.value
    else if m.preview != "" then m.preview
    else if kind == "voice" then "Call from " + Who(m)
    else if kind == "messaging" then "WhatsApp from " + Who(m)
    else "Email from " + Who(m)
  }

  /** The row a new ticket gets. */
  function BlankTicket(s: Setting, m: Inbound, contact: Id, shortId: string, rd: Readings): Ticket {
    var at := if m.occurredAt.Some? then m.occurredAt.value else rd.created;
    NewTicket(s.workspace, contact, Some(s.channel), Some(Title(s.kind, m)), "normal", shortId, at, rd.clock.db)
  }

  /** Ticket `t` was chosen or created, reopened if it was done, and touched; no other ticket changed. */
  ghost predicate TicketStep(db: Db, s: Setting, m: Inbound, contact: Id, shortId: Option<string>, rd: Readings,
                             t: Id, created: bool, after: map<Id, Ticket>) {
    if created then
      && shortId.Some? && shortId.value !in ShortIds(db.tickets) && t !in db.tickets
      && Chooses(db, s, m, contact, rd.asked, None)
      && var blank := BlankTicket(s, m, contact, shortId.value, rd);
         after == db.tickets[t := AfterAction(blank, Contacted(s.policy, s.agents), rd.clock)]
    else
      && t in db.tickets
      && Chooses(db, s, m, contact, rd.asked, Some(t))
      && after == db.tickets[t := AfterAction(db.tickets[t], Contacted(s.policy, s.agents), rd.clock)]
  }

  /** A message or call was filed: contact and ticket as above. */
  ghost predicate FiledStep(db: Db, s: Setting, m: Inbound, shortId: Option<string>, rd: Readings,
                            r: Outcome, after: Db) {
    && r.Filed? && !ReplyClash(db, m)
    && ContactStep(db.contacts, s.workspace, m, r.contact, after.contacts)
    && TicketStep(db, s, m, r.contact, shortId, rd, r.ticket, r.created, after.tickets)
  }

  /** Nothing can be reused for the sender. */
  ghost predicate NeedsNewTicket(db: Db, s: Setting, m: Inbound, asked: int) {
    exists c, contacts :: ContactStep(db.contacts, s.workspace, m, c, contacts) && Chooses(db, s, m, c, asked, None)
  }

  /** What one inbound message comes to, and the rows after it. */
  ghost predicate IngestStep(db: Db, setting: Option<Setting>, m: Inbound, shortId: Option<string>, rd: Readings,
                             r: Outcome,
                             after: Db) {
    var stored := if m.providerId.Some? then WithProviderId(db.messages, m.providerId.value) else [];
    && (r == NoChannel <==> setting.None?)
    && (r == Duplicate <==> setting.Some? && |stored| == 1)
    && (r == Clash ==> |stored| > 1 || ReplyClash(db, m) || LooksUp(db.contacts, setting.value.workspace, m, Several))
    && (r == NoShortId ==>
          && shortId.None? && stored == [] && !LooksUp(db.contacts, setting.value.workspace, m, Several)
          && NeedsNewTicket(db, setting.value, m, rd.asked))
    && (!r.Filed? ==> after == db)
    && (r.Filed? ==>
          && stored == []
          && FiledStep(db, setting.value, m, shortId, rd, r, after)
          && after.messages == db.messages + [Message(m.providerId, Some(r.ticket), r.contact, setting.value.channel)])
  }

  lemma {:induction false} BestExists(tickets: map<Id, Ticket>, among: set<Id>) returns (t: Id)
    requires among != {} && among <= tickets.Keys
    ensures IsBest(tickets, among, t)
    decreases among
  {
    var x :| x in among;
    if among == {x} {
      t := x;
    } else {
      var best := BestExists(tickets, among - {x});
      t := if AtLeastAsGood(tickets[x], tickets[best]) then x else best;
      forall u | u in among ensures AtLeastAsGood(tickets[t], tickets[u]) {
        assert u == x || u in among - {x};
      }
    }
  }

  class Helpdesk {
    var contacts: map<Id, Contact>
    var tickets: map<Id, Ticket>
    var messages: seq<Message>
    var nextId: Id

    ghost predicate Valid()
      reads this
    {
      && (forall c :: c in contacts ==> c < nextId)
      && (forall t :: t in tickets ==> t < nextId)
      && UniqueShortIds(tickets)
    }

    function Rows(): Db
      reads this
    {
      Db(contacts, tickets, messages)
    }

    constructor ()
      ensures Valid() && Rows() == Db(map[], map[], [])
    {
      contacts, tickets, messages, nextId := map[], map[], [], 0;
    }

    /** None when a lookup finds several contacts. */
    method FindOrCreateContact(workspace: Id, m: Inbound) returns (c: Option<Id>)
      requires Valid()
      modifies this`contacts, this`nextId
      ensures Valid() && nextId >= old(nextId)
      ensures c.None? ==> contacts == old(contacts) && LooksUp(old(contacts), workspace, m, Several)
      ensures c.Some? ==> ContactStep(old(contacts), workspace, m, c.value, contacts)
    {
      var hits := EmailHits(contacts, workspace, m.email);
      if |hits| > 1 {
        return None;
      }
      if hits == {} {
        hits := PhoneHits(contacts, workspace, m.phone);
        if |hits| > 1 {
          return None;
        }
      }
      if hits != {} {
        var known :| known in hits;
        SubsetIsNoLarger({known}, hits);
        contacts := contacts[known := Filled(contacts[known], m)];
        return Some(known);
      }
      var added := nextId;
      nextId := nextId + 1;
      contacts := contacts[added := Contact(workspace, m.name, m.email, m.phone, false)];
      return Some(added);
    }

    /**
     The target of a filing: the ticket replied to, the ticket named in the subject, the best recent
     ticket, or none.
     */
    method FindTarget(s: Setting, m: Inbound, contact: Id, asked: int) returns (target: Option<Id>)
      requires Valid() && !ReplyClash(Rows(), m)
      ensures Chooses(Rows(), s, m, contact, asked, target)
      ensures target.Some? ==> target.value in tickets
    {
      if m.inReplyTo.Some? {
        var prior := WithProviderId(messages, m.inReplyTo.value);
        if |prior| == 1 && prior[0].ticket.Some? && Usable(tickets, prior[0].ticket.value, s.policy) {
          return prior[0].ticket;
        }
      }
      var named := TokenTargets(tickets, s.workspace, m, s.policy);
      if named != {} {
        var t :| t in named;
        return Some(t);
      }
      var recent := Candidates(tickets, s, contact, asked);
      if recent != {} {
        ghost var best := BestExists(tickets, recent);
        var t :| t in recent && IsBest(tickets, recent, t);
        return Some(t);
      }
      return None;
    }

    /** `_reuse_or_create_ticket`; `shortId` is what the display id allocation comes back with. */
    method ReuseOrCreateTicket(s: Setting, m: Inbound, contact: Id, shortId: Option<string>, rd: Readings)
      returns (t: Option<Id>, created: bool)
      requires Valid() && !ReplyClash(Rows(), m)
      requires shortId.Some? ==> shortId.value !in ShortIds(tickets)
      modifies this`tickets, this`nextId
      ensures Valid() && nextId >= old(nextId)
      ensures t.None? ==>
                tickets == old(tickets) && shortId.None? && Chooses(old(Rows()), s, m, contact, rd.asked, None)
      ensures t.Some? && !created ==>
                Chooses(old(Rows()), s, m, contact, rd.asked, t) && t.value in tickets && tickets == old(tickets)
      ensures t.Some? && created ==>
                Chooses(old(Rows()), s, m, contact, rd.asked, None) && shortId.Some? && t.value !in old(tickets) &&
                tickets == old(tickets)[t.value := BlankTicket(s, m, contact, shortId.value, rd)]
    {
      t := FindTarget(s, m, contact, rd.asked);
      created := false;
      if t.Some? || shortId.None? {
        return;
      }
      t, created := Some(nextId), true;
      nextId := nextId + 1;
      tickets := tickets[t.value := BlankTicket(s, m, contact, shortId.value, rd)];
    }

    /** Reopen the ticket if it was done, and touch it. */
    method Receive(t: Id, s: Setting, c: Clock)
      requires Valid() && t in tickets
      modifies this`tickets
      ensures Valid()
      ensures tickets == old(tickets)[t := AfterAction(old(tickets[t]), Contacted(s.policy, s.agents), c)]
    {
      var row := new TicketRow(tickets[t], {});
      row.ReceiveContact(s.policy, s.agents, c);
      tickets := tickets[t := row.Row()];
    }

    /** Contact and ticket of one filing; every failure rolls the session back. */
    method Resolve(s: Setting, m: Inbound, shortId: Option<string>, rd: Readings) returns (r: Outcome)
      requires Valid()
      requires shortId.Some? ==> shortId.value !in ShortIds(tickets)
      modifies this`contacts, this`tickets, this`nextId
      ensures Valid()
      ensures r.Filed? ==> FiledStep(old(Rows()), s, m, shortId, rd, r, Rows())
      ensures !r.Filed? ==> Rows() == old(Rows()) && r in {Clash, NoShortId}
      ensures r == Clash ==> LooksUp(contacts, s.workspace, m, Several) || ReplyClash(Rows(), m)
      ensures r == NoShortId ==> shortId.None? && !LooksUp(contacts, s.workspace, m, Several)
      ensures r == NoShortId ==> NeedsNewTicket(Rows(), s, m, rd.asked)
    {
      ghost var before := Rows();
      var contactsBefore := contacts;
      var c := FindOrCreateContact(s.workspace, m);
      if c.None? || ReplyClash(Rows(), m) {
        contacts := contactsBefore;
        return Clash;
      }
      var t, created := ReuseOrCreateTicket(s, m, c.value, shortId, rd);
      if t.None? {
        assert ContactStep(contactsBefore, s.workspace, m, c.value, contacts);
        contacts := contactsBefore;
        return NoShortId;
      }
      Receive(t.value, s, rd.clock);
      return Filed(c.value, t.value, created);
    }

    /** `ingest_inbound_message`; without a channel account there is no setting. */
    method IngestInboundMessage(setting: Option<Setting>, m: Inbound, shortId: Option<string>, rd: Readings)
      returns (r: Outcome)
      requires Valid()
      requires shortId.Some? ==> shortId.value !in ShortIds(tickets)
      modifies this
      ensures Valid()
      ensures IngestStep(old(Rows()), setting, m, shortId, rd, r, Rows())
    {
      if setting.None? {
        return NoChannel;
      }
      if m.providerId.Some? {
        var existing := WithProviderId(messages, m.providerId.value);
        if |existing| > 1 {
          return Clash;
        }
        if |existing| == 1 {
          return Duplicate;
        }
      }
      r := Resolve(setting.value, m, shortId, rd);
      if r.Filed? {
        messages := messages + [Message(m.providerId, Some(r.ticket), r.contact, setting.value.channel)];
      }
    }

    /** `resolve_call_ticket`: a call carries a number and nothing else, and leaves no message. */
    method ResolveCallTicket(setting: Option<Setting>, fromNumber: string, shortId: Option<string>, rd: Readings)
      returns (r: Outcome)
      requires Valid()
      requires shortId.Some? ==> shortId.value !in ShortIds(tickets)
      modifies this`contacts, this`tickets, this`nextId
      ensures Valid()
      ensures r == NoChannel <==> setting.None?
      ensures !r.Filed? ==> Rows() == old(Rows())
      ensures r == Clash ==> LooksUp(contacts, setting.value.workspace, CallFrom(fromNumber), Several)
      ensures r == NoShortId ==>
                shortId.None? && NeedsNewTicket(Rows(), setting.value, CallFrom(fromNumber), rd.asked)
      ensures r != Duplicate
      ensures r.Filed? ==> FiledStep(old(Rows()), setting.value, CallFrom(fromNumber), shortId, rd, r, Rows())
    {
      if setting.None? {
        return NoChannel;
      }
      r := Resolve(setting.value, CallFrom(fromNumber), shortId, rd);
    }
  }
}
