/**
 What filing promises over many messages and calls: a conversation stays on one ticket, a reply finds
 its way back, a ticket the policy keeps shut stays shut, and every ticket keeps a sound lifecycle.
 */
module Conversation {
  import opened Basics
  import opened ReusePolicy
  import opened SubjectToken
  import opened Tickets
  import opened Inbound
  import EmailPoll
  import LookThenInsert
  import Mailbox

  // ---------------------------------------------------------------- the choice of a ticket

  /** There is always a choice. */
  lemma ChoiceExists(db: Db, s: Setting, m: Inbound, contact: Id, now: int) returns (target: Option<Id>)
    ensures Chooses(db, s, m, contact, now, target)
  {
    var named, recent := TokenTargets(db.tickets, s.workspace, m, s.policy), Candidates(db.tickets, s, contact, now);
    if ReplyTarget(db, m, s.policy).Some? {
      target := ReplyTarget(db, m, s.policy);
    } else if named != {} {
      var t :| t in named;
      target := Some(t);
    } else if recent != {} {
      var t := BestExists(db.tickets, recent);
      target := Some(t);
    } else {
      target := None;
    }
  }

  /** Two different choices are a tie of recent tickets, equally open and equally active. */
  lemma ChoiceIsDetermined(db: Db, s: Setting, m: Inbound, contact: Id, now: int, a: Option<Id>, b: Option<Id>)
    requires UniqueShortIds(db.tickets)
    requires Chooses(db, s, m, contact, now, a) && Chooses(db, s, m, contact, now, b)
    ensures a != b ==>
              && a.Some? && b.Some? && {a.value, b.value} <= Candidates(db.tickets, s, contact, now)
              && IsOpenStatus(db.tickets[a.value].status) == IsOpenStatus(db.tickets[b.value].status)
              && db.tickets[a.value].lastActivity == db.tickets[b.value].lastActivity
              && ReplyTarget(db, m, s.policy).None? && TokenTargets(db.tickets, s.workspace, m, s.policy) == {}
  {
  }

  /** The target had an allowed status and ends open, and every other ticket is left alone. */
  lemma FilingFollowsPolicy(db: Db, s: Setting, m: Inbound, shortId: Option<string>, rd: Readings,
                          r: Outcome, after: Db)
    requires FiledStep(db, s, m, shortId, rd, r, after)
    ensures !r.created ==> r.ticket in db.tickets && s.policy.AllowsStatus(db.tickets[r.ticket].status)
    ensures r.ticket in after.tickets && IsOpenStatus(after.tickets[r.ticket].status)
    ensures after.tickets.Keys == db.tickets.Keys + {r.ticket}
    ensures forall t :: t in db.tickets && t != r.ticket ==> after.tickets[t] == db.tickets[t]
  {
  }

  // ---------------------------------------------------------------- runs of filings

  datatype Filing = Filing(s: Setting, m: Inbound, shortId: Option<string>, rd: Readings, r: Outcome)

  /** Any messages and calls, under any policies. */
  ghost predicate Filings(run: seq<Db>, steps: seq<Filing>) {
    && |run| == |steps| + 1
    && forall i :: 0 <= i < |steps| ==>
         FiledStep(run[i], steps[i].s, steps[i].m, steps[i].shortId, steps[i].rd, steps[i].r, run[i + 1])
  }

  /** A ticket whose status no policy of the run lets reopen is never changed by inbound contact. */
  lemma {:induction false} ShutStaysShut(run: seq<Db>, steps: seq<Filing>, t: Id)
    requires Filings(run, steps) && t in run[0].tickets
    requires forall i :: 0 <= i < |steps| ==> !steps[i].s.policy.AllowsStatus(run[0].tickets[t].status)
    ensures t in run[|steps|].tickets && run[|steps|].tickets[t] == run[0].tickets[t]
    decreases |steps|
  {
    if steps != [] {
      var n := |steps| - 1;
      assert Filings(run[..n + 1], steps[..n]);
      ShutStaysShut(run[..n + 1], steps[..n], t);
      var f := steps[n];
      assert !f.s.policy.AllowsStatus(run[0].tickets[t].status);
      FilingFollowsPolicy(run[n], f.s, f.m, f.shortId, f.rd, f.r, run[n + 1]);
    }
  }

  /** With `reopen_closed` off, no closed ticket is ever changed. */
  lemma ClosedStaysClosed(run: seq<Db>, steps: seq<Filing>, t: Id)
    requires Filings(run, steps) && t in run[0].tickets && run[0].tickets[t].status == "closed"
    requires forall i :: 0 <= i < |steps| ==> !steps[i].s.policy.reopenClosed
    ensures t in run[|steps|].tickets && run[|steps|].tickets[t] == run[0].tickets[t]
  {
    ShutStaysShut(run, steps, t);
  }

  ghost predicate Sound(tickets: map<Id, Ticket>) {
    UniqueShortIds(tickets) && forall t :: t in tickets ==> Lifecycle(tickets[t])
  }

  /** Over any run of filings all tickets keep a sound lifecycle, their stamps and distinct display ids. */
  lemma {:induction false} FilingsKeepSound(run: seq<Db>, steps: seq<Filing>, t: Id)
    requires Filings(run, steps) && Sound(run[0].tickets) && t in run[0].tickets
    ensures Sound(run[|steps|].tickets)
    ensures t in run[|steps|].tickets
    ensures StampsKept(run[0].tickets[t], run[|steps|].tickets[t])
      && SameTicket(run[0].tickets[t], run[|steps|].tickets[t])
    decreases |steps|
  {
    if steps != [] {
      var n := |steps| - 1;
      assert Filings(run[..n + 1], steps[..n]);
      FilingsKeepSound(run[..n + 1], steps[..n], t);
      var f, db := steps[n], run[n];
      assert FiledStep(db, f.s, f.m, f.shortId, f.rd, f.r, run[n + 1]);
      var base := if f.r.created then BlankTicket(f.s, f.m, f.r.contact, f.shortId.value, f.rd)
                  else db.tickets[f.r.ticket];
      ActionKeepsLifecycle(base, Contacted(f.s.policy, f.s.agents), f.rd.clock);
    }
  }

  // ---------------------------------------------------------------- who is writing

  /**
   The next message with the same address is the same contact's, and changes nothing about it,
   exactly when it carries an email address or a phone number.
   */
  lemma SenderIsRecognised(
    contacts: map<Id, Contact>, workspace: Id, m: Inbound, c: Id, after: map<Id, Contact>,
    c': Id, after': map<Id, Contact>)
    requires ContactStep(contacts, workspace, m, c, after) && ContactStep(after, workspace, m, c', after')
    ensures c' == c <==> m.email.Some? || m.phone.Some?
    ensures c' == c ==> after' == after
  {
    var byEmail, byPhone := EmailHits(contacts, workspace, m.email), PhoneHits(contacts, workspace, m.phone);
    var byEmail', byPhone' := EmailHits(after, workspace, m.email), PhoneHits(after, workspace, m.phone);
    assert forall x :: x in after && x != c ==> x in contacts && after[x] == contacts[x];
    assert byEmail' - {c} == byEmail - {c} && byPhone' - {c} == byPhone - {c};
    if m.email.Some? || m.phone.Some? {
      assert byEmail' == {c} || (byEmail' == {} && byPhone' == {c});
    }
  }

  // ---------------------------------------------------------------- stickiness

  /** No reply header and no ticket token. */
  predicate Plain(m: Inbound) {
    m.inReplyTo.None? && Search(SubjectText(m)).None?
  }

  /** The tickets of one contact on one channel. */
  predicate Owns(t: Ticket, s: Setting, contact: Id) {
    t.workspace == s.workspace && t.contact == contact && t.channel == Some(s.channel)
  }

  /** Nothing happened to the contact's tickets on the channel. */
  ghost predicate Apart(before: map<Id, Ticket>, after: map<Id, Ticket>, s: Setting, contact: Id) {
    && (forall t :: t in before && Owns(before[t], s, contact) ==> t in after && after[t] == before[t])
    && (forall t :: t in after && Owns(after[t], s, contact) ==> t in before && after[t] == before[t])
  }

  datatype Event = Own(m: Inbound, shortId: Option<string>, rd: Readings, ticket: Id, created: bool) | Elsewhere

  ghost predicate EventStep(db: Db, s: Setting, contact: Id, e: Event, after: Db) {
    match e
    case Own(m, shortId, rd, t, created) => Plain(m) &&
      FiledStep(db, s, m, shortId, rd, Filed(contact, t, created), after)
    case Elsewhere => Apart(db.tickets, after.tickets, s, contact)
  }

  ghost predicate Conversation(run: seq<Db>, events: seq<Event>, s: Setting, contact: Id) {
    && |run| == |events| + 1
    && forall i :: 0 <= i < |events| ==> EventStep(run[i], s, contact, events[i], run[i + 1])
  }

  /** After a touch at `last`, no gap before the next own event exceeds the window, and clocks do not go back. */
  predicate Timely(events: seq<Event>, window: int, last: int)
    decreases |events|
  {
    if events == [] then true
    else if events[0].Elsewhere? then Timely(events[1..], window, last)
    else
      && events[0].rd.asked - last <= window && last <= events[0].rd.clock.touch
      && Timely(events[1..], window, events[0].rd.clock.touch)
  }

  /** The clock is ahead of all activity in the conversation. */
  ghost predicate AheadOf(tickets: map<Id, Ticket>, s: Setting, contact: Id, now: int) {
    forall t :: t in tickets && Owns(tickets[t], s, contact) ==> tickets[t].lastActivity < now
  }

  /** Ticket t is open and was touched last, at `last`. */
  ghost predicate Holds(tickets: map<Id, Ticket>, s: Setting, contact: Id, t: Id, last: int) {
    && t in tickets && Owns(tickets[t], s, contact)
    && IsOpenStatus(tickets[t].status) && tickets[t].lastActivity == last
    && forall u :: u in tickets && u != t && Owns(tickets[u], s, contact) ==> tickets[u].lastActivity < last
  }

  /** A plain filing takes the lead, whichever ticket it lands on. */
  lemma FilingTakesLead(db: Db, s: Setting, contact: Id, e: Event, after: Db)
    requires e.Own? && EventStep(db, s, contact, e, after)
    requires AheadOf(db.tickets, s, contact, e.rd.clock.touch)
    ensures Holds(after.tickets, s, contact, e.ticket, e.rd.clock.touch)
  {
    assert TokenTargets(db.tickets, s.workspace, e.m, s.policy) == {};
  }

  /** The ticket in the lead is the only choice of a plain filing within the window, and keeps the lead. */
  lemma LeadIsChosen(db: Db, s: Setting, contact: Id, e: Event, after: Db, t: Id, last: int)
    requires e.Own? && EventStep(db, s, contact, e, after)
    requires Holds(db.tickets, s, contact, t, last)
    requires e.rd.asked - last <= s.policy.window && last <= e.rd.clock.touch
    ensures e.ticket == t && !e.created
    ensures Holds(after.tickets, s, contact, t, e.rd.clock.touch)
  {
    assert TokenTargets(db.tickets, s.workspace, e.m, s.policy) == {};
    assert t in Candidates(db.tickets, s, contact, e.rd.asked);
  }

  lemma {:induction false} LeadIsKept(run: seq<Db>, events: seq<Event>, s: Setting, contact: Id, t: Id, last: int)
    requires Conversation(run, events, s, contact) && Timely(events, s.policy.window, last)
    requires Holds(run[0].tickets, s, contact, t, last)
    ensures forall i :: 0 <= i < |events| && events[i].Own? ==> events[i].ticket == t && !events[i].created
    decreases |events|
  {
    if events != [] {
      var e := events[0];
      assert EventStep(run[0], s, contact, e, run[1]);
      if e.Own? {
        LeadIsChosen(run[0], s, contact, e, run[1], t, last);
      }
      var run', events' := run[1..], events[1..];
      assert Conversation(run', events', s, contact) by {
        forall i | 0 <= i < |events'| ensures EventStep(run'[i], s, contact, events'[i], run'[i + 1]) {
          assert EventStep(run[i + 1], s, contact, events[i + 1], run[i + 2]);
        }
      }
      LeadIsKept(run', events', s, contact, t, if e.Own? then e.rd.clock.touch else last);
      forall i | 0 <= i < |events| && events[i].Own? ensures events[i].ticket == t && !events[i].created {
        assert i > 0 ==> events'[i - 1] == events[i];
      }
    }
  }

  /**
   A conversation sticks to one ticket: however many plain messages or calls one contact sends over
   one channel, with no gap longer than the window, they all land on the ticket of the first, and
   only the first can have created it; whatever happens to other contacts' tickets in between.
   */
  lemma ConversationSticks(run: seq<Db>, events: seq<Event>, s: Setting, contact: Id)
    requires Conversation(run, events, s, contact) && events != [] && events[0].Own?
    requires AheadOf(run[0].tickets, s, contact, events[0].rd.clock.touch)
    requires Timely(events[1..], s.policy.window, events[0].rd.clock.touch)
    ensures forall i :: 0 <= i < |events| && events[i].Own? ==>
              events[i].ticket == events[0].ticket && (events[i].created ==> i == 0)
  {
    assert EventStep(run[0], s, contact, events[0], run[1]);
    FilingTakesLead(run[0], s, contact, events[0], run[1]);
    var run', events' := run[1..], events[1..];
    assert Conversation(run', events', s, contact) by {
      forall i | 0 <= i < |events'| ensures EventStep(run'[i], s, contact, events'[i], run'[i + 1]) {
        assert EventStep(run[i + 1], s, contact, events[i + 1], run[i + 2]);
      }
    }
    LeadIsKept(run', events', s, contact, events[0].ticket, events[0].rd.clock.touch);
    forall i | 0 < i < |events| && events[i].Own?
      ensures events[i].ticket == events[0].ticket && !events[i].created
    {
      assert events'[i - 1] == events[i];
    }
  }

  /** Plain filings of another contact, or over another channel, leave the conversation alone. */
  lemma OthersStayApart(db: Db, s': Setting, m: Inbound, shortId: Option<string>, rd: Readings, r: Outcome, after: Db,
                        s: Setting, contact: Id)
    requires FiledStep(db, s', m, shortId, rd, r, after) && Plain(m)
    requires r.contact != contact || s'.channel != s.channel || s'.workspace != s.workspace
    ensures Apart(db.tickets, after.tickets, s, contact)
  {
    assert TokenTargets(db.tickets, s'.workspace, m, s'.policy) == {};
  }

  // ---------------------------------------------------------------- first messages that overlap

  /**
   A second message, looking while the first one is still to be committed, opens a second ticket; looking
   after its commit it lands on the first one's ticket. `seen` is the state it looks at.
   */
  lemma SecondTicketIff(before: Db, s: Setting, contact: Id, first: Event, between: Db, m: Inbound, asked: int,
                        seen: Db, target: Option<Id>)
    requires first.Own? && first.created && EventStep(before, s, contact, first, between)
    requires AheadOf(before.tickets, s, contact, first.rd.clock.touch)
    requires Plain(m) && asked - first.rd.clock.touch <= s.policy.window
    requires Candidates(before.tickets, s, contact, asked) == {}
    requires seen in {before, between} && Chooses(seen, s, m, contact, asked, target)
    ensures target == if seen == before then None else Some(first.ticket)
  {
    FilingTakesLead(before, s, contact, first, between);
    assert TokenTargets(seen.tickets, s.workspace, m, s.policy) == {};
    if seen == between {
      assert first.ticket in Candidates(between.tickets, s, contact, asked);
    }
  }

  /** A filing that creates adds one open ticket of the conversation. */
  lemma CreatedTicket(db: Db, s: Setting, contact: Id, e: Event, after: Db)
    requires e.Own? && e.created && EventStep(db, s, contact, e, after)
    ensures e.ticket !in db.tickets && after.tickets == db.tickets[e.ticket := after.tickets[e.ticket]]
    ensures Owns(after.tickets[e.ticket], s, contact) && IsOpenStatus(after.tickets[e.ticket].status)
  {
  }

  /** Two messages that both looked before either was committed leave two open tickets of the conversation. */
  lemma OverlapOpensTwo(db: Db, s: Setting, contact: Id, e: Event, f: Event, afterE: Db, afterF: Db)
    requires e.Own? && e.created && EventStep(db, s, contact, e, afterE)
    requires f.Own? && f.created && EventStep(db, s, contact, f, afterF) && f.ticket != e.ticket
    ensures f.ticket in afterF.tickets
    ensures var both := afterE.tickets[f.ticket := afterF.tickets[f.ticket]];
            && both.Keys == db.tickets.Keys + {e.ticket, f.ticket} && db.tickets.Keys !! {e.ticket, f.ticket}
            && Owns(both[e.ticket], s, contact) && IsOpenStatus(both[e.ticket].status)
            && Owns(both[f.ticket], s, contact) && IsOpenStatus(both[f.ticket].status)
  {
    CreatedTicket(db, s, contact, e, afterE);
    CreatedTicket(db, s, contact, f, afterF);
  }

  // ---------------------------------------------------------------- finding the way back

  /**
   The subject an agent's email prints for a ticket, sent back behind any reply prefix, is filed on
   that ticket and no other, for whatever sender; provided the stored subject names no other ticket
   and the policy still allows the ticket.
   */
  lemma PrintedSubjectReturns(db: Db, s: Setting, m: Inbound, contact: Id, now: int, t: Id,
                             prefix: string, target: Option<Id>)
    requires t in db.tickets && UniqueShortIds(db.tickets)
    requires var ticket := db.tickets[t];
             && ticket.workspace == s.workspace && s.policy.AllowsStatus(ticket.status)
             && IsShortId(ticket.shortId) && '[' !in prefix
             && m.subject == Some(prefix + OutboundSubject(ticket.subject, Some(ticket.shortId)))
             && Search(BaseSubject(ticket.subject)) in {None, Some(ticket.shortId)}
    requires ReplyTarget(db, m, s.policy).None?
    ensures Chooses(db, s, m, contact, now, target) <==> target == Some(t)
  {
    TokenRoundTrip(db.tickets[t].subject, db.tickets[t].shortId, prefix);
    assert t in TokenTargets(db.tickets, s.workspace, m, s.policy);
  }

  /** A stored subject that names another ticket first sends the reply there. */
  lemma ForeignTokenLeadsAway(db: Db, s: Setting, m: Inbound, contact: Id, now: int, t: Id,
                             u: Id, prefix: string, target: Option<Id>)
    requires t in db.tickets && u in db.tickets && UniqueShortIds(db.tickets)
    requires var ticket := db.tickets[t];
             && IsShortId(ticket.shortId) && '[' !in prefix
             && m.subject == Some(prefix + OutboundSubject(ticket.subject, Some(ticket.shortId)))
             && Search(BaseSubject(ticket.subject)) == Some(db.tickets[u].shortId)
    requires db.tickets[u].workspace == s.workspace && s.policy.AllowsStatus(db.tickets[u].status)
    requires ReplyTarget(db, m, s.policy).None?
    ensures Chooses(db, s, m, contact, now, target) <==> target == Some(u)
  {
    var ticket := db.tickets[t];
    PrefixIsTransparent(prefix, OutboundSubject(ticket.subject, Some(ticket.shortId)));
    AppendedTokenIsFound(BaseSubject(ticket.subject), ticket.shortId);
    assert u in TokenTargets(db.tickets, s.workspace, m, s.policy);
  }

  /** A reply to a stored message goes to that message's ticket, in whatever workspace the ticket is. */
  lemma ReplyHeaderReturns(db: Db, s: Setting, m: Inbound, contact: Id, now: int, stored: Message, target: Option<Id>)
    requires stored.providerId.Some? && m.inReplyTo == stored.providerId
    requires WithProviderId(db.messages, stored.providerId.value) == []
    requires stored.ticket.Some? && Usable(db.tickets, stored.ticket.value, s.policy)
    ensures Chooses(db.(messages := db.messages + [stored]), s, m, contact, now, target) <==> target == stored.ticket
  {
    var messages := db.messages + [stored];
    assert messages[..|messages| - 1] == db.messages;
  }

  /** The target lies outside the sender's workspace exactly when the ticket replied to does. */
  lemma TargetIsForeignIff(db: Db, s: Setting, m: Inbound, contact: Id, now: int, target: Option<Id>)
    requires Chooses(db, s, m, contact, now, target)
    ensures target.Some? ==> target.value in db.tickets
    ensures target.Some? && db.tickets[target.value].workspace != s.workspace <==>
            ReplyTarget(db, m, s.policy).Some? &&
            db.tickets[ReplyTarget(db, m, s.policy).value].workspace != s.workspace
  {
  }

  /** So a filing puts a contact of one workspace on a ticket of another exactly in that case. */
  lemma FilingCrossesIff(
    db: Db, s: Setting, m: Inbound, shortId: Option<string>, rd: Readings, r: Outcome, after: Db)
    requires FiledStep(db, s, m, shortId, rd, r, after)
    ensures r.contact in after.contacts && r.ticket in after.tickets
    ensures after.contacts[r.contact].workspace != after.tickets[r.ticket].workspace <==>
            ReplyTarget(db, m, s.policy).Some? &&
            db.tickets[ReplyTarget(db, m, s.policy).value].workspace != s.workspace
  {
    TargetIsForeignIff(db, s, m, r.contact, rd.asked, if r.created then None else Some(r.ticket));
    var c := r.contact;
    if LooksUp(db.contacts, s.workspace, m, Found(c)) {
      assert c in EmailHits(db.contacts, s.workspace, m.email) || c in PhoneHits(db.contacts, s.workspace, m.phone);
    }
  }

  /** A reply to a message on a foreign ticket: it is filed there, for a contact of the sender's own workspace. */
  lemma ForeignReplyIsFiled(db: Db, s: Setting, m: Inbound, shortId: Option<string>, rd: Readings,
                          r: Outcome, after: Db,
                            stored: Message)
    requires stored.providerId.Some? && m.inReplyTo == stored.providerId
    requires WithProviderId(db.messages, stored.providerId.value) == []
    requires stored.ticket.Some? && Usable(db.tickets, stored.ticket.value, s.policy)
    requires db.tickets[stored.ticket.value].workspace != s.workspace
    requires FiledStep(db.(messages := db.messages + [stored]), s, m, shortId, rd, r, after)
    ensures Some(r.ticket) == stored.ticket && !r.created
    ensures r.contact in after.contacts && r.ticket in after.tickets
    ensures after.contacts[r.contact].workspace == s.workspace != after.tickets[r.ticket].workspace
  {
    var db' := db.(messages := db.messages + [stored]);
    assert db'.messages[..|db'.messages| - 1] == db.messages;
    assert ReplyTarget(db', m, s.policy) == stored.ticket;
    FilingCrossesIff(db', s, m, shortId, rd, r, after);
    var c := r.contact;
    if LooksUp(db.contacts, s.workspace, m, Found(c)) {
      assert c in EmailHits(db.contacts, s.workspace, m.email) || c in PhoneHits(db.contacts, s.workspace, m.phone);
    }
  }

  // ---------------------------------------------------------------- deliveries of one message

  function ProviderIds(messages: seq<Message>): (ids: seq<Option<string>>)
    ensures |ids| == |messages|
    ensures forall i :: 0 <= i < |ids| ==> ids[i] == messages[i].providerId
  {
    seq(|messages|, i requires 0 <= i < |messages| => messages[i].providerId)
  }

  lemma {:induction false} StoredUnderId(messages: seq<Message>, id: string)
    ensures |WithProviderId(messages, id)| == multiset(ProviderIds(messages))[Some(id)]
  {
    if messages != [] {
      var init, last := messages[..|messages| - 1], messages[|messages| - 1];
      StoredUnderId(init, id);
      assert ProviderIds(messages) == ProviderIds(init) + [last.providerId];
    }
  }

  /**
   An ingest adds and drops rows just as the poller counts on. An ingest that clashes or finds no display
   id raises something other than ValueError: it stores nothing, and the poller ends there.
   */
  lemma IngestIsWhatPollsSee(db: Db, setting: Option<Setting>, m: Inbound, shortId: Option<string>, rd: Readings,
                             r: Outcome, after: Db, mail: Mailbox.Mail)
    requires IngestStep(db, setting, m, shortId, rd, r, after)
    requires EmailPoll.Deduplicated(ProviderIds(db.messages))
    requires mail.messageId == m.providerId && mail.resolves == setting.Some? && !mail.fromOwn
    ensures r in {Clash, NoShortId} ==> after == db
    ensures r !in {Clash, NoShortId} ==>
              ProviderIds(after.messages) == EmailPoll.Ingest(ProviderIds(db.messages), mail)
  {
    if m.providerId.Some? {
      StoredUnderId(db.messages, m.providerId.value);
    }
    if r.Filed? {
      assert ProviderIds(after.messages) == ProviderIds(db.messages) + [m.providerId];
    }
  }

  datatype Arrival = Arrival(setting: Option<Setting>, m: Inbound, shortId: Option<string>, rd: Readings, r: Outcome)

  ghost predicate Arrivals(run: seq<Db>, ds: seq<Arrival>) {
    && |run| == |ds| + 1
    && EmailPoll.Deduplicated(ProviderIds(run[0].messages))
    && forall i :: 0 <= i < |ds| ==>
         IngestStep(run[i], ds[i].setting, ds[i].m, ds[i].shortId, ds[i].rd, ds[i].r, run[i + 1])
  }

  lemma IngestKeepsOne(db: Db, d: Arrival, after: Db)
    requires IngestStep(db, d.setting, d.m, d.shortId, d.rd, d.r, after)
    requires EmailPoll.Deduplicated(ProviderIds(db.messages))
    ensures EmailPoll.Deduplicated(ProviderIds(after.messages))
    ensures d.r == Duplicate || d.r.Filed? ==> d.m.providerId in ProviderIds(after.messages)
  {
    if d.m.providerId.Some? {
      StoredUnderId(db.messages, d.m.providerId.value);
    }
    if d.r.Filed? {
      assert ProviderIds(after.messages) == ProviderIds(db.messages) + [d.m.providerId];
      assert ProviderIds(after.messages)[|db.messages|] == d.m.providerId;
    }
  }

  lemma {:induction false} StaysDeduplicated(run: seq<Db>, ds: seq<Arrival>, n: nat)
    requires Arrivals(run, ds) && n <= |ds|
    ensures EmailPoll.Deduplicated(ProviderIds(run[n].messages))
  {
    if n > 0 {
      StaysDeduplicated(run, ds, n - 1);
      IngestKeepsOne(run[n - 1], ds[n - 1], run[n]);
    }
  }

  lemma IngestAppends(db: Db, d: Arrival, after: Db)
    requires IngestStep(db, d.setting, d.m, d.shortId, d.rd, d.r, after)
    ensures db.messages <= after.messages
  {
  }

  lemma {:induction false} MessagesAreKept(run: seq<Db>, ds: seq<Arrival>, i: nat, n: nat)
    requires Arrivals(run, ds) && i <= n <= |ds|
    ensures run[i].messages <= run[n].messages
    decreases n - i
  {
    if i < n {
      MessagesAreKept(run, ds, i, n - 1);
      IngestAppends(run[n - 1], ds[n - 1], run[n]);
    }
  }

  /**
   However often a provider delivers a message, one delivery after the other, it has exactly one row
   ever after the first that was accepted, and no two rows share a provider id.
   */
  lemma EachMessageOnce(run: seq<Db>, ds: seq<Arrival>, i: nat, n: nat)
    requires Arrivals(run, ds) && i < n <= |ds| && ds[i].m.providerId.Some?
    ensures ds[i].r == Duplicate || ds[i].r.Filed? ==> multiset(ProviderIds(run[n].messages))[ds[i].m.providerId] == 1
    ensures multiset(ProviderIds(run[n].messages))[ds[i].m.providerId] <= 1
  {
    var id, ids, idsThen := ds[i].m.providerId, ProviderIds(run[n].messages), ProviderIds(run[i + 1].messages);
    StaysDeduplicated(run, ds, i);
    StaysDeduplicated(run, ds, n);
    IngestKeepsOne(run[i], ds[i], run[i + 1]);
    MessagesAreKept(run, ds, i + 1, n);
    EmailPoll.DeduplicatedCount(ids, id);
    if k :| 0 <= k < |idsThen| && idsThen[k] == id {
      assert ids[k] == id;
    }
  }

  /** One worker alone, before and after a delivery. */
  function Alone(messages: seq<Message>, w: LookThenInsert.WorkerId): LookThenInsert.System<Option<string>> {
    LookThenInsert.System(ProviderIds(messages), map[w := LookThenInsert.Idle])
  }

  lemma InsertAlone(messages: seq<Message>, added: Message, w: LookThenInsert.WorkerId)
    returns (steps: seq<LookThenInsert.Step<Option<string>>>, run: seq<LookThenInsert.System<Option<string>>>)
    requires added.providerId !in ProviderIds(messages)
    ensures LookThenInsert.Execution(run, steps) && steps != []
    ensures steps[0] == LookThenInsert.Look(w, added.providerId)
    ensures run[0] == Alone(messages, w) && run[|steps|] == Alone(messages + [added], w)
  {
    var id, x := added.providerId, Alone(messages, w);
    var x1 := LookThenInsert.After(x, LookThenInsert.Look(w, id));
    assert w in LookThenInsert.InFlight(x1, id);
    var steps', run' := LookThenInsert.Finish(x1, w, id);
    LookThenInsert.Append([x, x1], [LookThenInsert.Look(w, id)], run', steps');
    steps, run := [LookThenInsert.Look(w, id)] + steps', [x, x1] + run'[1..];
    assert ProviderIds(messages + [added]) == ProviderIds(messages) + [id];
    assert x1.workers[w := LookThenInsert.Idle] == x.workers;
  }

  /** One delivery with nothing in between is a look that finds the row, or a look, a write and a commit. */
  lemma IngestIsLookThenInsert(db: Db, d: Arrival, after: Db, w: LookThenInsert.WorkerId)
    returns (steps: seq<LookThenInsert.Step<Option<string>>>, run: seq<LookThenInsert.System<Option<string>>>)
    requires IngestStep(db, d.setting, d.m, d.shortId, d.rd, d.r, after)
    requires d.m.providerId.Some? && (d.r.Filed? || d.r == Duplicate)
    ensures LookThenInsert.Execution(run, steps) && steps != []
    ensures steps[0] == LookThenInsert.Look(w, d.m.providerId)
    ensures run[0] == Alone(db.messages, w) && run[|steps|] == Alone(after.messages, w)
  {
    var id := d.m.providerId;
    StoredUnderId(db.messages, id.value);
    if d.r.Filed? {
      steps, run := InsertAlone(db.messages, Message(id, Some(d.r.ticket), d.r.contact, d.setting.value.channel), w);
    } else {
      var x := Alone(db.messages, w);
      steps, run := [LookThenInsert.Look(w, id)], [x, LookThenInsert.After(x, LookThenInsert.Look(w, id))];
    }
  }

  /** Once an id has two rows, whoever delivers it again is refused with an error. */
  lemma DoubledIdClashes(db: Db, d: Arrival, after: Db)
    requires IngestStep(db, d.setting, d.m, d.shortId, d.rd, d.r, after)
    requires d.m.providerId.Some? && multiset(ProviderIds(db.messages))[d.m.providerId] >= 2
    ensures d.r == (if d.setting.None? then NoChannel else Clash) && after == db
  {
    StoredUnderId(db.messages, d.m.providerId.value);
  }

  /** Once an address has two contacts, whoever writes from it is refused; only repeated messages are still dropped. */
  lemma DoubledContactClashes(db: Db, d: Arrival, after: Db)
    requires IngestStep(db, d.setting, d.m, d.shortId, d.rd, d.r, after)
    requires d.setting.Some? && LooksUp(db.contacts, d.setting.value.workspace, d.m, Several)
    ensures d.r in {Duplicate, Clash} && after == db
  {
  }
}
