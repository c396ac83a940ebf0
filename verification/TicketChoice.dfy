/**
 What filing inbound contact comes to, said by the stored rows alone: whose ticket is reused and which
 of several, when a done ticket is reopened, and what a new ticket and a contact look like.
 */
module TicketChoice {
  import opened Basics
  import opened ReusePolicy
  import opened SubjectToken
  import opened Tickets
  import opened Inbound

  // ---------------------------------------------------------------- statuses

  predicate OpenNow(t: Ticket) {
    t.status == "open" || t.status == "pending" || t.status == "waiting"
  }

  /** A done ticket that the policy lets inbound contact reopen. */
  predicate MayReopen(t: Ticket, p: Effective) {
    (t.status == "resolved" && p.reopenResolved) || (t.status == "closed" && p.reopenClosed)
  }

  // ---------------------------------------------------------------- the reply header and the subject

  /** Message i carries the id, and is the only one. */
  ghost predicate OnlyOne(messages: seq<Message>, id: string, i: nat) {
    && i < |messages| && messages[i].providerId == Some(id)
    && forall j :: 0 <= j < |messages| && messages[j].providerId == Some(id) ==> j == i
  }

  lemma {:induction false} WithIdMeans(messages: seq<Message>, id: string)
    ensures WithProviderId(messages, id) == [] <==>
              forall j :: 0 <= j < |messages| ==> messages[j].providerId != Some(id)
    ensures |WithProviderId(messages, id)| == 1 <==> exists i: nat :: OnlyOne(messages, id, i)
    ensures forall i: nat :: OnlyOne(messages, id, i) ==> WithProviderId(messages, id) == [messages[i]]
  {
    if messages != [] {
      var n := |messages| - 1;
      var init := messages[..n];
      WithIdMeans(init, id);
      assert forall j :: 0 <= j < n ==> init[j] == messages[j];
      if messages[n].providerId != Some(id) {
        assert forall i: nat :: OnlyOne(messages, id, i) <==> OnlyOne(init, id, i);
      } else if WithProviderId(init, id) == [] {
        assert OnlyOne(messages, id, n);
      } else {
        assert forall i: nat :: OnlyOne(messages, id, i) ==> i == n;
      }
    }
  }

  /** The only message with the id replied to lies on ticket t, and the policy allows the ticket. */
  ghost predicate Answers(db: Db, m: Inbound, p: Effective, t: Id) {
    && t in db.tickets && (OpenNow(db.tickets[t]) || MayReopen(db.tickets[t], p))
    && m.inReplyTo.Some?
    && exists i: nat :: OnlyOne(db.messages, m.inReplyTo.value, i) && db.messages[i].ticket == Some(t)
  }

  lemma AnswersIff(db: Db, m: Inbound, p: Effective, t: Id)
    ensures ReplyTarget(db, m, p) == Some(t) <==> Answers(db, m, p, t)
  {
    if m.inReplyTo.Some? {
      WithIdMeans(db.messages, m.inReplyTo.value);
    }
  }

  /** The first token of the subject is the display id of this ticket of the workspace, and the policy allows it. */
  ghost predicate Names(db: Db, s: Setting, m: Inbound, t: Id) {
    && t in db.tickets && (OpenNow(db.tickets[t]) || MayReopen(db.tickets[t], s.policy))
    && db.tickets[t].workspace == s.workspace
    && m.subject.Some? && Search(m.subject.value) == Some(db.tickets[t].shortId)
  }

  lemma NamesIff(db: Db, s: Setting, m: Inbound, t: Id)
    ensures t in TokenTargets(db.tickets, s.workspace, m, s.policy) <==> Names(db, s, m, t)
  {
    assert m.subject.None? ==> Search(SubjectText(m)) == None;
  }

  // ---------------------------------------------------------------- recent tickets

  predicate ActiveSince(t: Ticket, from: int) {
    || from <= t.lastActivity || from <= t.updatedAt
    || (t.resolvedAt.Some? && from <= t.resolvedAt.value)
    || (t.closedAt.Some? && from <= t.closedAt.value)
  }

  /** A ticket of the contact on the channel that was active within the window and may be reused. */
  predicate Reusable(t: Ticket, s: Setting, contact: Id, now: int) {
    && t.workspace == s.workspace && t.contact == contact && t.channel == Some(s.channel)
    && (OpenNow(t) || MayReopen(t, s.policy))
    && ActiveSince(t, now - s.policy.window)
  }

  lemma ReusableIff(tickets: map<Id, Ticket>, s: Setting, contact: Id, now: int, t: Id)
    ensures t in Candidates(tickets, s, contact, now) <==> t in tickets && Reusable(tickets[t], s, contact, now)
  {
  }

  // ---------------------------------------------------------------- which ticket it is

  /** First the ticket of the message replied to. */
  lemma ReplyGoesFirst(db: Db, s: Setting, m: Inbound, shortId: Option<string>, rd: Readings, r: Outcome, after: Db,
                       t: Id)
    requires FiledStep(db, s, m, shortId, rd, r, after) && Answers(db, m, s.policy, t)
    ensures !r.created && r.ticket == t
  {
    AnswersIff(db, m, s.policy, t);
  }

  /** Then a ticket the subject names. */
  lemma TokenGoesSecond(db: Db, s: Setting, m: Inbound, shortId: Option<string>, rd: Readings, r: Outcome, after: Db,
                        t: Id)
    requires FiledStep(db, s, m, shortId, rd, r, after) && Names(db, s, m, t)
    requires forall u :: !Answers(db, m, s.policy, u)
    ensures !r.created && Names(db, s, m, r.ticket)
  {
    NoAnswer(db, m, s.policy);
    NamesIff(db, s, m, t);
    NamesIff(db, s, m, r.ticket);
  }

  lemma NoAnswer(db: Db, m: Inbound, p: Effective)
    requires forall t :: !Answers(db, m, p, t)
    ensures ReplyTarget(db, m, p) == None
  {
    if ReplyTarget(db, m, p).Some? {
      AnswersIff(db, m, p, ReplyTarget(db, m, p).value);
    }
  }

  /**
   Then the contact's recent tickets, open ones first: a ticket is reused exactly if there is a reusable
   one; if any of them is open, it is an open one and no open one was active later; otherwise it is a
   done one the policy lets reopen, and no such one was active later.
   */
  lemma OpenGoesFirst(db: Db, s: Setting, m: Inbound, shortId: Option<string>, rd: Readings, r: Outcome, after: Db)
    requires FiledStep(db, s, m, shortId, rd, r, after)
    requires forall t :: !Answers(db, m, s.policy, t) && !Names(db, s, m, t)
    ensures !r.created <==> exists u :: u in db.tickets && Reusable(db.tickets[u], s, r.contact, rd.asked)
    ensures !r.created ==> r.ticket in db.tickets && Reusable(db.tickets[r.ticket], s, r.contact, rd.asked)
    ensures !r.created ==>
              forall u :: u in db.tickets && Reusable(db.tickets[u], s, r.contact, rd.asked) ==>
                var t, other := db.tickets[r.ticket], db.tickets[u];
                && (OpenNow(other) ==> OpenNow(t))
                && (OpenNow(other) || !OpenNow(t) ==> other.lastActivity <= t.lastActivity)
  {
    NoAnswer(db, m, s.policy);
    forall t ensures t !in TokenTargets(db.tickets, s.workspace, m, s.policy) {
      NamesIff(db, s, m, t);
    }
    assert TokenTargets(db.tickets, s.workspace, m, s.policy) == {};
    forall u ensures u in Candidates(db.tickets, s, r.contact, rd.asked) <==>
                       u in db.tickets && Reusable(db.tickets[u], s, r.contact, rd.asked) {
      ReusableIff(db.tickets, s, r.contact, rd.asked, u);
    }
  }

  /** So a done ticket is reopened only if the conversation has no recent open one. */
  lemma ReopenedOnlyIfNoneOpen(db: Db, s: Setting, m: Inbound, shortId: Option<string>, rd: Readings, r: Outcome,
                               after: Db)
    requires FiledStep(db, s, m, shortId, rd, r, after)
    requires forall t :: !Answers(db, m, s.policy, t) && !Names(db, s, m, t)
    requires r.ticket in db.tickets && db.tickets[r.ticket].status in {"resolved", "closed"}
    ensures !exists u ::
              && u in db.tickets && db.tickets[u].status in {"open", "pending", "waiting"}
              && db.tickets[u].workspace == s.workspace && db.tickets[u].contact == r.contact
              && db.tickets[u].channel == Some(s.channel)
              && ActiveSince(db.tickets[u], rd.asked - s.policy.window)
  {
    OpenGoesFirst(db, s, m, shortId, rd, r, after);
    assert forall u :: u in db.tickets && OpenNow(db.tickets[u]) ==>
                         !Reusable(db.tickets[u], s, r.contact, rd.asked);
  }

  // ---------------------------------------------------------------- what the rows look like afterwards

  /** A new ticket is open, unassigned and unanswered, and carries the given display id. */
  lemma NewTicketMeans(db: Db, s: Setting, m: Inbound, shortId: Option<string>, rd: Readings, r: Outcome, after: Db)
    requires FiledStep(db, s, m, shortId, rd, r, after) && r.created
    ensures shortId.Some? && forall t :: t in db.tickets ==> db.tickets[t].shortId != shortId.value
    ensures r.ticket !in db.tickets && r.ticket in after.tickets
    ensures after.tickets[r.ticket] == Ticket(
              s.workspace, r.contact, Some(s.channel), after.tickets[r.ticket].subject, "normal", shortId.value, "open",
              None, rd.clock.touch, rd.clock.db, if m.occurredAt.Some? then m.occurredAt.value else rd.created,
              None, None, None, None)
  {
  }

  /** Its subject: the one given, or what the message begins with, or how it came and from whom. */
  lemma NewSubjectMeans(db: Db, s: Setting, m: Inbound, shortId: Option<string>, rd: Readings, r: Outcome, after: Db)
    requires FiledStep(db, s, m, shortId, rd, r, after) && r.created
    ensures r.ticket in after.tickets
    ensures var subject := after.tickets[r.ticket].subject;
            var untitled := m.subject.None? && m.preview == "";
            var opening := if s.kind == "voice" then "Call from "
                           else if s.kind == "messaging" then "WhatsApp from " else "Email from ";
            && (m.subject.Some? ==> subject == m.subject)
            && (m.subject.None? && m.preview != "" ==> subject == Some(m.preview))
            && (untitled && m.name.Some? ==> subject == Some(opening + m.name.value))
            && (untitled && m.name.None? && m.phone.Some? ==> subject == Some(opening + m.phone.value))
            && (untitled && m.name.None? && m.phone.None? && m.email.Some? ==>
                  subject == Some(opening + m.email.value))
            && (untitled && m.name.None? && m.phone.None? && m.email.None? ==> subject == Some(opening + "None"))
  {
  }

  /** A reused ticket ends open, without the times of its end if it was done; no other ticket changes. */
  lemma ReusedTicketMeans(db: Db, s: Setting, m: Inbound, shortId: Option<string>, rd: Readings, r: Outcome,
                          after: Db)
    requires FiledStep(db, s, m, shortId, rd, r, after) && !r.created
    ensures r.ticket in db.tickets && after.tickets == db.tickets[r.ticket := after.tickets[r.ticket]]
    ensures OpenNow(db.tickets[r.ticket]) || MayReopen(db.tickets[r.ticket], s.policy)
    ensures OpenNow(after.tickets[r.ticket])
    ensures var t, t' := db.tickets[r.ticket], after.tickets[r.ticket];
            && (OpenNow(t) ==> t' == t.(lastActivity := rd.clock.touch, updatedAt := rd.clock.db))
            && (!OpenNow(t) ==> t' == t.(status := "open", statusEnteredAt := rd.clock.now, resolvedAt := None,
                                         closedAt := None, lastActivity := rd.clock.touch,
                                         updatedAt := rd.clock.db, assignee := t'.assignee))
  {
  }

  // ---------------------------------------------------------------- the contact

  /** A contact of the workspace that is not deleted and carries the email address. */
  predicate LiveEmail(c: Contact, workspace: Id, m: Inbound) {
    !c.deleted && c.workspace == workspace && m.email.Some? && c.email == m.email
  }

  predicate LivePhone(c: Contact, workspace: Id, m: Inbound) {
    !c.deleted && c.workspace == workspace && m.phone.Some? && c.phone == m.phone
  }

  /**
   The sender is the only contact with its email address; if there is none, the only one with its phone
   number; if there is none either, a new one with what the message says.
   */
  lemma SenderMeans(contacts: map<Id, Contact>, workspace: Id, m: Inbound, c: Id, after: map<Id, Contact>)
    requires ContactStep(contacts, workspace, m, c, after)
    ensures c in contacts && (exists x :: x in contacts && LiveEmail(contacts[x], workspace, m)) ==>
              LiveEmail(contacts[c], workspace, m) &&
              forall x :: x in contacts && LiveEmail(contacts[x], workspace, m) ==> x == c
    ensures c in contacts && !(exists x :: x in contacts && LiveEmail(contacts[x], workspace, m)) ==>
              LivePhone(contacts[c], workspace, m) &&
              forall x :: x in contacts && LivePhone(contacts[x], workspace, m) ==> x == c
    ensures c !in contacts <==> forall x :: x in contacts ==>
              !LiveEmail(contacts[x], workspace, m) && !LivePhone(contacts[x], workspace, m)
    ensures c !in contacts ==> after == contacts[c := Contact(workspace, m.name, m.email, m.phone, false)]
  {
    var byEmail, byPhone := EmailHits(contacts, workspace, m.email), PhoneHits(contacts, workspace, m.phone);
    forall x ensures x in byEmail <==> x in contacts && LiveEmail(contacts[x], workspace, m) {
    }
    forall x ensures x in byPhone <==> x in contacts && LivePhone(contacts[x], workspace, m) {
    }
  }

  /** A lookup is ambiguous exactly if two contacts share the email address, or, where none has it, the number. */
  lemma SeveralMeans(contacts: map<Id, Contact>, workspace: Id, m: Inbound)
    ensures LooksUp(contacts, workspace, m, Several) <==>
              if exists x :: x in contacts && LiveEmail(contacts[x], workspace, m)
              then exists x, y :: x in contacts && y in contacts && x != y &&
                     LiveEmail(contacts[x], workspace, m) && LiveEmail(contacts[y], workspace, m)
              else exists x, y :: x in contacts && y in contacts && x != y &&
                     LivePhone(contacts[x], workspace, m) && LivePhone(contacts[y], workspace, m)
  {
    var byEmail, byPhone := EmailHits(contacts, workspace, m.email), PhoneHits(contacts, workspace, m.phone);
    forall x ensures x in byEmail <==> x in contacts && LiveEmail(contacts[x], workspace, m) {
    }
    forall x ensures x in byPhone <==> x in contacts && LivePhone(contacts[x], workspace, m) {
    }
    MoreThanOne(byEmail);
    MoreThanOne(byPhone);
  }

  lemma MoreThanOne(s: set<Id>)
    ensures |s| > 1 <==> exists x, y :: x in s && y in s && x != y
    ensures s == {} <==> !exists x :: x in s
  {
    if x, y :| x in s && y in s && x != y {
      SubsetIsNoLarger({x, y}, s);
    } else if x :| x in s {
      assert s == {x};
    }
  }

  /** A filing fails for want of a display id only where nothing could be reused. */
  lemma NoShortIdMeans(db: Db, s: Setting, m: Inbound, asked: int) returns (c: Id)
    requires NeedsNewTicket(db, s, m, asked)
    ensures forall t :: !Answers(db, m, s.policy, t) && !Names(db, s, m, t)
    ensures exists contacts :: ContactStep(db.contacts, s.workspace, m, c, contacts)
    ensures forall t :: t in db.tickets ==> !Reusable(db.tickets[t], s, c, asked)
  {
    var sender, contacts :| ContactStep(db.contacts, s.workspace, m, sender, contacts) &&
                            Chooses(db, s, m, sender, asked, None);
    c := sender;
    forall t ensures !Answers(db, m, s.policy, t) && !Names(db, s, m, t) {
      AnswersIff(db, m, s.policy, t);
      NamesIff(db, s, m, t);
    }
    forall t | t in db.tickets ensures !Reusable(db.tickets[t], s, c, asked) {
      ReusableIff(db.tickets, s, c, asked, t);
    }
  }

  /** A known contact keeps its name and addresses and learns only those it lacks; no other contact changes. */
  lemma KnownIsKept(contacts: map<Id, Contact>, workspace: Id, m: Inbound, c: Id, after: map<Id, Contact>)
    requires ContactStep(contacts, workspace, m, c, after) && c in contacts
    ensures after == contacts[c := after[c]]
    ensures var was, now := contacts[c], after[c];
            && now.name == (if was.name.None? then m.name else was.name)
            && now.email == (if was.email.None? then m.email else was.email)
            && now.phone == (if was.phone.None? then m.phone else was.phone)
            && now.workspace == was.workspace && now.deleted == was.deleted
  {
  }
}
