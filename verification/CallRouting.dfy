/**
 The routing webhook: the provider asks whom an incoming call should ring. The call's ticket is
 resolved, an agent chosen unless the ticket has one, and the call recorded. The provider repeats the
 question when it pleases, so a repeated question must get the same answer.
 */
module CallRouting {
  import opened Basics
  import opened Tickets
  import opened Inbound
  import opened Conversation
  import opened VoiceRouting

  type UserId = Tickets.UserId
  type CallKey = (Id, string)   // workspace and provider call id: unique for one provider

  datatype Call = Call(contact: Id, ticket: Id, agent: Option<UserId>,
                       fromNumber: string, toNumber: string, status: string)

  datatype State = State(db: Db, roster: Roster, calls: map<CallKey, Call>)

  /** What the provider asks; `focus` is the channel's routing policy, if it has one. */
  datatype Ring = Ring(s: Setting, focus: Option<bool>, fromNumber: string, toNumber: string, callSid: string) {
    function Key(): CallKey {
      (s.workspace, callSid)
    }
  }

  /** One delivery of the question. `raced` is a row for the call that another delivery commits meanwhile. */
  datatype Delivery = Delivery(shortId: Option<string>, rd: Readings, stamp: int, raced: Option<Call>)

  datatype Answer = Answer(contact: Id, ticket: Id, created: bool, agent: Option<UserId>, sipUser: Option<string>)

  datatype Reply =
    | BadRequest               // From, To or CallSid is missing
    | Failed(reason: Outcome)  // the ticket could not be resolved
    | Replied(answer: Answer)  // the SIP user to ring, or an empty answer

  // ---------------------------------------------------------------- what one delivery does

  /** The SIP user of an agent with an active voice identity in the workspace. */
  function SipUser(roster: Roster, workspace: Id, agent: Option<UserId>): Option<string> {
    if agent.None? || agent.value !in roster.identities then None
    else
      var identity := roster.identities[agent.value];
      if identity.active && identity.workspace == workspace then Some(identity.sipUser) else None
  }

  /** The stored call is kept, and given an agent if it has none; a missing one is added unless the race is lost. */
  function WithCall(calls: map<CallKey, Call>, key: CallKey, call: Call, raced: Option<Call>): map<CallKey, Call> {
    if key in calls then
      calls[key := if calls[key].agent.Some? then calls[key] else calls[key].(agent := call.agent)]
    else if raced.Some? then calls[key := raced.value]
    else calls[key := call]
  }

  /** Whom a ticket's call rings: its assignee, or the agent assigned least recently, who gets the ticket. */
  ghost predicate AgentStep(tickets: map<Id, Ticket>, roster: Roster, ring: Ring, t: Id, d: Delivery,
                            agent: Option<UserId>,
                            tickets': map<Id, Ticket>, roster': Roster)
    requires t in tickets
  {
    var eligible := EligibleSet(roster, ring.s.workspace, ring.focus == Some(true));
    if tickets[t].assignee.Some? || eligible == {} then
      agent == tickets[t].assignee && tickets' == tickets && roster' == roster
    else
      && agent.Some? && IsPick(roster, ring.s.workspace, ring.focus == Some(true), agent.value)
      && tickets' == tickets[t := AfterAction(tickets[t], Route(agent.value), d.rd.clock)]
      && roster' == Stamp(roster, agent.value, d.stamp)
  }

  /** `resolved` are the rows once contact and ticket are resolved. */
  ghost predicate RouteStep(st: State, ring: Ring, d: Delivery, resolved: Db, a: Answer, after: State) {
    && FiledStep(st.db, ring.s, CallFrom(ring.fromNumber), d.shortId, d.rd,
                 Filed(a.contact, a.ticket, a.created), resolved)
    && after.db.contacts == resolved.contacts && after.db.messages == st.db.messages
    && AgentStep(resolved.tickets, st.roster, ring, a.ticket, d, a.agent, after.db.tickets, after.roster)
    && a.sipUser == SipUser(st.roster, ring.s.workspace, a.agent)
    && after.calls ==
         if a.sipUser.None? then st.calls
         else WithCall(st.calls, ring.Key(),
                       Call(a.contact, a.ticket, a.agent, ring.fromNumber, ring.toNumber, "routing"), d.raced)
  }

  // ---------------------------------------------------------------- what it means for the rows

  /** A SIP user is rung exactly for an agent with an active identity in this very workspace. */
  lemma SipUserMeans(roster: Roster, workspace: Id, agent: Option<UserId>, sipUser: string)
    ensures SipUser(roster, workspace, agent) == Some(sipUser) <==>
              agent.Some? && agent.value in roster.identities &&
              roster.identities[agent.value] == Identity(workspace, true, sipUser)
  {
  }

  /** An agent an unassigned ticket's call may ring, by what is stored. */
  ghost predicate MayRing(roster: Roster, ring: Ring, u: UserId) {
    && u in roster.presence && u in roster.identities
    && roster.presence[u].available
    && roster.identities[u].active && roster.identities[u].workspace == ring.s.workspace
    && (ring.focus == Some(true) ==> !roster.presence[u].onVoiceCall)
  }

  /** An assigned ticket rings its assignee, and nothing is written. */
  lemma AssigneeIsRung(tickets: map<Id, Ticket>, roster: Roster, ring: Ring, t: Id, d: Delivery,
                       agent: Option<UserId>, tickets': map<Id, Ticket>, roster': Roster)
    requires t in tickets && AgentStep(tickets, roster, ring, t, d, agent, tickets', roster')
    requires tickets[t].assignee.Some?
    ensures agent == tickets[t].assignee && tickets' == tickets && roster' == roster
  {
  }

  /**
   An unassigned ticket rings somebody exactly if somebody may be rung: one of those, and of those the
   one assigned least recently. That agent gets the ticket and the stamp, and nothing else changes.
   */
  lemma RungMeans(tickets: map<Id, Ticket>, roster: Roster, ring: Ring, t: Id, d: Delivery,
                  agent: Option<UserId>, tickets': map<Id, Ticket>, roster': Roster)
    requires t in tickets && AgentStep(tickets, roster, ring, t, d, agent, tickets', roster')
    requires tickets[t].assignee.None?
    ensures agent.None? <==> forall u :: !MayRing(roster, ring, u)
    ensures agent.None? ==> tickets' == tickets && roster' == roster
    ensures agent.Some? ==>
              var u, row := agent.value, tickets[t];
              && MayRing(roster, ring, u)
              && (forall v :: MayRing(roster, ring, v) ==>
                    var mine, theirs := roster.presence[u].lastAssigned, roster.presence[v].lastAssigned;
                    mine.Some? ==> theirs.Some? && mine.value <= theirs.value)
              && tickets' == tickets[t := row.(
                   assignee := Some(u), updatedAt := d.rd.clock.db,
                   firstAssigned := if row.firstAssigned.Some? then row.firstAssigned else Some(d.rd.clock.now))]
              && roster'.identities == roster.identities
              && roster'.presence == roster.presence[u := roster.presence[u].(lastAssigned := Some(d.stamp))]
  {
    var focus := ring.focus == Some(true);
    forall u ensures MayRing(roster, ring, u) <==> u in EligibleSet(roster, ring.s.workspace, focus) {
      EligibleMeans(roster, ring.s.workspace, focus, u);
    }
    if agent.Some? {
      PickMeans(roster, ring.s.workspace, focus, agent.value);
    }
  }

  /** A call, but no message, is recorded exactly if somebody is rung: under its workspace and id, as "routing". */
  lemma RecordedCall(st: State, ring: Ring, d: Delivery, resolved: Db, a: Answer, after: State)
    requires RouteStep(st, ring, d, resolved, a, after)
    ensures after.db.messages == st.db.messages
    ensures a.sipUser.None? ==> after.calls == st.calls
    ensures a.sipUser.Some? ==>
              var key := (ring.s.workspace, ring.callSid);
              && after.calls.Keys == st.calls.Keys + {key}
              && (forall k :: k in st.calls && k != key ==> after.calls[k] == st.calls[k])
              && (key in st.calls && st.calls[key].agent.Some? ==> after.calls[key] == st.calls[key])
              && (key in st.calls && st.calls[key].agent.None? ==>
                    after.calls[key] == st.calls[key].(agent := a.agent))
              && (key !in st.calls && d.raced.Some? ==> after.calls[key] == d.raced.value)
              && (key !in st.calls && d.raced.None? ==>
                    after.calls[key] == Call(a.contact, a.ticket, a.agent, ring.fromNumber, ring.toNumber, "routing"))
  {
  }

  class Switchboard {
    const helpdesk: Helpdesk
    const desk: RoutingDesk
    var calls: map<CallKey, Call>

    constructor (helpdesk: Helpdesk, desk: RoutingDesk)
      ensures this.helpdesk == helpdesk && this.desk == desk && calls == map[]
    {
      this.helpdesk, this.desk, calls := helpdesk, desk, map[];
    }

    ghost predicate Valid()
      reads this, helpdesk
    {
      helpdesk.Valid()
    }

    function Rows(): State
      reads this, helpdesk, desk
    {
      State(helpdesk.Rows(), desk.roster, calls)
    }

    /** `_get_or_create_inbound_call`. */
    method GetOrCreateInboundCall(key: CallKey, call: Call, raced: Option<Call>) returns (stored: Call)
      modifies this`calls
      ensures calls == WithCall(old(calls), key, call, raced)
      ensures key in calls && stored == calls[key]
    {
      if key in calls {
        if calls[key].agent.None? {
          calls := calls[key := calls[key].(agent := call.agent)];
        }
        return calls[key];
      }
      if raced.Some? {
        // the unique constraint refuses the insert inside its savepoint
        calls := calls[key := raced.value];
        return raced.value;
      }
      calls := calls[key := call];
      return call;
    }

    method ChooseAgent(ring: Ring, t: Id, d: Delivery) returns (agent: Option<UserId>)
      requires Valid() && t in helpdesk.tickets
      modifies helpdesk`tickets, desk
      ensures Valid()
      ensures AgentStep(old(helpdesk.tickets), old(desk.roster), ring, t, d, agent, helpdesk.tickets, desk.roster)
      ensures SipUser(desk.roster, ring.s.workspace, agent) == SipUser(old(desk.roster), ring.s.workspace, agent)
      ensures old(helpdesk.tickets)[t].assignee.None? && agent.Some? ==>
                var u, presence, identities := agent.value, old(desk.roster.presence), desk.roster.identities;
                && u in presence && presence[u].available && (ring.focus == Some(true) ==> !presence[u].onVoiceCall)
                && u in identities && identities == old(desk.roster.identities)
                && identities[u].active && identities[u].workspace == ring.s.workspace
                && t in helpdesk.tickets && helpdesk.tickets[t].assignee == Some(u)
    {
      agent := helpdesk.tickets[t].assignee;
      if agent.None? {
        agent := desk.SelectAgentForVoice(ring.focus, ring.s.workspace, d.stamp);
        if agent.Some? {
          var row := new TicketRow(helpdesk.tickets[t], {});
          row.RouteTo(agent.value, d.rd.clock);
          helpdesk.tickets := helpdesk.tickets[t := row.Row()];
        }
      }
    }

    /** The part of the routing webhook after the ticket is resolved. */
    method RingAgent(ring: Ring, contact: Id, t: Id, created: bool, d: Delivery) returns (a: Answer)
      requires Valid() && t in helpdesk.tickets
      modifies this`calls, helpdesk`tickets, desk
      ensures Valid()
      ensures a.contact == contact && a.ticket == t && a.created == created
      ensures AgentStep(old(helpdesk.tickets), old(desk.roster), ring, t, d, a.agent, helpdesk.tickets, desk.roster)
      ensures a.sipUser == SipUser(old(desk.roster), ring.s.workspace, a.agent)
      ensures calls ==
                if a.sipUser.None? then old(calls)
                else WithCall(old(calls), ring.Key(),
                              Call(contact, t, a.agent, ring.fromNumber, ring.toNumber, "routing"), d.raced)
      ensures old(helpdesk.tickets)[t].assignee.None? && a.agent.Some? ==>
                var u, presence, identities := a.agent.value, old(desk.roster.presence), desk.roster.identities;
                && u in presence && presence[u].available && (ring.focus == Some(true) ==> !presence[u].onVoiceCall)
                && u in identities && identities == old(desk.roster.identities)
                && identities[u].active && identities[u].workspace == ring.s.workspace
                && a.sipUser == Some(identities[u].sipUser)
                && t in helpdesk.tickets && helpdesk.tickets[t].assignee == Some(u)
    {
      var agent := ChooseAgent(ring, t, d);
      var sipUser := SipUser(desk.roster, ring.s.workspace, agent);
      if sipUser.Some? {
        var _ := GetOrCreateInboundCall(
          ring.Key(), Call(contact, t, agent, ring.fromNumber, ring.toNumber, "routing"), d.raced);
      }
      return Answer(contact, t, created, agent, sipUser);
    }

    /** `exotel_route_call`; every failure leaves all rows as they were. */
    method ExotelRouteCall(s: Setting, focus: Option<bool>, fromNumber: Option<string>, toNumber: Option<string>,
                           callSid: Option<string>, d: Delivery) returns (r: Reply, ghost resolved: Db)
      requires Valid()
      requires d.shortId.Some? ==> d.shortId.value !in ShortIds(helpdesk.tickets)
      modifies this, helpdesk, desk
      ensures Valid()
      ensures r == BadRequest <==> fromNumber.None? || toNumber.None? || callSid.None?
      ensures !r.Replied? ==> Rows() == old(Rows())
      ensures r.Failed? ==> r.reason in {Clash, NoShortId}
      ensures r == Failed(Clash) ==>
                LooksUp(old(helpdesk.contacts), s.workspace, CallFrom(fromNumber.value), Several)
      ensures r == Failed(NoShortId) ==>
                d.shortId.None? && NeedsNewTicket(old(helpdesk.Rows()), s, CallFrom(fromNumber.value), d.rd.asked)
      ensures r.Replied? ==> r.answer.ticket in resolved.tickets
      ensures r.Replied? ==>
                RouteStep(old(Rows()), Ring(s, focus, fromNumber.value, toNumber.value, callSid.value),
                          d, resolved, r.answer, Rows())
      // whoever is rung on an unassigned ticket could be, and has the ticket now
      ensures r.Replied? && r.answer.agent.Some? && resolved.tickets[r.answer.ticket].assignee.None? ==>
                var u, presence, identities := r.answer.agent.value, old(desk.roster.presence), desk.roster.identities;
                && u in presence && presence[u].available && (focus == Some(true) ==> !presence[u].onVoiceCall)
                && u in identities && identities == old(desk.roster.identities)
                && identities[u].active && identities[u].workspace == s.workspace
                && r.answer.sipUser == Some(identities[u].sipUser)
                && helpdesk.tickets[r.answer.ticket].assignee == Some(u)
    {
      resolved := helpdesk.Rows();
      if fromNumber.None? || toNumber.None? || callSid.None? {
        return BadRequest, resolved;
      }
      var ring := Ring(s, focus, fromNumber.value, toNumber.value, callSid.value);
      var filed := helpdesk.ResolveCallTicket(Some(s), ring.fromNumber, d.shortId, d.rd);
      if !filed.Filed? {
        return Failed(filed), resolved;
      }
      resolved := helpdesk.Rows();
      var answer := RingAgent(ring, filed.contact, filed.ticket, filed.created, d);
      return Replied(answer), resolved;
    }
  }

  // ---------------------------------------------------------------- repeated questions

  /** The question has been answered with `sipUser`: everything the answer depends on is in place. */
  ghost predicate Settled(st: State, ring: Ring, a: Answer, last: int) {
    && a.sipUser.Some? && a.contact in st.db.contacts
    && LooksUp(st.db.contacts, ring.s.workspace, CallFrom(ring.fromNumber), Found(a.contact))
    && Holds(st.db.tickets, ring.s, a.contact, a.ticket, last)
    && st.db.tickets[a.ticket].assignee == a.agent && a.agent.Some?
    && SipUser(st.roster, ring.s.workspace, a.agent) == a.sipUser
    && ring.Key() in st.calls && st.calls[ring.Key()].agent.Some?
  }

  /** Filing the call puts its contact and ticket where the next lookup finds them. */
  lemma CallTakesLead(st: State, ring: Ring, d: Delivery, resolved: Db, a: Answer, after: State)
    requires RouteStep(st, ring, d, resolved, a, after)
    requires AheadOf(st.db.tickets, ring.s, a.contact, d.rd.clock.touch)
    ensures a.contact in resolved.contacts
    ensures LooksUp(resolved.contacts, ring.s.workspace, CallFrom(ring.fromNumber), Found(a.contact))
    ensures Holds(resolved.tickets, ring.s, a.contact, a.ticket, d.rd.clock.touch)
  {
    var m := CallFrom(ring.fromNumber);
    var e := Own(m, d.shortId, d.rd, a.ticket, a.created);
    assert EventStep(st.db, ring.s, a.contact, e, resolved);
    FilingTakesLead(st.db, ring.s, a.contact, e, resolved);
    var hits := PhoneHits(st.db.contacts, ring.s.workspace, m.phone);
    assert PhoneHits(resolved.contacts, ring.s.workspace, m.phone) == hits + {a.contact};
  }

  /** Giving the ticket its agent keeps its lead and the agent's identity. */
  lemma AgentStepKeepsLead(tickets: map<Id, Ticket>, roster: Roster, ring: Ring, contact: Id, t: Id, d: Delivery,
                           agent: Option<UserId>, tickets': map<Id, Ticket>, roster': Roster, last: int)
    requires Holds(tickets, ring.s, contact, t, last)
    requires AgentStep(tickets, roster, ring, t, d, agent, tickets', roster')
    ensures Holds(tickets', ring.s, contact, t, last) && tickets'[t].assignee == agent
    ensures SipUser(roster', ring.s.workspace, agent) == SipUser(roster, ring.s.workspace, agent)
  {
  }

  /** An answer that names an agent settles the question. */
  lemma AnswerSettles(st: State, ring: Ring, d: Delivery, resolved: Db, a: Answer, after: State)
    requires RouteStep(st, ring, d, resolved, a, after) && a.sipUser.Some?
    requires AheadOf(st.db.tickets, ring.s, a.contact, d.rd.clock.touch)
    requires d.raced.Some? ==> d.raced.value.agent.Some?
    ensures Settled(after, ring, a, d.rd.clock.touch)
  {
    CallTakesLead(st, ring, d, resolved, a, after);
    AgentStepKeepsLead(resolved.tickets, st.roster, ring, a.contact, a.ticket, d, a.agent,
                       after.db.tickets, after.roster, d.rd.clock.touch);
  }

  /** A settled question is answered the same way again, and answering it again changes next to nothing. */
  lemma SettledAnswer(st: State, ring: Ring, d: Delivery, resolved: Db, a: Answer, after: State,
                      first: Answer, last: int)
    requires Settled(st, ring, first, last) && RouteStep(st, ring, d, resolved, a, after)
    requires d.rd.asked - last <= ring.s.policy.window && last <= d.rd.clock.touch
    ensures a == first.(created := false)
    ensures after.db.contacts == st.db.contacts && after.calls == st.calls && after.roster == st.roster
    ensures after.db.tickets == st.db.tickets[a.ticket := Touched(st.db.tickets[a.ticket], d.rd.clock)]
    ensures Settled(after, ring, first, d.rd.clock.touch)
  {
    var m := CallFrom(ring.fromNumber);
    var c, found := first.contact, PhoneHits(st.db.contacts, ring.s.workspace, m.phone);
    assert found == {c} && c in found;
    assert a.contact == c by {
      assert ContactStep(st.db.contacts, ring.s.workspace, m, a.contact, resolved.contacts);
      if LooksUp(st.db.contacts, ring.s.workspace, m, Found(a.contact)) {
        assert a.contact in found;
      }
    }
    var e := Own(m, d.shortId, d.rd, a.ticket, a.created);
    assert EventStep(st.db, ring.s, c, e, resolved);
    LeadIsChosen(st.db, ring.s, c, e, resolved, first.ticket, last);
  }

  /** Deliveries of one question, one after the other, with nothing in between. */
  ghost predicate Deliveries(run: seq<State>, ring: Ring, ds: seq<Delivery>, rows: seq<Db>, answers: seq<Answer>) {
    && |run| == |ds| + 1 && |rows| == |ds| && |answers| == |ds|
    && forall i :: 0 <= i < |ds| ==> RouteStep(run[i], ring, ds[i], rows[i], answers[i], run[i + 1])
  }

  /** Every delivery falls in the reuse window of the one before, and clocks do not go back. */
  ghost predicate InTime(ds: seq<Delivery>, window: int) {
    forall i :: 0 < i < |ds| ==>
      ds[i].rd.asked - ds[i - 1].rd.clock.touch <= window && ds[i - 1].rd.clock.touch <= ds[i].rd.clock.touch
  }

  /** Equal but for the activity stamps of one ticket. */
  ghost predicate SameButActivity(st: State, st': State, t: Id) {
    && st'.db.contacts == st.db.contacts && st'.calls == st.calls && st'.roster == st.roster
    && t in st.db.tickets
    && exists c :: st'.db.tickets == st.db.tickets[t := Touched(st.db.tickets[t], c)]
  }

  lemma TouchedAgain(st: State, st': State, st'': State, t: Id, c: Clock)
    requires SameButActivity(st, st', t) && st''.(db := st'.db) == st'
    requires st''.db.contacts == st'.db.contacts
      && st''.db.tickets == st'.db.tickets[t := Touched(st'.db.tickets[t], c)]
    ensures SameButActivity(st, st'', t)
  {
    assert st''.db.tickets == st.db.tickets[t := Touched(st.db.tickets[t], c)];
  }

  /**
   The webhook is idempotent. Once a delivery has been answered with a SIP user, every further
   delivery in the reuse window gets the same SIP user, agent, contact and ticket, adds no contact,
   ticket or call, stamps no agent, and changes nothing but the activity stamps of the ticket.
   */
  lemma {:induction false} RoutingIsIdempotent(run: seq<State>, ring: Ring, ds: seq<Delivery>, rows: seq<Db>,
                                               answers: seq<Answer>,
                                               n: nat)
    requires Deliveries(run, ring, ds, rows, answers) && InTime(ds, ring.s.policy.window)
    requires 0 < n <= |ds| && answers[0].sipUser.Some?
    requires AheadOf(run[0].db.tickets, ring.s, answers[0].contact, ds[0].rd.clock.touch)
    requires ds[0].raced.Some? ==> ds[0].raced.value.agent.Some?
    ensures Settled(run[n], ring, answers[0], ds[n - 1].rd.clock.touch)
    ensures n > 1 ==> answers[n - 1] == answers[0].(created := false)
    ensures SameButActivity(run[1], run[n], answers[0].ticket)
  {
    assert RouteStep(run[n - 1], ring, ds[n - 1], rows[n - 1], answers[n - 1], run[n]);
    var t := answers[0].ticket;
    if n == 1 {
      AnswerSettles(run[0], ring, ds[0], rows[0], answers[0], run[1]);
      var tickets := run[1].db.tickets;
      assert tickets == tickets[t := Touched(tickets[t], Clock(0, tickets[t].lastActivity, tickets[t].updatedAt, 0))];
    } else {
      RoutingIsIdempotent(run, ring, ds, rows, answers, n - 1);
      var d := ds[n - 1];
      SettledAnswer(run[n - 1], ring, d, rows[n - 1], answers[n - 1], run[n], answers[0], ds[n - 2].rd.clock.touch);
      TouchedAgain(run[1], run[n - 1], run[n], t, d.rd.clock);
    }
  }
}
