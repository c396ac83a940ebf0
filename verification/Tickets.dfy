/**
 The ticket row and every step that changes its status, assignee or timestamps: agents' handlers,
 call routing, and the reopening of a resolved or closed ticket by inbound contact.
 */
module Tickets {
  import opened Basics
  import opened ReusePolicy

  type Id = nat
  type UserId = nat

  datatype Ticket = Ticket(
    workspace: Id, contact: Id, channel: Option<Id>, subject: Option<string>, priority: string,
    shortId: string, status: string, assignee: Option<UserId>,
    lastActivity: int, updatedAt: int, statusEnteredAt: int,
    firstAssigned: Option<int>, firstResponse: Option<int>, resolvedAt: Option<int>, closedAt: Option<int>)

  /**
   The readings of one step: the handler's, the last touch of the activity stamp, the database's, and
   the handler's in whole seconds.
   */
  datatype Clock = Clock(now: int, touch: int, db: int, second: int)

  /** The keys of a ticket's stored events, as far as they can repeat; the database refuses a repeated key. */
  datatype EventKey = UpdatedIn(second: int) | AssignedTo(user: UserId)

  /** A ticket with the keys of its stored events. */
  datatype Keyed = Keyed(ticket: Ticket, keys: set<EventKey>)

  datatype TicketUpdate = TicketUpdate(status: Option<string>, priority: Option<string>, subject: Option<string>)

  datatype Action =
    | Update(body: TicketUpdate)
    | Assign(user: UserId)
    | Claim(user: UserId)
    | Reply(actor: Option<UserId>)
    | StartCall(actor: Option<UserId>)
    | Route(agent: UserId)                          // an inbound call rings this agent
    | Contacted(policy: Effective, agents: set<UserId>)  // a message or call was filed on the ticket

  /** A ticket as `create_ticket` and inbound contact insert it. */
  function NewTicket(workspace: Id, contact: Id, channel: Option<Id>, subject: Option<string>, priority: string,
                     shortId: string, now: int, db: int): Ticket {
    Ticket(workspace, contact, channel, subject, priority, shortId, "open", None, now, db, now, None, None, None, None)
  }

  // ---------------------------------------------------------------- what each step leaves

  predicate IsClosedStatus(status: string) {
    status == "resolved" || status == "closed"
  }

  /** A given field that differs from the stored one. */
  predicate Changes<T(==)>(given: Option<T>, stored: T) {
    given.Some? && given.value != stored
  }

  function AfterStatus(t: Ticket, status: string, now: int): Ticket {
    t.(status := status, statusEnteredAt := now,
       resolvedAt := if IsClosedStatus(status) then OrElse(t.resolvedAt, now) else t.resolvedAt,
       closedAt := if status == "closed" then Some(now) else t.closedAt)
  }

  /** The update changes some field. */
  predicate Edits(t: Ticket, body: TicketUpdate) {
    || Changes(body.status, t.status) || Changes(body.priority, t.priority)
    || (body.subject.Some? && body.subject != t.subject)
  }

  function AfterUpdate(t: Ticket, body: TicketUpdate, c: Clock): Ticket {
    var t1 := if Changes(body.status, t.status) then AfterStatus(t, body.status.value, c.now) else t;
    var t2 := if Changes(body.priority, t.priority) then t1.(priority := body.priority.value) else t1;
    var t3 := if body.subject.Some? && body.subject != t.subject then t2.(subject := body.subject) else t2;
    if Edits(t, body) then t3.(lastActivity := c.touch, updatedAt := c.db) else t
  }

  function GivenTo(t: Ticket, user: UserId, now: int): Ticket {
    t.(assignee := Some(user), firstAssigned := OrElse(t.firstAssigned, now))
  }

  /** Taking a ticket nobody has; an unidentified actor takes nothing. */
  function TakenBy(t: Ticket, actor: Option<UserId>, now: int): Ticket {
    if t.assignee.None? && actor.Some? then GivenTo(t, actor.value, now) else t
  }

  function ReopenAssignee(assignee: Option<UserId>, policy: Effective, agents: set<UserId>): Option<UserId> {
    if policy.assignee == QUEUE then None
    else if assignee.None? then None
    else if agents != {} && assignee.value !in agents then None
    else assignee
  }

  function Reopened(t: Ticket, policy: Effective, agents: set<UserId>, now: int): Ticket {
    if IsClosedStatus(t.status) then
      t.(status := "open", resolvedAt := None, closedAt := None, statusEnteredAt := now,
         assignee := ReopenAssignee(t.assignee, policy, agents))
    else t
  }

  function Touched(t: Ticket, c: Clock): Ticket {
    t.(lastActivity := c.touch, updatedAt := c.db)
  }

  function AfterAction(t: Ticket, action: Action, c: Clock): Ticket {
    match action
    case Update(body) => AfterUpdate(t, body, c)
    case Assign(user) => Touched(GivenTo(t, user, c.now), c)
    case Claim(user) => Touched(GivenTo(t, user, c.now).(status := "open"), c)
    case Reply(actor) => Touched(TakenBy(t.(firstResponse := OrElse(t.firstResponse, c.now)), actor, c.now), c)
    case StartCall(actor) => Touched(TakenBy(t, actor, c.now), c)
    case Route(agent) => GivenTo(t, agent, c.now).(updatedAt := c.db)
    case Contacted(policy, agents) => Touched(Reopened(t, policy, agents, c.now), c)
  }

  // ---------------------------------------------------------------- the same, column by column

  /** An update sets what it gives, stamps what it changed, and leaves a ticket it does not change alone. */
  lemma UpdateMeans(t: Ticket, body: TicketUpdate, c: Clock)
    ensures var after := AfterAction(t, Update(body), c);
            var entered := body.status.Some? && body.status.value != t.status;
            var edited := entered || after.priority != t.priority || after.subject != t.subject;
            && after.status == (if body.status.Some? then body.status.value else t.status)
            && after.priority == (if body.priority.Some? then body.priority.value else t.priority)
            && after.subject == (if body.subject.Some? then body.subject else t.subject)
            && after.statusEnteredAt == (if entered then c.now else t.statusEnteredAt)
            && after.resolvedAt == (if entered && after.status in {"resolved", "closed"} && t.resolvedAt.None?
                                    then Some(c.now) else t.resolvedAt)
            && after.closedAt == (if entered && after.status == "closed" then Some(c.now) else t.closedAt)
            && after.lastActivity == (if edited then c.touch else t.lastActivity)
            && after.updatedAt == (if edited then c.db else t.updatedAt)
            && after == t.(status := after.status, priority := after.priority, subject := after.subject,
                           statusEnteredAt := after.statusEnteredAt, resolvedAt := after.resolvedAt,
                           closedAt := after.closedAt, lastActivity := after.lastActivity,
                           updatedAt := after.updatedAt)
  {
  }

  /** Assigning and claiming give the ticket to the user, whoever had it; a claim also sets it open. */
  lemma AssignAndClaimMean(t: Ticket, user: UserId, c: Clock)
    ensures var given := t.(assignee := Some(user), lastActivity := c.touch, updatedAt := c.db,
                            firstAssigned := if t.firstAssigned.Some? then t.firstAssigned else Some(c.now));
            && AfterAction(t, Assign(user), c) == given
            && AfterAction(t, Claim(user), c) == given.(status := "open")
            && AfterAction(t, Route(user), c) == given.(lastActivity := t.lastActivity)
  {
  }

  /** A reply stamps the first response; reply and call give a ticket nobody has to a known actor. */
  lemma ReplyAndCallMean(t: Ticket, actor: Option<UserId>, c: Clock)
    ensures var takes := t.assignee.None? && actor.Some?;
            var after := t.(lastActivity := c.touch, updatedAt := c.db,
                            assignee := if takes then actor else t.assignee,
                            firstAssigned := if takes && t.firstAssigned.None? then Some(c.now) else t.firstAssigned);
            && AfterAction(t, StartCall(actor), c) == after
            && AfterAction(t, Reply(actor), c) == after.(
                 firstResponse := if t.firstResponse.Some? then t.firstResponse else Some(c.now))
  {
  }

  /**
   Contact reopens a resolved or closed ticket and only touches any other. A reopened ticket keeps its
   assignee exactly if the policy does not send it to the queue and the assignee is listed, or no agent is.
   */
  lemma ContactMeans(t: Ticket, policy: Effective, agents: set<UserId>, c: Clock)
    ensures var after, done := AfterAction(t, Contacted(policy, agents), c), t.status in {"resolved", "closed"};
            && (!done ==> after == t.(lastActivity := c.touch, updatedAt := c.db))
            && (done ==> after == t.(status := "open", statusEnteredAt := c.now, resolvedAt := None, closedAt := None,
                                     lastActivity := c.touch, updatedAt := c.db, assignee := after.assignee))
            && (done ==>
                  after.assignee ==
                    if policy.assignee == "queue" then None
                    else if agents == {} || (t.assignee.Some? && t.assignee.value in agents) then t.assignee
                    else None)
  {
  }

  // ---------------------------------------------------------------- refused commits

  /** The key of the event a step writes, if it can repeat: the ids of messages are new every time. */
  function KeyOf(t: Ticket, action: Action, c: Clock): Option<EventKey> {
    match action
    case Update(body) => if Edits(t, body) then Some(UpdatedIn(c.second)) else None
    case Assign(user) => Some(AssignedTo(user))
    case _ => None
  }

  predicate Refused(k: Keyed, action: Action, c: Clock) {
    var key := KeyOf(k.ticket, action, c);
    key.Some? && key.value in k.keys
  }

  /** The step as the database accepts or refuses it: a refused commit leaves nothing behind. */
  function AfterRequest(k: Keyed, action: Action, c: Clock): Keyed {
    var key := KeyOf(k.ticket, action, c);
    if Refused(k, action, c) then k
    else Keyed(AfterAction(k.ticket, action, c), if key.Some? then k.keys + {key.value} else k.keys)
  }

  // ---------------------------------------------------------------- the handlers

  /** The row object the handlers change field by field. */
  class TicketRow {
    const workspace: Id
    const contact: Id
    const channel: Option<Id>
    const shortId: string
    var subject: Option<string>
    var priority: string
    var status: string
    var assignee: Option<UserId>
    var lastActivity: int
    var updatedAt: int
    var statusEnteredAt: int
    var firstAssigned: Option<int>
    var firstResponse: Option<int>
    var resolvedAt: Option<int>
    var closedAt: Option<int>
    var keys: set<EventKey>

    constructor (t: Ticket, keys: set<EventKey>)
      ensures Row() == t && this.keys == keys
    {
      this.keys := keys;
      workspace, contact, channel, shortId := t.workspace, t.contact, t.channel, t.shortId;
      subject, priority, status, assignee := t.subject, t.priority, t.status, t.assignee;
      lastActivity, updatedAt, statusEnteredAt := t.lastActivity, t.updatedAt, t.statusEnteredAt;
      firstAssigned, firstResponse, resolvedAt, closedAt := t.firstAssigned, t.firstResponse, t.resolvedAt, t.closedAt;
    }

    function Row(): Ticket
      reads this
    {
      Ticket(workspace, contact, channel, subject, priority, shortId, status, assignee, lastActivity, updatedAt,
             statusEnteredAt, firstAssigned, firstResponse, resolvedAt, closedAt)
    }

    function State(): Keyed
      reads this
    {
      Keyed(Row(), keys)
    }

    method Touch(c: Clock)
      modifies this`lastActivity, this`updatedAt
      ensures Row() == Touched(old(Row()), c)
    {
      lastActivity, updatedAt := c.touch, c.db;
    }

    method EnterStatus(newStatus: string, now: int)
      modifies this
      ensures Row() == AfterStatus(old(Row()), newStatus, now) && keys == old(keys)
    {
      status := newStatus;
      statusEnteredAt := now;
      if newStatus == "resolved" || newStatus == "closed" {
        resolvedAt := if resolvedAt.Some? then resolvedAt else Some(now);
      }
      if newStatus == "closed" {
        closedAt := Some(now);
      }
    }

    /** The fields of an update; the result is the number of recorded changes. */
    method ChangeFields(body: TicketUpdate, c: Clock) returns (changes: nat)
      modifies this
      ensures Row() == AfterUpdate(old(Row()), body, c) && keys == old(keys)
      ensures changes == 0 <==> !Edits(old(Row()), body)
    {
      changes := 0;
      if body.status.Some? && body.status.value != status {
        changes := changes + 1;
        EnterStatus(body.status.value, c.now);
      }
      if body.priority.Some? && body.priority.value != priority {
        changes := changes + 1;
        priority := body.priority.value;
      }
      if body.subject.Some? && body.subject != subject {
        changes := changes + 1;
        subject := body.subject;
      }
      if changes > 0 {
        Touch(c);
      }
    }

    /** `update_ticket`; a second change within one second repeats its key, and the commit is refused. */
    method UpdateTicket(body: TicketUpdate, c: Clock) returns (accepted: bool)
      modifies this
      ensures State() == AfterRequest(old(State()), Update(body), c)
      ensures accepted == !Refused(old(State()), Update(body), c)
    {
      if Edits(Row(), body) && UpdatedIn(c.second) in keys {
        return false;
      }
      var changes := ChangeFields(body, c);
      if changes > 0 {
        keys := keys + {UpdatedIn(c.second)};
      }
      return true;
    }

    /** `assign_ticket`; assigning a user again repeats its key, and the commit is refused. */
    method AssignTicket(user: UserId, c: Clock) returns (accepted: bool)
      modifies this
      ensures State() == AfterRequest(old(State()), Assign(user), c)
      ensures accepted == !Refused(old(State()), Assign(user), c)
    {
      if AssignedTo(user) in keys {
        return false;
      }
      assignee := Some(user);
      if firstAssigned.None? {
        firstAssigned := Some(c.now);
      }
      Touch(c);
      keys := keys + {AssignedTo(user)};
      return true;
    }

    /** The claim sets the status without a new `status_entered_at`. */
    method ClaimTicket(user: UserId, c: Clock)
      modifies this
      ensures State() == AfterRequest(old(State()), Claim(user), c)
    {
      assignee := Some(user);
      status := "open";
      if firstAssigned.None? {
        firstAssigned := Some(c.now);
      }
      Touch(c);
    }

    /** The ticket part of `send_ticket_message`, once the provider has accepted the message. */
    method RecordReply(actor: Option<UserId>, c: Clock) returns (claimed: bool)
      modifies this
      ensures State() == AfterRequest(old(State()), Reply(actor), c)
      ensures claimed <==> old(assignee).None? && actor.Some?
    {
      if firstResponse.None? {
        firstResponse := Some(c.now);
      }
      claimed := false;
      if assignee.None? && actor.Some? {
        assignee := actor;
        firstAssigned := if firstAssigned.Some? then firstAssigned else Some(c.now);
        claimed := true;
      }
      Touch(c);
    }

    /** The ticket part of `start_call`. */
    method RecordCallStart(actor: Option<UserId>, c: Clock)
      modifies this
      ensures State() == AfterRequest(old(State()), StartCall(actor), c)
    {
      Touch(c);
      if assignee.None? && actor.Some? {
        assignee := actor;
        firstAssigned := if firstAssigned.Some? then firstAssigned else Some(c.now);
      }
    }

    /** The assignment an inbound call makes to the agent it rings. */
    method RouteTo(agent: UserId, c: Clock)
      modifies this
      ensures State() == AfterRequest(old(State()), Route(agent), c)
    {
      assignee := Some(agent);
      firstAssigned := if firstAssigned.Some? then firstAssigned else Some(c.now);
      updatedAt := c.db;
    }

    /** `_apply_reopen_assignee`; `agents` are the listed support agents, if any are listed. */
    method ApplyReopenAssignee(policy: Effective, agents: set<UserId>)
      modifies this`assignee
      ensures assignee == ReopenAssignee(old(assignee), policy, agents)
    {
      if policy.assignee == QUEUE {
        assignee := None;
        return;
      }
      if assignee.None? {
        return;
      }
      if agents != {} && assignee.value !in agents {
        assignee := None;
      }
    }

    /** Inbound contact filed on this ticket: reopen it if it was done, and touch it. */
    method ReceiveContact(policy: Effective, agents: set<UserId>, c: Clock)
      modifies this
      ensures State() == AfterRequest(old(State()), Contacted(policy, agents), c)
    {
      if status == "resolved" || status == "closed" {
        status := "open";
        resolvedAt := None;
        closedAt := None;
        statusEnteredAt := c.now;
        ApplyReopenAssignee(policy, agents);
      }
      Touch(c);
    }
  }

  // ---------------------------------------------------------------- the lifecycle

  ghost predicate Lifecycle(t: Ticket) {
    && (t.status == "closed" ==> t.closedAt.Some? && t.resolvedAt.Some?)
    && (t.status == "resolved" ==> t.resolvedAt.Some?)
    && (t.assignee.Some? ==> t.firstAssigned.Some?)
  }

  /** The stamps that are written once: they survive every later step. */
  ghost predicate StampsKept(before: Ticket, after: Ticket) {
    && (before.firstAssigned.Some? ==> after.firstAssigned == before.firstAssigned)
    && (before.firstResponse.Some? ==> after.firstResponse == before.firstResponse)
  }

  function AfterActions(t: Ticket, steps: seq<(Action, Clock)>): Ticket {
    if steps == [] then t
    else
      var last := steps[|steps| - 1];
      AfterAction(AfterActions(t, steps[..|steps| - 1]), last.0, last.1)
  }

  ghost predicate SameTicket(before: Ticket, after: Ticket) {
    after.workspace == before.workspace && after.contact == before.contact && after.channel == before.channel &&
    after.shortId == before.shortId
  }

  lemma ActionKeepsLifecycle(t: Ticket, action: Action, c: Clock)
    requires Lifecycle(t)
    ensures Lifecycle(AfterAction(t, action, c))
    ensures StampsKept(t, AfterAction(t, action, c))
    ensures SameTicket(t, AfterAction(t, action, c))
  {
    match action
    case Update(_) =>
    case _ =>
  }

  /**
   The lifecycle over every run of steps: a closed ticket has its closing and resolution times, a
   resolved one its resolution time, an assigned one its first assignment; first assignment and first
   response, once set, never change; and a ticket never moves to another contact, channel or id.
   */
  lemma {:induction false} LifecycleHolds(t: Ticket, steps: seq<(Action, Clock)>, n: nat)
    requires Lifecycle(t) && n <= |steps|
    ensures Lifecycle(AfterActions(t, steps))
    ensures StampsKept(AfterActions(t, steps[..n]), AfterActions(t, steps))
    ensures SameTicket(t, AfterActions(t, steps))
    decreases |steps|
  {
    if n == |steps| {
      assert steps[..n] == steps;
    }
    if steps != [] {
      var init, last := steps[..|steps| - 1], steps[|steps| - 1];
      var m := if n < |steps| then n else |init|;
      LifecycleHolds(t, init, m);
      assert init[..m] == steps[..m];
      ActionKeepsLifecycle(AfterActions(t, init), last.0, last.1);
    }
  }

  /** The steps that give a ticket without an assignee its assignee. */
  predicate Assigns(a: Action) {
    a.Assign? || a.Claim? || a.Route? || (a.Reply? && a.actor.Some?) || (a.StartCall? && a.actor.Some?)
  }

  lemma ActionAndStamps(t: Ticket, action: Action, c: Clock)
    requires t.assignee.Some? ==> t.firstAssigned.Some?
    ensures var after := AfterAction(t, action, c);
            && after.firstResponse == (if action.Reply? then OrElse(t.firstResponse, c.now) else t.firstResponse)
            && (t.firstAssigned.Some? ==> after.firstAssigned == t.firstAssigned)
            && (t.firstAssigned.None? ==> after.firstAssigned == if Assigns(action) then Some(c.now) else None)
            && (after.assignee.Some? ==> after.firstAssigned.Some?)
  {
  }

  function FirstReply(steps: seq<(Action, Clock)>): Option<int> {
    if steps == [] then None
    else
      var earlier, last := FirstReply(steps[..|steps| - 1]), steps[|steps| - 1];
      if earlier.None? && last.0.Reply? then Some(last.1.now) else earlier
  }

  function FirstAssignment(steps: seq<(Action, Clock)>): Option<int> {
    if steps == [] then None
    else
      var earlier, last := FirstAssignment(steps[..|steps| - 1]), steps[|steps| - 1];
      if earlier.None? && Assigns(last.0) then Some(last.1.now) else earlier
  }

  /**
   The stamps say what they are called: on a ticket nobody has touched, they are the time of the
   first reply and the time of the first step that assigns, and there are none without such a step.
   */
  lemma {:induction false} StampsAreFirsts(t: Ticket, steps: seq<(Action, Clock)>)
    requires t.firstAssigned.None? && t.firstResponse.None? && t.assignee.None?
    ensures var after := AfterActions(t, steps);
            && after.firstResponse == FirstReply(steps)
            && after.firstAssigned == FirstAssignment(steps)
            && (after.assignee.Some? ==> after.firstAssigned.Some?)
  {
    if steps != [] {
      var init, last := steps[..|steps| - 1], steps[|steps| - 1];
      StampsAreFirsts(t, init);
      ActionAndStamps(AfterActions(t, init), last.0, last.1);
    }
  }

  // ---------------------------------------------------------------- when the status was entered

  /** When the status last changed, and whether a claim changed it. */
  datatype Change = Change(at: int, byClaim: bool)

  function LastChange(t: Ticket, steps: seq<(Action, Clock)>): Change {
    if steps == [] then Change(t.statusEnteredAt, false)
    else
      var init, last := steps[..|steps| - 1], steps[|steps| - 1];
      if AfterActions(t, steps).status == AfterActions(t, init).status then LastChange(t, init)
      else Change(last.1.now, last.0.Claim?)
  }

  /** Every step reads a later clock than the one before. */
  ghost predicate Ticking(start: int, steps: seq<(Action, Clock)>) {
    && (forall i :: 0 <= i < |steps| ==> start < steps[i].1.now)
    && (forall i, j :: 0 <= i < j < |steps| ==> steps[i].1.now < steps[j].1.now)
  }

  /** A step stamps the status exactly if it changes it and is no claim. */
  lemma StatusStep(t: Ticket, action: Action, c: Clock)
    ensures var after := AfterAction(t, action, c);
            && (after.status != t.status && !action.Claim? ==> after.statusEnteredAt == c.now)
            && (after.status == t.status || action.Claim? ==> after.statusEnteredAt == t.statusEnteredAt)
            && (action.Claim? ==> (after.status != t.status <==> t.status != "open"))
  {
  }

  /**
   `status_entered_at` is the time of the last status change exactly if that change was not a claim;
   a claim changes the status exactly of a ticket that is not open, and leaves an earlier time behind.
   */
  lemma {:induction false} StatusStampIff(t: Ticket, steps: seq<(Action, Clock)>)
    requires Ticking(t.statusEnteredAt, steps)
    ensures var after, change := AfterActions(t, steps), LastChange(t, steps);
            && (after.statusEnteredAt == change.at <==> !change.byClaim)
            && after.statusEnteredAt <= change.at
            && (steps == [] || change.at <= steps[|steps| - 1].1.now)
            && (change.byClaim ==> exists i :: 0 <= i < |steps| && ClaimsNotOpen(t, steps, i))
  {
    if steps != [] {
      var init, last := steps[..|steps| - 1], steps[|steps| - 1];
      StatusStampIff(t, init);
      StatusStep(AfterActions(t, init), last.0, last.1);
      if LastChange(t, init).byClaim {
        var i :| 0 <= i < |init| && ClaimsNotOpen(t, init, i);
        assert init[..i] == steps[..i];
        assert ClaimsNotOpen(t, steps, i);
      }
      assert LastChange(t, steps) != LastChange(t, init) && last.0.Claim? ==> ClaimsNotOpen(t, steps, |steps| - 1);
    }
  }

  ghost predicate ClaimsNotOpen(t: Ticket, steps: seq<(Action, Clock)>, i: nat)
    requires i < |steps|
  {
    steps[i].0.Claim? && AfterActions(t, steps[..i]).status != "open"
  }

  // ---------------------------------------------------------------- requests, some refused

  function AfterRequests(k: Keyed, steps: seq<(Action, Clock)>): Keyed {
    if steps == [] then k
    else
      var last := steps[|steps| - 1];
      AfterRequest(AfterRequests(k, steps[..|steps| - 1]), last.0, last.1)
  }

  function Accepted(k: Keyed, steps: seq<(Action, Clock)>): seq<(Action, Clock)> {
    if steps == [] then []
    else
      var init, last := steps[..|steps| - 1], steps[|steps| - 1];
      if Refused(AfterRequests(k, init), last.0, last.1) then Accepted(k, init) else Accepted(k, init) + [last]
  }

  /** What requests come to is what the accepted ones among them come to. */
  lemma {:induction false} RequestsAreActions(k: Keyed, steps: seq<(Action, Clock)>)
    ensures AfterRequests(k, steps).ticket == AfterActions(k.ticket, Accepted(k, steps))
  {
    if steps != [] {
      var init, last := steps[..|steps| - 1], steps[|steps| - 1];
      RequestsAreActions(k, init);
      var before := Accepted(k, init);
      assert (before + [last])[..|before|] == before;
    }
  }

  /** Step i asks for a change of the ticket in this second. */
  ghost predicate EditedIn(k: Keyed, steps: seq<(Action, Clock)>, i: nat, second: int)
    requires i < |steps|
  {
    steps[i].0.Update? && steps[i].1.second == second && Edits(AfterRequests(k, steps[..i]).ticket, steps[i].0.body)
  }

  lemma {:induction false} AssignedKeys(k: Keyed, steps: seq<(Action, Clock)>, user: UserId)
    requires k.keys == {}
    ensures AssignedTo(user) in AfterRequests(k, steps).keys <==>
              exists i :: 0 <= i < |steps| && steps[i].0 == Assign(user)
  {
    if steps != [] {
      var n := |steps| - 1;
      AssignedKeys(k, steps[..n], user);
      assert forall i :: 0 <= i < n ==> steps[..n][i] == steps[i];
      if steps[n].0 == Assign(user) {
        assert AssignedTo(user) in AfterRequests(k, steps).keys;
      }
    }
  }

  lemma {:induction false} UpdatedKeys(k: Keyed, steps: seq<(Action, Clock)>, second: int)
    requires k.keys == {}
    ensures UpdatedIn(second) in AfterRequests(k, steps).keys <==>
              exists i :: 0 <= i < |steps| && EditedIn(k, steps, i, second)
  {
    if steps != [] {
      var n := |steps| - 1;
      var init := steps[..n];
      UpdatedKeys(k, init, second);
      forall i | 0 <= i < n ensures EditedIn(k, init, i, second) == EditedIn(k, steps, i, second) {
        assert init[..i] == steps[..i] && init[i] == steps[i];
      }
      assert UpdatedIn(second) in AfterRequests(k, steps).keys <==>
             UpdatedIn(second) in AfterRequests(k, init).keys || EditedIn(k, steps, n, second);
    }
  }

  /**
   On a ticket without events so far, an assignment is refused exactly if its user was assigned
   before, and an update that changes something exactly if an earlier one did so in the same second.
   */
  lemma RefusedIff(k: Keyed, steps: seq<(Action, Clock)>, user: UserId, body: TicketUpdate, c: Clock)
    requires k.keys == {}
    ensures var now := AfterRequests(k, steps);
            && (Refused(now, Assign(user), c) <==> exists i :: 0 <= i < |steps| && steps[i].0 == Assign(user))
            && (Refused(now, Update(body), c) <==>
                  Edits(now.ticket, body) && exists i :: 0 <= i < |steps| && EditedIn(k, steps, i, c.second))
  {
    AssignedKeys(k, steps, user);
    UpdatedKeys(k, steps, c.second);
  }
}
