/**
 Handlers that overlap on one ticket. A handler loads the row without a lock, does its work, and writes
 at its commit only the columns whose value it changed; what others committed meanwhile stays in the
 other columns. `Tickets` has the handlers one after the other.
 */
module TicketRace {
  import opened Basics
  import ReusePolicy
  import opened Tickets

  type HandlerId = nat

  /** A handler between its read and its commit, with the row as it read it. */
  datatype Flight = Flight(seen: Ticket, action: Action)

  datatype System = System(row: Ticket, flights: map<HandlerId, Flight>)

  datatype Step = Read(h: HandlerId, action: Action) | Commit(h: HandlerId, c: Clock) | Abort(h: HandlerId)

  // ---------------------------------------------------------------- writing changed columns

  function Merged(stored: Ticket, seen: Ticket, wanted: Ticket): Ticket {
    stored.(subject := Column(stored.subject, seen.subject, wanted.subject),
            priority := Column(stored.priority, seen.priority, wanted.priority),
            status := Column(stored.status, seen.status, wanted.status),
            assignee := Column(stored.assignee, seen.assignee, wanted.assignee),
            lastActivity := Column(stored.lastActivity, seen.lastActivity, wanted.lastActivity),
            updatedAt := Column(stored.updatedAt, seen.updatedAt, wanted.updatedAt),
            statusEnteredAt := Column(stored.statusEnteredAt, seen.statusEnteredAt, wanted.statusEnteredAt),
            firstAssigned := Column(stored.firstAssigned, seen.firstAssigned, wanted.firstAssigned),
            firstResponse := Column(stored.firstResponse, seen.firstResponse, wanted.firstResponse),
            resolvedAt := Column(stored.resolvedAt, seen.resolvedAt, wanted.resolvedAt),
            closedAt := Column(stored.closedAt, seen.closedAt, wanted.closedAt))
  }

  /** Having read r and wanting w, a commit writes the columns that differ and leaves the rest of the stored row. */
  lemma MergeMeans(db: Ticket, r: Ticket, w: Ticket)
    ensures var row := Merged(db, r, w);
            && row.subject == (if w.subject == r.subject then db.subject else w.subject)
            && row.priority == (if w.priority == r.priority then db.priority else w.priority)
            && row.status == (if w.status == r.status then db.status else w.status)
            && row.assignee == (if w.assignee == r.assignee then db.assignee else w.assignee)
            && row.lastActivity == (if w.lastActivity == r.lastActivity then db.lastActivity else w.lastActivity)
            && row.updatedAt == (if w.updatedAt == r.updatedAt then db.updatedAt else w.updatedAt)
            && row.statusEnteredAt ==
                 (if w.statusEnteredAt == r.statusEnteredAt then db.statusEnteredAt else w.statusEnteredAt)
            && row.firstAssigned == (if w.firstAssigned == r.firstAssigned then db.firstAssigned else w.firstAssigned)
            && row.firstResponse == (if w.firstResponse == r.firstResponse then db.firstResponse else w.firstResponse)
            && row.resolvedAt == (if w.resolvedAt == r.resolvedAt then db.resolvedAt else w.resolvedAt)
            && row.closedAt == (if w.closedAt == r.closedAt then db.closedAt else w.closedAt)
            && row == db.(
                 subject := row.subject, priority := row.priority, status := row.status, assignee := row.assignee,
                 lastActivity := row.lastActivity, updatedAt := row.updatedAt,
                 statusEnteredAt := row.statusEnteredAt, firstAssigned := row.firstAssigned,
                 firstResponse := row.firstResponse, resolvedAt := row.resolvedAt, closedAt := row.closedAt)
  {
  }

  /** The handler's clock is past the closing time it read. */
  predicate Later(seen: Ticket, c: Clock) {
    seen.closedAt.Some? ==> seen.closedAt.value < c.now
  }

  ghost predicate Enabled(x: System, step: Step) {
    match step
    case Read(h, _) => h !in x.flights
    case Commit(h, c) => h in x.flights && Later(x.flights[h].seen, c)
    case Abort(h) => h in x.flights
  }

  function After(x: System, step: Step): System
    requires !step.Read? ==> step.h in x.flights
  {
    match step
    case Read(h, action) => x.(flights := x.flights[h := Flight(x.row, action)])
    case Commit(h, c) =>
      var f := x.flights[h];
      System(Merged(x.row, f.seen, AfterAction(f.seen, f.action, c)), x.flights - {h})
    case Abort(h) => x.(flights := x.flights - {h})
  }

  ghost predicate Execution(run: seq<System>, steps: seq<Step>) {
    && |run| == |steps| + 1
    && run[0].flights == map[]
    && forall i :: 0 <= i < |steps| ==> Enabled(run[i], steps[i]) && run[i + 1] == After(run[i], steps[i])
  }

  /** With nothing in between, a read and a commit are the step of `Tickets`. */
  lemma UndisturbedIsAction(x: System, h: HandlerId, action: Action, c: Clock)
    requires h !in x.flights
    ensures After(After(x, Read(h, action)), Commit(h, c)) == x.(row := AfterAction(x.row, action, c))
  {
    ActionKeepsIdentity(x.row, action, c);
    assert x.flights[h := Flight(x.row, action)] - {h} == x.flights;
  }

  lemma ActionKeepsIdentity(t: Ticket, action: Action, c: Clock)
    ensures SameTicket(t, AfterAction(t, action, c))
  {
    match action
    case Update(_) =>
    case _ =>
  }

  // ---------------------------------------------------------------- from a commit back to its read

  /** Step i reads for the commit at step j. */
  ghost predicate Spans(run: seq<System>, steps: seq<Step>, i: nat, j: nat)
    requires Execution(run, steps)
  {
    && i < j < |steps| && steps[i].Read? && steps[j].Commit? && steps[i].h == steps[j].h
    && forall k :: i < k <= j ==>
         steps[i].h in run[k].flights && run[k].flights[steps[i].h] == Flight(run[i].row, steps[i].action)
  }

  lemma {:induction false} FlightWasRead(run: seq<System>, steps: seq<Step>, j: nat, h: HandlerId) returns (i: nat)
    requires Execution(run, steps) && j < |run| && h in run[j].flights
    ensures i < j && steps[i].Read? && steps[i].h == h
    ensures forall k :: i < k <= j ==>
              h in run[k].flights && run[k].flights[h] == Flight(run[i].row, steps[i].action)
  {
    assert run[j] == After(run[j - 1], steps[j - 1]);
    if steps[j - 1].Read? && steps[j - 1].h == h {
      i := j - 1;
    } else {
      i := FlightWasRead(run, steps, j - 1, h);
    }
  }

  lemma CommitWasRead(run: seq<System>, steps: seq<Step>, j: nat) returns (i: nat)
    requires Execution(run, steps) && j < |steps| && steps[j].Commit?
    ensures Spans(run, steps, i, j)
  {
    assert Enabled(run[j], steps[j]);
    i := FlightWasRead(run, steps, j, steps[j].h);
  }

  // ---------------------------------------------------------------- a column over time

  lemma {:induction false} Onset(s: seq<Option<int>>, i: nat, j: nat) returns (k: nat)
    requires i <= j < |s| && s[i].None? && s[j].Some?
    ensures i <= k < j && s[k].None? && s[k + 1].Some?
    decreases j - i
  {
    if s[j - 1].None? {
      k := j - 1;
    } else {
      k := Onset(s, i, j - 1);
    }
  }

  lemma {:induction false} Loss(s: seq<Option<int>>, i: nat, j: nat) returns (k: nat)
    requires i <= j < |s| && s[i].Some? && s[j].None?
    ensures i <= k < j && s[k].Some? && s[k + 1].None?
    decreases j - i
  {
    if s[j - 1].Some? {
      k := j - 1;
    } else {
      k := Loss(s, i, j - 1);
    }
  }

  lemma {:induction false} Unmoved(s: seq<Option<int>>, m: nat, n: nat)
    requires m <= n < |s| && s[m].Some?
    requires forall k :: m <= k < n && s[k].Some? ==> s[k + 1] == s[k]
    ensures s[n] == s[m]
    decreases n - m
  {
    if m < n {
      Unmoved(s, m, n - 1);
    }
  }

  // ---------------------------------------------------------------- the first stamps

  datatype Which = Response | Assignment

  function Stamp(t: Ticket, which: Which): Option<int> {
    if which == Response then t.firstResponse else t.firstAssigned
  }

  /** A handler that read this row sets the stamp. */
  predicate Stamps(seen: Ticket, action: Action, which: Which) {
    && Stamp(seen, which).None?
    && if which == Response then action.Reply?
       else Assigns(action) && (action.Reply? || action.StartCall? ==> seen.assignee.None?)
  }

  lemma StampWritten(seen: Ticket, action: Action, c: Clock, which: Which)
    ensures Stamp(AfterAction(seen, action, c), which) ==
              if Stamps(seen, action, which) then Some(c.now) else Stamp(seen, which)
  {
  }

  /** What a step does to a stored stamp. */
  lemma StampStep(x: System, step: Step, which: Which)
    requires Enabled(x, step)
    ensures Stamp(After(x, step).row, which) ==
              if step.Commit? && Stamps(x.flights[step.h].seen, x.flights[step.h].action, which) then Some(step.c.now)
              else Stamp(x.row, which)
  {
    if step.Commit? {
      StampWritten(x.flights[step.h].seen, x.flights[step.h].action, step.c, which);
    }
  }

  /** Step k commits a stamp. */
  ghost predicate StampsAt(run: seq<System>, steps: seq<Step>, k: nat, which: Which)
    requires Execution(run, steps) && k < |steps|
  {
    && steps[k].Commit? && Enabled(run[k], steps[k])
    && Stamps(run[k].flights[steps[k].h].seen, run[k].flights[steps[k].h].action, which)
  }

  lemma StampsStepwise(run: seq<System>, steps: seq<Step>, n: nat, which: Which)
    requires Execution(run, steps) && n < |steps|
    ensures Stamp(run[n + 1].row, which) ==
              if StampsAt(run, steps, n, which) then Some(steps[n].c.now) else Stamp(run[n].row, which)
  {
    StampStep(run[n], steps[n], which);
  }

  function StampsOf(run: seq<System>, which: Which): (s: seq<Option<int>>)
    ensures |s| == |run| && forall i :: 0 <= i < |s| ==> s[i] == Stamp(run[i].row, which)
  {
    seq(|run|, i requires 0 <= i < |run| => Stamp(run[i].row, which))
  }

  /** Between a row without the stamp and one with it, somebody committed it. */
  lemma SomebodyStamped(run: seq<System>, steps: seq<Step>, i: nat, j: nat, which: Which)
    requires Execution(run, steps) && i <= j < |run|
    requires Stamp(run[i].row, which).None? && Stamp(run[j].row, which).Some?
    ensures exists k :: i <= k < j && StampsAt(run, steps, k, which)
  {
    var k := Onset(StampsOf(run, which), i, j);
    StampsStepwise(run, steps, k, which);
  }

  lemma StampsStay(run: seq<System>, steps: seq<Step>, i: nat, j: nat, which: Which)
    requires Execution(run, steps) && i <= j < |run| && Stamp(run[i].row, which).Some?
    ensures Stamp(run[j].row, which).Some?
  {
    if Stamp(run[j].row, which).None? {
      var k := Loss(StampsOf(run, which), i, j);
      StampsStepwise(run, steps, k, which);
    }
  }

  /**
   A stamping handler read the row before another one committed the stamp, and commits its own, at
   another time, after it.
   */
  ghost predicate StampsOverlap(run: seq<System>, steps: seq<Step>, i: nat, j: nat, which: Which)
    requires Execution(run, steps)
  {
    && Spans(run, steps, i, j) && Stamps(run[i].row, steps[i].action, which)
    && (exists k :: i < k < j && StampsAt(run, steps, k, which))
    && Stamp(run[j].row, which) != Some(steps[j].c.now)
  }

  /** Step j changes a stamp that is set. */
  ghost predicate Moves(run: seq<System>, steps: seq<Step>, j: nat, which: Which)
    requires Execution(run, steps) && j < |steps|
  {
    Stamp(run[j].row, which).Some? && Stamp(run[j + 1].row, which) != Stamp(run[j].row, which)
  }

  lemma MovesIffOverlap(run: seq<System>, steps: seq<Step>, j: nat, which: Which)
    requires Execution(run, steps) && j < |steps|
    ensures Moves(run, steps, j, which) <==> exists i :: StampsOverlap(run, steps, i, j, which)
  {
    StampsStepwise(run, steps, j, which);
    if Moves(run, steps, j, which) {
      var i := CommitWasRead(run, steps, j);
      SomebodyStamped(run, steps, i, j, which);
      var k :| i <= k < j && StampsAt(run, steps, k, which);
      assert i < k;
      assert StampsOverlap(run, steps, i, j, which);
    } else if i: nat :| StampsOverlap(run, steps, i, j, which) {
      var k :| i < k < j && StampsAt(run, steps, k, which);
      StampsStepwise(run, steps, k, which);
      StampsStay(run, steps, k + 1, j, which);
    }
  }

  ghost predicate NeverChanges(run: seq<System>, which: Which) {
    forall m, n :: 0 <= m <= n < |run| && Stamp(run[m].row, which).Some? ==>
      Stamp(run[n].row, which) == Stamp(run[m].row, which)
  }

  /**
   A first stamp never changes once it is set, exactly if no handler that sets it read the row before
   another one's setting commit and committed after it.
   */
  lemma FirstStampIff(run: seq<System>, steps: seq<Step>, which: Which)
    requires Execution(run, steps)
    ensures NeverChanges(run, which) <==> forall i: nat, j: nat :: !StampsOverlap(run, steps, i, j, which)
  {
    if forall i: nat, j: nat :: !StampsOverlap(run, steps, i, j, which) {
      forall j | 0 <= j < |steps| ensures !Moves(run, steps, j, which) {
        MovesIffOverlap(run, steps, j, which);
      }
      forall m, n | 0 <= m <= n < |run| && Stamp(run[m].row, which).Some?
        ensures Stamp(run[n].row, which) == Stamp(run[m].row, which)
      {
        var stamps := StampsOf(run, which);
        forall k | m <= k < n && stamps[k].Some? ensures stamps[k + 1] == stamps[k] {
          assert !Moves(run, steps, k, which);
        }
        Unmoved(stamps, m, n);
      }
    } else {
      var i: nat, j: nat :| StampsOverlap(run, steps, i, j, which);
      MovesIffOverlap(run, steps, j, which);
      assert Stamp(run[j + 1].row, which) != Stamp(run[j].row, which);
    }
  }

  // ---------------------------------------------------------------- the lifecycle

  /** A handler reopens a done ticket, and clears its resolution time. */
  predicate Reopens(seen: Ticket, action: Action) {
    action.Contacted? && IsClosedStatus(seen.status) && seen.resolvedAt.Some?
  }

  /** A handler resolves or closes a ticket that it read with a resolution time, which it leaves alone. */
  predicate TrustsResolution(seen: Ticket, action: Action) {
    action.Update? && Changes(action.body.status, seen.status) && IsClosedStatus(action.body.status.value) &&
    seen.resolvedAt.Some?
  }

  lemma ResolutionStep(x: System, step: Step)
    requires Enabled(x, step) && x.row.resolvedAt.Some? && After(x, step).row.resolvedAt.None?
    ensures step.Commit? && Reopens(x.flights[step.h].seen, x.flights[step.h].action)
  {
  }

  /** The commit breaks the lifecycle exactly if it trusts a resolution time that is gone. */
  lemma LifecycleStepIff(x: System, step: Step)
    requires Enabled(x, step) && Lifecycle(x.row)
    requires forall h :: h in x.flights ==> AssigneeIsStamped(x, x.flights[h].seen)
    ensures Lifecycle(After(x, step).row) <==>
            !(step.Commit? && x.row.resolvedAt.None? &&
              TrustsResolution(x.flights[step.h].seen, x.flights[step.h].action))
  {
    if step.Commit? {
      assert AssigneeIsStamped(x, x.flights[step.h].seen);
      LifecycleCommitIff(x.row, x.flights[step.h].seen, x.flights[step.h].action, step.c);
    }
  }

  lemma LifecycleCommitIff(stored: Ticket, seen: Ticket, action: Action, c: Clock)
    requires Lifecycle(stored) && Later(seen, c)
    requires seen.assignee.Some? ==> seen.firstAssigned.Some?
    requires seen.firstAssigned.Some? ==> stored.firstAssigned.Some?
    ensures Lifecycle(Merged(stored, seen, AfterAction(seen, action, c))) <==>
            !(TrustsResolution(seen, action) && stored.resolvedAt.None?)
  {
    match action
    case Update(_) =>
    case _ =>
  }

  /** An assignee that was read is stamped, and a stamp that was read is still there. */
  ghost predicate AssigneeIsStamped(x: System, seen: Ticket) {
    && (seen.assignee.Some? ==> seen.firstAssigned.Some?)
    && (seen.firstAssigned.Some? ==> x.row.firstAssigned.Some?)
  }

  ghost predicate Inv(x: System) {
    && AssigneeIsStamped(x, x.row)
    && forall h :: h in x.flights ==> AssigneeIsStamped(x, x.flights[h].seen)
  }

  lemma StepKeepsInv(x: System, step: Step)
    requires Inv(x) && Enabled(x, step)
    ensures Inv(After(x, step))
  {
    StampStep(x, step, Assignment);
    if step.Commit? {
      var f := x.flights[step.h];
      assert AssigneeIsStamped(x, f.seen);
      StampWritten(f.seen, f.action, step.c, Assignment);
      ActionAndStamps(f.seen, f.action, step.c);
    }
    forall h | h in After(x, step).flights ensures AssigneeIsStamped(After(x, step), After(x, step).flights[h].seen) {
      assert h in x.flights ==> AssigneeIsStamped(x, x.flights[h].seen);
    }
  }

  /** Whatever overlaps, a ticket with an assignee has its first assignment stamped. */
  lemma {:induction false} AssignedIsAlwaysStamped(run: seq<System>, steps: seq<Step>, n: nat)
    requires Execution(run, steps) && Lifecycle(run[0].row) && n < |run|
    ensures Inv(run[n]) && (run[n].row.assignee.Some? ==> run[n].row.firstAssigned.Some?)
  {
    if n > 0 {
      AssignedIsAlwaysStamped(run, steps, n - 1);
      StepKeepsInv(run[n - 1], steps[n - 1]);
    }
  }

  ghost predicate ReopensAt(run: seq<System>, steps: seq<Step>, k: nat)
    requires Execution(run, steps) && k < |steps|
  {
    && steps[k].Commit? && Enabled(run[k], steps[k])
    && Reopens(run[k].flights[steps[k].h].seen, run[k].flights[steps[k].h].action)
  }

  function ResolutionsOf(run: seq<System>): (s: seq<Option<int>>)
    ensures |s| == |run| && forall i :: 0 <= i < |s| ==> s[i] == run[i].row.resolvedAt
  {
    seq(|run|, i requires 0 <= i < |run| => run[i].row.resolvedAt)
  }

  lemma SomebodyReopened(run: seq<System>, steps: seq<Step>, i: nat, j: nat)
    requires Execution(run, steps) && i <= j < |run|
    requires run[i].row.resolvedAt.Some? && run[j].row.resolvedAt.None?
    ensures exists k :: i <= k < j && ReopensAt(run, steps, k)
  {
    var k := Loss(ResolutionsOf(run), i, j);
    ResolutionStep(run[k], steps[k]);
    assert ReopensAt(run, steps, k);
  }

  /**
   A handler that resolves or closes the ticket read it with its resolution time, a message or call
   reopened it before the commit, and nobody resolved it since.
   */
  ghost predicate CloseOverlapsReopen(run: seq<System>, steps: seq<Step>, i: nat, j: nat)
    requires Execution(run, steps)
  {
    && Spans(run, steps, i, j) && TrustsResolution(run[i].row, steps[i].action)
    && (exists k :: i < k < j && ReopensAt(run, steps, k))
    && run[j].row.resolvedAt.None?
  }

  /** A commit after which the lifecycle is broken closes such an overlap. */
  lemma BreakIsOverlap(run: seq<System>, steps: seq<Step>, j: nat)
    requires Execution(run, steps) && Lifecycle(run[0].row) && j < |steps|
    requires Lifecycle(run[j].row) && !Lifecycle(run[j + 1].row)
    ensures exists i: nat :: CloseOverlapsReopen(run, steps, i, j)
  {
    AssignedIsAlwaysStamped(run, steps, j);
    LifecycleStepIff(run[j], steps[j]);
    var i := CommitWasRead(run, steps, j);
    SomebodyReopened(run, steps, i, j);
    var k :| i <= k < j && ReopensAt(run, steps, k);
    assert i < k;
    assert CloseOverlapsReopen(run, steps, i, j);
  }

  lemma {:induction false} LifecycleUnlessOverlap(run: seq<System>, steps: seq<Step>, n: nat)
    requires Execution(run, steps) && Lifecycle(run[0].row) && n < |run|
    requires forall i: nat, j: nat :: !CloseOverlapsReopen(run, steps, i, j)
    ensures Lifecycle(run[n].row)
  {
    if n > 0 {
      LifecycleUnlessOverlap(run, steps, n - 1);
      if !Lifecycle(run[n].row) {
        BreakIsOverlap(run, steps, n - 1);
        assert false;
      }
    }
  }

  /**
   The lifecycle holds throughout a run exactly if in no place a handler that resolves or closes the
   ticket overlaps with the message or call that reopens it.
   */
  lemma LifecycleIff(run: seq<System>, steps: seq<Step>)
    requires Execution(run, steps) && Lifecycle(run[0].row)
    ensures (forall n :: 0 <= n < |run| ==> Lifecycle(run[n].row)) <==>
            forall i: nat, j: nat :: !CloseOverlapsReopen(run, steps, i, j)
  {
    if forall i: nat, j: nat :: !CloseOverlapsReopen(run, steps, i, j) {
      forall n | 0 <= n < |run| ensures Lifecycle(run[n].row) {
        LifecycleUnlessOverlap(run, steps, n);
      }
    } else {
      var i: nat, j: nat :| CloseOverlapsReopen(run, steps, i, j);
      if Lifecycle(run[j].row) {
        AssignedIsAlwaysStamped(run, steps, j);
        LifecycleStepIff(run[j], steps[j]);
        assert !Lifecycle(run[j + 1].row);
      }
    }
  }

  // ---------------------------------------------------------------- both overlaps happen

  /** A resolved ticket is reopened by a message while an agent closes it: it ends closed, without a resolution time. */
  lemma CloseAfterReopen(t: Ticket, policy: ReusePolicy.Effective, agents: set<UserId>, a: Clock, b: Clock)
    returns (steps: seq<Step>, run: seq<System>)
    requires t.status == "resolved" && t.resolvedAt.Some? && t.closedAt.None?
    ensures Execution(run, steps) && run[0].row == t && |steps| == 4
    ensures run[4].row.status == "closed" && run[4].row.resolvedAt.None? && !Lifecycle(run[4].row)
  {
    var reopen, close := Contacted(policy, agents), Update(TicketUpdate(Some("closed"), None, None));
    steps := [Read(0, reopen), Read(1, close), Commit(0, a), Commit(1, b)];
    var x0 := System(t, map[]);
    var x1 := After(x0, steps[0]);
    var x2 := After(x1, steps[1]);
    var x3 := After(x2, steps[2]);
    run := [x0, x1, x2, x3, After(x3, steps[3])];
  }

  /** Two replies to a ticket nobody has answered: the second commit replaces the first response time. */
  lemma SecondReplyMovesStamp(t: Ticket, v: Option<UserId>, w: Option<UserId>, a: Clock, b: Clock)
    returns (steps: seq<Step>, run: seq<System>)
    requires t.firstResponse.None? && Later(t, a) && Later(t, b)
    ensures Execution(run, steps) && run[0].row == t && |steps| == 4
    ensures run[3].row.firstResponse == Some(a.now) && run[4].row.firstResponse == Some(b.now)
  {
    steps := [Read(0, Reply(v)), Read(1, Reply(w)), Commit(0, a), Commit(1, b)];
    var x0 := System(t, map[]);
    var x1 := After(x0, steps[0]);
    var x2 := After(x1, steps[1]);
    var x3 := After(x2, steps[2]);
    run := [x0, x1, x2, x3, After(x3, steps[3])];
  }
}
