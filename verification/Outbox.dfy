/**
 One outbox event: which workflows it triggers, how one handling attempt changes it, and how the
 retry policy meets the idempotency of workflow runs.
 */
module Outbox {
  import opened Basics

  type WorkflowId = string

  datatype Status = Pending | Queued | Processed | Dead

  /** An outbox row together with the workflow ids of the runs stored under its idempotency key. */
  datatype Event = Event(eventType: string, status: Status, attempts: nat, runs: seq<WorkflowId>)

  /** The worker's queue list, as far as handling reads it. */
  datatype Queues = Queues(workflow: bool, lifecycle: bool, maintenance: bool)

  /**
   What one attempt meets: the matching workflows in the order the query returns them, the
   workflows whose run raises, whether the payload's ids parse, and whether a step after the
   workflows (lifecycle tracking, transcription) raises.
   */
  datatype Attempt = Attempt(order: seq<WorkflowId>, failing: set<WorkflowId>, payloadOk: bool, laterFails: bool)

  const CALL_ENDED := "call.ended"
  const MAX_RETRIES := 5

  // ---------------------------------------------------------------- trigger matching

  function RStripStars(t: string): (r: string)
    ensures r <= t && (r != "" ==> r[|r| - 1] != '*')
    ensures forall i :: |r| <= i < |t| ==> t[i] == '*'
  {
    if t != "" && t[|t| - 1] == '*' then RStripStars(t[..|t| - 1]) else t
  }

  predicate EventMatchesTrigger(eventType: string, types: seq<string>) {
    || types == []
    || eventType in types
    || exists t :: t in types && t != "" && t[|t| - 1] == '*' && RStripStars(t) <= eventType
  }

  lemma {:induction false} RStripIsUnique(prefix: string, stars: string)
    requires prefix == "" || prefix[|prefix| - 1] != '*'
    requires forall i :: 0 <= i < |stars| ==> stars[i] == '*'
    ensures RStripStars(prefix + stars) == prefix
  {
    if stars == "" {
      assert prefix + stars == prefix;
    } else {
      var t := prefix + stars;
      assert t[|t| - 1] == stars[|stars| - 1];
      assert t[..|t| - 1] == prefix + stars[..|stars| - 1];
      RStripIsUnique(prefix, stars[..|stars| - 1]);
    }
  }

  /** `deal.*`, with any positive number of stars, matches exactly the event types that start with `deal.`. */
  lemma WildcardMatchesPrefixes(prefix: string, stars: string, eventType: string)
    requires prefix == "" || prefix[|prefix| - 1] != '*'
    requires stars != "" && forall i :: 0 <= i < |stars| ==> stars[i] == '*'
    ensures EventMatchesTrigger(eventType, [prefix + stars]) <==> prefix <= eventType
  {
    RStripIsUnique(prefix, stars);
    var t := prefix + stars;
    assert t in [t] && t[|t| - 1] == stars[|stars| - 1];
  }

  datatype Workflow = Workflow(id: WorkflowId, workspace: nat, active: bool, draft: bool, eventTypes: seq<string>)

  predicate Matches(w: Workflow, workspace: nat, eventType: string) {
    w.workspace == workspace && w.active && !w.draft && EventMatchesTrigger(eventType, w.eventTypes)
  }

  /** What the stars after position k stand for: everything that begins with what is before them. */
  ghost predicate Wildcard(t: string, k: nat, eventType: string) {
    k < |t| && (forall i :: k <= i < |t| ==> t[i] == '*') && t[..k] <= eventType
  }

  /** A filter without types accepts everything; otherwise the type is listed, or covered by a wildcard. */
  lemma TriggerMeans(w: Workflow, workspace: nat, eventType: string)
    ensures Matches(w, workspace, eventType) <==>
            && w.workspace == workspace && w.active && !w.draft
            && (w.eventTypes == [] || eventType in w.eventTypes ||
                exists t, k: nat :: t in w.eventTypes && Wildcard(t, k, eventType))
  {
    forall t | t in w.eventTypes
      ensures t != "" && t[|t| - 1] == '*' && RStripStars(t) <= eventType <==>
                exists k: nat :: Wildcard(t, k, eventType)
    {
      WildcardMeans(t, eventType);
    }
  }

  lemma WildcardMeans(t: string, eventType: string)
    ensures t != "" && t[|t| - 1] == '*' && RStripStars(t) <= eventType <==> exists k: nat :: Wildcard(t, k, eventType)
  {
    var r := RStripStars(t);
    assert t[..|r|] == r;
    assert Wildcard(t, |r|, eventType) <==> |r| < |t| && r <= eventType;
    if k: nat :| Wildcard(t, k, eventType) {
      assert |r| <= k && r == t[..k][..|r|];
    }
  }

  /** Positions of the matching workflows in the query's list, lowest first. */
  function MatchingAt(workflows: seq<Workflow>, workspace: nat, eventType: string): (at: seq<nat>)
    ensures forall k :: 0 <= k < |at| ==> at[k] < |workflows|
  {
    if workflows == [] then []
    else
      var n := |workflows| - 1;
      var init := MatchingAt(workflows[..n], workspace, eventType);
      if Matches(workflows[n], workspace, eventType) then init + [n] else init
  }

  /** They are strictly ascending, and a position is among them exactly if its workflow matches. */
  lemma {:induction false} MatchingAtMeans(workflows: seq<Workflow>, workspace: nat, eventType: string)
    ensures var at := MatchingAt(workflows, workspace, eventType);
            && (forall i, j :: 0 <= i < j < |at| ==> at[i] < at[j])
            && forall n: nat :: n in at <==> n < |workflows| && Matches(workflows[n], workspace, eventType)
  {
    if workflows != [] {
      MatchingAtMeans(workflows[..|workflows| - 1], workspace, eventType);
    }
  }

  /** The active published workflows of the event's workspace whose filter accepts its type, in the query's order. */
  method MatchWorkflows(workflows: seq<Workflow>, workspace: nat, eventType: string) returns (matched: seq<WorkflowId>)
    ensures var at := MatchingAt(workflows, workspace, eventType);
            |matched| == |at| && forall k :: 0 <= k < |at| ==> matched[k] == workflows[at[k]].id
  {
    matched := [];
    for i := 0 to |workflows|
      invariant |matched| == |MatchingAt(workflows[..i], workspace, eventType)|
      invariant forall k :: 0 <= k < |matched| ==>
                  matched[k] == workflows[MatchingAt(workflows[..i], workspace, eventType)[k]].id
    {
      assert workflows[..i + 1][..i] == workflows[..i];
      if Matches(workflows[i], workspace, eventType) {
        matched := matched + [workflows[i].id];
      }
    }
    assert workflows[..|workflows|] == workflows;
  }

  // ---------------------------------------------------------------- idempotency keys

  const UUID_LENGTH := 36

  function IdempotencyKey(workflow: WorkflowId, eventKey: string): string {
    workflow + ":" + eventKey
  }

  /** Two runs share a key only if they belong to one workflow and one event. */
  lemma IdempotencyKeyIsInjective(w1: WorkflowId, e1: string, w2: WorkflowId, e2: string)
    requires |w1| == |w2| == UUID_LENGTH
    ensures IdempotencyKey(w1, e1) == IdempotencyKey(w2, e2) <==> w1 == w2 && e1 == e2
  {
    var k1, k2 := IdempotencyKey(w1, e1), IdempotencyKey(w2, e2);
    assert k1[..UUID_LENGTH] == w1 && k1[UUID_LENGTH + 1..] == e1;
    assert k2[..UUID_LENGTH] == w2 && k2[UUID_LENGTH + 1..] == e2;
  }

  // ---------------------------------------------------------------- one attempt

  /** Runs after the workflow loop, and whether the loop was left by an exception. */
  function StartRuns(runs: seq<WorkflowId>, a: Attempt, i: nat): (seq<WorkflowId>, bool)
    requires i <= |a.order|
    decreases |a.order| - i
  {
    if i == |a.order| then (runs, false)
    else if a.order[i] in runs then StartRuns(runs, a, i + 1)
    else if !a.payloadOk then (runs, true)
    else if a.order[i] in a.failing then (runs + [a.order[i]], true)
    else StartRuns(runs + [a.order[i]], a, i + 1)
  }

  predicate Skipped(e: Event, q: Queues) {
    e.eventType == CALL_ENDED && !q.maintenance
  }

  function AfterAttempt(e: Event, q: Queues, a: Attempt): Event {
    if Skipped(e, q) then e.(status := Pending)
    else
      var (runs, raised) := if q.workflow then StartRuns(e.runs, a, 0) else (e.runs, false);
      var later := a.laterFails && (q.lifecycle || e.eventType == CALL_ENDED);
      if raised || later then
        e.(status := if e.attempts >= MAX_RETRIES then Dead else Pending, attempts := e.attempts + 1, runs := runs)
      else
        e.(status := Processed, runs := runs)
  }

  /** The loop is left by an exception exactly if a workflow without a run is malformed or failing. */
  lemma {:induction false} LoopRaisesIff(runs: seq<WorkflowId>, a: Attempt, i: nat)
    requires i <= |a.order|
    ensures StartRuns(runs, a, i).1 <==>
            exists k :: i <= k < |a.order| && a.order[k] !in runs && (!a.payloadOk || a.order[k] in a.failing)
    decreases |a.order| - i
  {
    if i < |a.order| {
      var w := a.order[i];
      if w in runs {
        LoopRaisesIff(runs, a, i + 1);
      } else if a.payloadOk && w !in a.failing {
        LoopRaisesIff(runs + [w], a, i + 1);
      }
    }
  }

  /** Some step after the workflows that this worker runs for the event raises. */
  predicate LaterStepRaises(e: Event, q: Queues, a: Attempt) {
    a.laterFails && (q.lifecycle || e.eventType == "call.ended")
  }

  /**
   How one handling ends. An event that this worker may take is processed exactly if no workflow
   without a run is malformed or failing and no later step raises; otherwise the failure is counted,
   and the sixth one is the last. An event it may not take is put back as it was.
   */
  lemma HandlingEnds(e: Event, q: Queues, a: Attempt)
    ensures var after, taken := AfterAttempt(e, q, a), e.eventType != "call.ended" || q.maintenance;
            && (!taken ==> after == e.(status := Pending))
            && (taken ==>
                  (after.status == Processed <==>
                     && (q.workflow ==> forall w :: w in a.order ==> w in e.runs || (a.payloadOk && w !in a.failing))
                     && !LaterStepRaises(e, q, a)))
            && (taken && after.status == Processed ==> after.attempts == e.attempts)
            && (taken && after.status != Processed ==>
                  after.attempts == e.attempts + 1 && after.status == if e.attempts < 5 then Pending else Dead)
  {
    LoopRaisesIff(e.runs, a, 0);
    assert forall k :: 0 <= k < |a.order| ==> a.order[k] in a.order;
  }

  datatype StartResult = Existing | Started | Rejected

  class OutboxRow {
    const eventType: string
    var status: Status
    var attempts: nat
    var runs: seq<WorkflowId>

    constructor (e: Event)
      ensures Row() == e
    {
      eventType, status, attempts, runs := e.eventType, e.status, e.attempts, e.runs;
    }

    function Row(): Event
      reads this
    {
      Event(eventType, status, attempts, runs)
    }

    /** Inserts the run of `workflow` unless it exists; a malformed id in the payload raises. */
    method StartWorkflowRun(workflow: WorkflowId, payloadOk: bool) returns (r: StartResult)
      modifies this`runs
      ensures r == if workflow in old(runs) then Existing else if payloadOk then Started else Rejected
      ensures runs == if r == Started then old(runs) + [workflow] else old(runs)
    {
      if workflow in runs {
        return Existing;
      }
      if !payloadOk {
        return Rejected;
      }
      runs := runs + [workflow];
      return Started;
    }

    method ProcessOutboxEvent(q: Queues, a: Attempt)
      modifies this
      ensures Row() == AfterAttempt(old(Row()), q, a)
    {
      if eventType == CALL_ENDED && !q.maintenance {
        status := Pending;
        return;
      }
      var raised := false;
      if q.workflow {
        var i := 0;
        while i < |a.order| && !raised
          invariant 0 <= i <= |a.order|
          invariant status == old(status) && attempts == old(attempts)
          invariant StartRuns(old(runs), a, 0) == if raised then (runs, true) else StartRuns(runs, a, i)
        {
          var started := StartWorkflowRun(a.order[i], a.payloadOk);
          // the run itself: it raises when its workflow does, and its row stays either way
          raised := started == Rejected || (started == Started && a.order[i] in a.failing);
          i := i + 1;
        }
      }
      if !raised {
        raised := a.laterFails && (q.lifecycle || eventType == CALL_ENDED);
      }
      if raised {
        status := if attempts >= MAX_RETRIES then Dead else Pending;
        attempts := attempts + 1;
      } else {
        status := Processed;
      }
    }
  }

  // ---------------------------------------------------------------- any sequence of attempts

  /** A worker handles the event again as long as it is pending. */
  function Retry(e: Event, q: Queues, attempts: seq<Attempt>): Event
    decreases |attempts|
  {
    if attempts == [] || e.status != Pending then e
    else Retry(AfterAttempt(e, q, attempts[0]), q, attempts[1..])
  }

  /** What every committed row satisfies, whatever fails. */
  ghost predicate Bounded(e: Event) {
    && NoDups(e.runs)
    && e.status != Queued
    && (e.status == Dead ==> e.attempts == MAX_RETRIES + 1)
    && (e.status != Dead ==> e.attempts <= MAX_RETRIES)
  }

  lemma {:induction false} StartRunsExtends(runs: seq<WorkflowId>, a: Attempt, i: nat)
    requires i <= |a.order|
    ensures runs <= StartRuns(runs, a, i).0
    ensures NoDups(runs) ==> NoDups(StartRuns(runs, a, i).0)
    ensures Elements(StartRuns(runs, a, i).0) <= Elements(runs) + Elements(a.order)
    decreases |a.order| - i
  {
    if i < |a.order| {
      StartRunsExtends(runs, a, i + 1);
      StartRunsExtends(runs + [a.order[i]], a, i + 1);
      assert Elements(runs + [a.order[i]]) == Elements(runs) + {a.order[i]};
    }
  }

  lemma AttemptKeepsBounds(e: Event, q: Queues, a: Attempt)
    requires NoDups(e.runs) && e.attempts <= MAX_RETRIES
    ensures Bounded(AfterAttempt(e, q, a))
    ensures e.runs <= AfterAttempt(e, q, a).runs
    ensures !Skipped(e, q) && AfterAttempt(e, q, a).status != Processed ==>
              AfterAttempt(e, q, a).attempts == e.attempts + 1
  {
    StartRunsExtends(e.runs, a, 0);
  }

  /** Six handlings end every event, whatever fails: processed, or dead after exactly six failures. */
  lemma {:induction false} SixAttemptsEnd(e: Event, q: Queues, attempts: seq<Attempt>)
    requires Bounded(e) && e.status == Pending && !Skipped(e, q)
    ensures var r := Retry(e, q, attempts);
            Bounded(r) && e.runs <= r.runs && (r.status == Pending ==> r.attempts == e.attempts + |attempts|)
    ensures e.attempts + |attempts| >= MAX_RETRIES + 1 ==> Retry(e, q, attempts).status in {Processed, Dead}
    decreases |attempts|
  {
    if attempts != [] {
      var next := AfterAttempt(e, q, attempts[0]);
      AttemptKeepsBounds(e, q, attempts[0]);
      if next.status == Pending {
        SixAttemptsEnd(next, q, attempts[1..]);
      }
    }
  }

  // ---------------------------------------------------------------- retries and idempotent runs

  /** An attempt in which only the matching workflows `failing` can go wrong. */
  ghost predicate OnlyWorkflowsFail(a: Attempt, matching: set<WorkflowId>, failing: set<WorkflowId>) {
    Elements(a.order) == matching && a.failing * matching == failing && a.payloadOk && !a.laterFails
  }

  /** The failing workflows among the runs an event has. */
  function Burnt(runs: seq<WorkflowId>, failing: set<WorkflowId>): set<WorkflowId> {
    Elements(runs) * failing
  }

  /** The bookkeeping between attempts: every failed attempt has used up one failing workflow for good. */
  ghost predicate Accounted(e: Event, matching: set<WorkflowId>, failing: set<WorkflowId>) {
    && Bounded(e)
    && Elements(e.runs) <= matching
    && failing <= matching
    && e.attempts == |Burnt(e.runs, failing)|
    && (e.status == Processed ==> Elements(e.runs) == matching)
  }

  lemma OneMoreRun(runs: seq<WorkflowId>, w: WorkflowId, failing: set<WorkflowId>)
    requires w !in runs
    ensures w !in failing ==> Burnt(runs + [w], failing) == Burnt(runs, failing)
    ensures w in failing ==> |Burnt(runs + [w], failing)| == |Burnt(runs, failing)| + 1
  {
    assert Elements(runs + [w]) == Elements(runs) + {w};
    if w in failing {
      assert Burnt(runs + [w], failing) == Burnt(runs, failing) + {w};
    } else {
      assert Burnt(runs + [w], failing) == Burnt(runs, failing);
    }
  }

  /** The workflow loop either completes every match or stops at one new failing workflow. */
  lemma {:induction false} LoopBurnsAtMostOne(
    runs: seq<WorkflowId>, a: Attempt, i: nat, failing: set<WorkflowId>)
    requires i <= |a.order| && a.payloadOk
    requires forall k :: 0 <= k < |a.order| ==> (a.order[k] in failing <==> a.order[k] in a.failing)
    ensures var (after, raised) := StartRuns(runs, a, i);
            && runs <= after
            && |Burnt(after, failing)| == |Burnt(runs, failing)| + (if raised then 1 else 0)
            && (!raised ==> forall k :: i <= k < |a.order| ==> a.order[k] in after)
    decreases |a.order| - i
  {
    if i < |a.order| {
      var w := a.order[i];
      if w in runs {
        LoopBurnsAtMostOne(runs, a, i + 1, failing);
      } else {
        OneMoreRun(runs, w, failing);
        if w !in a.failing {
          LoopBurnsAtMostOne(runs + [w], a, i + 1, failing);
          var after := StartRuns(runs + [w], a, i + 1).0;
          assert after[|runs|] == w;
        }
      }
    }
  }

  lemma AttemptKeepsAccount(e: Event, q: Queues, a: Attempt, matching: set<WorkflowId>, failing: set<WorkflowId>)
    requires Accounted(e.(status := Pending), matching, failing) && OnlyWorkflowsFail(a, matching, failing)
    requires q.workflow && !Skipped(e, q)
    ensures Accounted(AfterAttempt(e, q, a), matching, failing)
  {
    AttemptKeepsBounds(e, q, a);
    StartRunsExtends(e.runs, a, 0);
    assert forall k :: 0 <= k < |a.order| ==> a.order[k] in Elements(a.order);
    LoopBurnsAtMostOne(e.runs, a, 0, failing);
  }

  /** The account says how an event can end. */
  lemma AccountDecidesTheEnd(e: Event, matching: set<WorkflowId>, failing: set<WorkflowId>)
    requires Accounted(e, matching, failing)
    ensures e.status == Processed ==>
              |failing| <= MAX_RETRIES && e.attempts == |failing| && Elements(e.runs) == matching
    ensures e.status == Dead ==> |failing| > MAX_RETRIES && e.attempts == MAX_RETRIES + 1
    ensures e.attempts <= |failing|
  {
    SubsetIsNoLarger(Burnt(e.runs, failing), failing);
    if e.status == Processed {
      assert Burnt(e.runs, failing) == failing;
    }
  }

  /**
   Retries meet run idempotency. However the matches are ordered on each attempt, no workflow gets
   a second run; with at most five failing workflows the event ends processed with exactly one run
   per matching workflow, with six or more it ends dead after six attempts.
   */
  lemma {:induction false} RetriesMeetIdempotency(
    e: Event, q: Queues, attempts: seq<Attempt>, matching: set<WorkflowId>, failing: set<WorkflowId>)
    requires e.status == Pending && Accounted(e, matching, failing)
    requires q.workflow && !Skipped(e, q)
    requires forall a :: a in attempts ==> OnlyWorkflowsFail(a, matching, failing)
    ensures var r := Retry(e, q, attempts);
            && Accounted(r, matching, failing)
            && NoDups(r.runs)
            && (r.status == Pending ==> r.attempts == e.attempts + |attempts|)
    ensures e.attempts + |attempts| > |failing| && |failing| <= MAX_RETRIES ==>
              var r := Retry(e, q, attempts);
              r.status == Processed && r.attempts == |failing| && Elements(r.runs) == matching && |r.runs| == |matching|
    ensures e.attempts + |attempts| > MAX_RETRIES && |failing| > MAX_RETRIES ==>
              var r := Retry(e, q, attempts);
              r.status == Dead && r.attempts == MAX_RETRIES + 1
    decreases |attempts|
  {
    if attempts != [] {
      var next := AfterAttempt(e, q, attempts[0]);
      AttemptKeepsAccount(e, q, attempts[0], matching, failing);
      AttemptKeepsBounds(e, q, attempts[0]);
      if next.status == Pending {
        RetriesMeetIdempotency(next, q, attempts[1..], matching, failing);
      }
    }
    var r := Retry(e, q, attempts);
    AccountDecidesTheEnd(r, matching, failing);
    ElementsAreFew(r.runs);
  }

  /** Later steps that raise on every attempt kill the event after six attempts, whatever its workflows do. */
  lemma {:induction false} LaterFailuresKill(e: Event, q: Queues, attempts: seq<Attempt>)
    requires e.status == Pending && e.attempts <= 5 && (e.eventType != "call.ended" || q.maintenance)
    requires forall a :: a in attempts ==> LaterStepRaises(e, q, a)
    ensures var r := Retry(e, q, attempts);
            if e.attempts + |attempts| > 5 then r.status == Dead && r.attempts == 6
            else r.status == Pending && r.attempts == e.attempts + |attempts|
    decreases |attempts|
  {
    if attempts != [] {
      var next := AfterAttempt(e, q, attempts[0]);
      HandlingEnds(e, q, attempts[0]);
      if next.status == Pending {
        assert forall a :: a in attempts[1..] ==> a in attempts && LaterStepRaises(e, q, a);
        LaterFailuresKill(next, q, attempts[1..]);
      }
    }
  }

  /** A payload with a malformed id fails every attempt before any run exists: the event dies without runs. */
  lemma {:induction false} MalformedPayloadDies(e: Event, q: Queues, attempts: seq<Attempt>)
    requires Bounded(e) && e.status == Pending && e.runs == []
    requires q.workflow && !Skipped(e, q)
    requires forall a :: a in attempts ==> a.order != [] && !a.payloadOk
    requires e.attempts + |attempts| > MAX_RETRIES
    ensures Retry(e, q, attempts) == e.(status := Dead, attempts := MAX_RETRIES + 1)
    decreases |attempts|
  {
    var a := attempts[0];
    assert StartRuns(e.runs, a, 0) == ([], true);
    var next := AfterAttempt(e, q, a);
    if next.status == Pending {
      MalformedPayloadDies(next, q, attempts[1..]);
    }
  }
}
