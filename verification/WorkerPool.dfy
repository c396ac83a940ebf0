/**
 Several workers dispatch from one outbox table. A worker's transaction locks the pending rows it
 selected (rows locked by others are skipped), works on its own copies, and either commits the
 whole batch or rolls all of it back.
 */
module WorkerPool {
  import opened Basics
  import opened Outbox
  import opened Dispatch

  type WorkerId = nat

  /**
   `locked` are the rows selected FOR UPDATE, `todo` the ids not reached yet, `queued` the id between
   its mark and the end of its handling, `rows` the working copies.
   */
  datatype Tx = Idle
    | Open(locked: set<EventId>, todo: seq<EventId>, queued: Option<EventId>, rows: map<EventId, Event>)

  /** `ends` counts, per event, the committed moves from an unsettled to a settled row. */
  datatype System = System(rows: map<EventId, Event>, txs: map<WorkerId, Tx>, ends: multiset<EventId>)

  datatype Step =
    | Begin(w: WorkerId, ids: seq<EventId>)
    | Reach(w: WorkerId)
    | Handle(w: WorkerId, met: Attempt)
    | Commit(w: WorkerId)
    | Crash(w: WorkerId)
    | Insert(id: EventId, eventType: string)

  ghost predicate Locked(s: System, id: EventId) {
    exists w :: w in s.txs && s.txs[w].Open? && id in s.txs[w].locked
  }

  ghost predicate Enabled(s: System, step: Step) {
    match step
    case Begin(w, ids) =>
      w in s.txs && s.txs[w].Idle? && NoDups(ids) &&
      forall id :: id in ids ==> id in s.rows && s.rows[id].status == Pending && !Locked(s, id)
    case Reach(w) =>
      w in s.txs && s.txs[w].Open? && s.txs[w].queued == None && s.txs[w].todo != [] &&
      s.txs[w].todo[0] in s.txs[w].rows
    case Handle(w, _) =>
      w in s.txs && s.txs[w].Open? && s.txs[w].queued.Some? && s.txs[w].queued.value in s.txs[w].rows
    case Commit(w) => w in s.txs && s.txs[w].Open? && s.txs[w].queued == None && s.txs[w].todo == []
    case Crash(w) => w in s.txs && s.txs[w].Open?
    case Insert(id, _) => id !in s.rows
  }

  /** A worker reaches its next id: it passes over it, or marks its copy queued. */
  function ReachNext(tx: Tx, q: Queues): Tx
    requires tx.Open? && tx.todo != [] && tx.todo[0] in tx.rows
  {
    var id := tx.todo[0];
    if Skipped(tx.rows[id], q) then tx.(todo := tx.todo[1..])
    else tx.(todo := tx.todo[1..], queued := Some(id), rows := tx.rows[id := tx.rows[id].(status := Queued)])
  }

  function HandleQueued(tx: Tx, q: Queues, a: Attempt): Tx
    requires tx.Open? && tx.queued.Some? && tx.queued.value in tx.rows
  {
    var id := tx.queued.value;
    tx.(queued := None, rows := tx.rows[id := AfterAttempt(tx.rows[id], q, a)])
  }

  /** The events a commit moves from an unsettled to a settled row. */
  function Settling(before: map<EventId, Event>, changes: map<EventId, Event>): set<EventId> {
    set id | id in changes && id in before && !Settled(before[id]) && Settled(changes[id])
  }

  /** The working copies belong to the locked rows; in every reachable state they do. */
  ghost predicate TxValid(s: System, tx: Tx) {
    tx.Open? ==>
      && tx.rows.Keys == tx.locked <= s.rows.Keys
      && NoDups(tx.todo)
      && (forall id :: id in tx.todo ==> id in tx.locked && tx.rows[id] == s.rows[id])
      && (tx.queued.Some? ==>
            var id := tx.queued.value;
            id in tx.locked && id !in tx.todo && tx.rows[id] == s.rows[id].(status := Queued))
      && (forall id :: id in tx.locked ==>
            && s.rows[id].status == Pending
            && s.rows[id].runs <= tx.rows[id].runs
            && (Some(id) == tx.queued || Bounded(tx.rows[id])))
  }

  ghost predicate Inv(s: System) {
    && (forall id :: id in s.rows ==> Bounded(s.rows[id]))
    && (forall w :: w in s.txs ==> TxValid(s, s.txs[w]))
    && (forall v, w :: v in s.txs && w in s.txs && v != w && s.txs[v].Open? && s.txs[w].Open? ==>
          s.txs[v].locked !! s.txs[w].locked)
    && (forall id :: id in s.ends ==> s.ends[id] == 1 && id in s.rows && Settled(s.rows[id]))
  }

  /** `queues` gives each worker's queue list. */
  ghost function After(s: System, step: Step, queues: WorkerId -> Queues): System
    requires Enabled(s, step)
  {
    match step
    case Begin(w, ids) =>
      s.(txs := s.txs[w := Open(Elements(ids), ids, None, map id | id in Elements(ids) :: s.rows[id])])
    case Reach(w) => s.(txs := s.txs[w := ReachNext(s.txs[w], queues(w))])
    case Handle(w, a) => s.(txs := s.txs[w := HandleQueued(s.txs[w], queues(w), a)])
    case Commit(w) =>
      System(s.rows + s.txs[w].rows, s.txs[w := Idle], s.ends + multiset(Settling(s.rows, s.txs[w].rows)))
    case Crash(w) => s.(txs := s.txs[w := Idle])
    case Insert(id, eventType) => s.(rows := s.rows[id := Event(eventType, Pending, 0, [])])
  }

  // ---------------------------------------------------------------- safety of every step

  lemma ReachKeepsTx(s: System, tx: Tx, q: Queues)
    requires TxValid(s, tx) && tx.Open? && tx.queued == None && tx.todo != []
    requires forall id :: id in s.rows ==> Bounded(s.rows[id])
    ensures TxValid(s, ReachNext(tx, q))
  {
    assert tx.todo[0] in tx.todo;
    assert forall id :: id in tx.todo[1..] ==> id in tx.todo && id != tx.todo[0];
  }

  lemma HandleKeepsTx(s: System, tx: Tx, q: Queues, a: Attempt)
    requires TxValid(s, tx) && tx.Open? && tx.queued.Some?
    requires forall id :: id in s.rows ==> Bounded(s.rows[id])
    ensures TxValid(s, HandleQueued(tx, q, a))
  {
    AttemptKeepsBounds(tx.rows[tx.queued.value], q, a);
  }

  lemma CommitKeepsOthers(s: System, w: WorkerId, tx: Tx)
    requires TxValid(s, tx) && w in s.txs && s.txs[w].Open? && TxValid(s, s.txs[w])
    requires tx.Open? ==> tx.locked !! s.txs[w].locked
    ensures TxValid(s.(rows := s.rows + s.txs[w].rows), tx)
  {
  }

  lemma CommitKeepsRows(s: System, w: WorkerId)
    requires Inv(s) && Enabled(s, Commit(w))
    ensures var rows := s.rows + s.txs[w].rows;
            var ends := s.ends + multiset(Settling(s.rows, s.txs[w].rows));
            && (forall id :: id in rows ==> Bounded(rows[id]))
            && (forall id :: id in ends ==> ends[id] == 1 && id in rows && Settled(rows[id]))
  {
    assert TxValid(s, s.txs[w]);
  }

  lemma ReplaceTx(s: System, w: WorkerId, tx: Tx)
    requires Inv(s) && w in s.txs && TxValid(s, tx)
    requires tx.Open? ==> forall v :: v in s.txs && v != w && s.txs[v].Open? ==> s.txs[v].locked !! tx.locked
    ensures Inv(s.(txs := s.txs[w := tx]))
  {
    var s' := s.(txs := s.txs[w := tx]);
    forall v | v in s'.txs ensures TxValid(s', s'.txs[v]) {
      assert TxValid(s, s'.txs[v]);
    }
  }

  lemma BeginKeepsInv(s: System, w: WorkerId, ids: seq<EventId>, queues: WorkerId -> Queues)
    requires Inv(s) && Enabled(s, Begin(w, ids))
    ensures Inv(After(s, Begin(w, ids), queues))
  {
    var tx := After(s, Begin(w, ids), queues).txs[w];
    forall v | v in s.txs && v != w && s.txs[v].Open? ensures s.txs[v].locked !! tx.locked {
      forall id | id in tx.locked ensures id !in s.txs[v].locked {
        assert !Locked(s, id);
      }
    }
    ReplaceTx(s, w, tx);
  }

  lemma CommitKeepsInv(s: System, w: WorkerId, queues: WorkerId -> Queues)
    requires Inv(s) && Enabled(s, Commit(w))
    ensures Inv(After(s, Commit(w), queues))
  {
    var s' := After(s, Commit(w), queues);
    CommitKeepsRows(s, w);
    forall v | v in s'.txs ensures TxValid(s', s'.txs[v]) {
      if v != w {
        assert TxValid(s, s.txs[v]) && TxValid(s, s.txs[w]);
        CommitKeepsOthers(s, w, s.txs[v]);
      }
    }
  }

  lemma InsertKeepsInv(s: System, id: EventId, eventType: string, queues: WorkerId -> Queues)
    requires Inv(s) && Enabled(s, Insert(id, eventType))
    ensures Inv(After(s, Insert(id, eventType), queues))
  {
    var s' := After(s, Insert(id, eventType), queues);
    forall v | v in s'.txs ensures TxValid(s', s'.txs[v]) {
      assert TxValid(s, s.txs[v]);
    }
  }

  lemma StepKeepsInv(s: System, step: Step, queues: WorkerId -> Queues)
    requires Inv(s) && Enabled(s, step)
    ensures Inv(After(s, step, queues))
  {
    match step
    case Begin(w, ids) => BeginKeepsInv(s, w, ids, queues);
    case Reach(w) =>
      ReachKeepsTx(s, s.txs[w], queues(w));
      ReplaceTx(s, w, ReachNext(s.txs[w], queues(w)));
    case Handle(w, a) =>
      HandleKeepsTx(s, s.txs[w], queues(w), a);
      ReplaceTx(s, w, HandleQueued(s.txs[w], queues(w), a));
    case Commit(w) => CommitKeepsInv(s, w, queues);
    case Crash(w) => ReplaceTx(s, w, Idle);
    case Insert(id, eventType) => InsertKeepsInv(s, id, eventType, queues);
  }

  /** A settled row never changes again, and no step removes a row. */
  lemma SettledIsAbsorbing(s: System, step: Step, queues: WorkerId -> Queues)
    requires Inv(s) && Enabled(s, step)
    ensures forall id :: id in s.rows ==> id in After(s, step, queues).rows
    ensures forall id :: id in s.rows && s.rows[id].status in {Processed, Dead} ==>
              After(s, step, queues).rows[id] == s.rows[id]
  {
    if step.Commit? {
      assert TxValid(s, s.txs[step.w]);
    }
  }

  // ---------------------------------------------------------------- whole runs

  ghost predicate Initial(s: System) {
    && (forall id :: id in s.rows ==> Bounded(s.rows[id]))
    && (forall w :: w in s.txs ==> s.txs[w].Idle?)
    && s.ends == multiset{}
  }

  ghost predicate Execution(run: seq<System>, steps: seq<Step>, queues: WorkerId -> Queues) {
    && |run| == |steps| + 1
    && Initial(run[0])
    && forall i :: 0 <= i < |steps| ==> Enabled(run[i], steps[i]) && run[i + 1] == After(run[i], steps[i], queues)
  }

  lemma {:induction false} ReachableIsInvariant(run: seq<System>, steps: seq<Step>, queues: WorkerId -> Queues, i: nat)
    requires Execution(run, steps, queues) && i < |run|
    ensures Inv(run[i])
  {
    if i > 0 {
      ReachableIsInvariant(run, steps, queues, i - 1);
      StepKeepsInv(run[i - 1], steps[i - 1], queues);
    }
  }

  /**
   Safety of the pool over any interleaving, crashes included: no event is held by two open
   transactions, no committed row reads queued, and the move into processed or dead is committed at
   most once per event.
   */
  lemma PoolIsSafe(run: seq<System>, steps: seq<Step>, queues: WorkerId -> Queues, i: nat)
    requires Execution(run, steps, queues) && i < |run|
    ensures forall v, w :: v in run[i].txs && w in run[i].txs && v != w &&
                             run[i].txs[v].Open? && run[i].txs[w].Open? ==>
                             run[i].txs[v].locked !! run[i].txs[w].locked
    ensures forall id :: id in run[i].rows ==> run[i].rows[id].status != Queued
    ensures forall id :: run[i].ends[id] <= 1
    ensures forall id :: id in run[i].rows ==> NoDups(run[i].rows[id].runs)
  {
    ReachableIsInvariant(run, steps, queues, i);
    forall id ensures run[i].ends[id] <= 1 {
      assert id in run[i].ends || run[i].ends[id] == 0;
    }
  }

  lemma {:induction false} SettledForever(
    run: seq<System>, steps: seq<Step>, queues: WorkerId -> Queues, i: nat, j: nat, id: EventId)
    requires Execution(run, steps, queues) && i <= j < |run|
    requires id in run[i].rows && run[i].rows[id].status in {Processed, Dead}
    ensures id in run[j].rows && run[j].rows[id] == run[i].rows[id]
    decreases j - i
  {
    if i < j {
      SettledForever(run, steps, queues, i, j - 1, id);
      ReachableIsInvariant(run, steps, queues, j - 1);
      SettledIsAbsorbing(run[j - 1], steps[j - 1], queues);
    }
  }

  // ---------------------------------------------------------------- retries across workers

  /** Between two steps every row, committed or in the hands of a worker, keeps its account. */
  ghost predicate AllAccounted(
    s: System, matching: EventId -> set<WorkflowId>, failing: EventId -> set<WorkflowId>) {
    && (forall id :: id in s.rows ==> Accounted(s.rows[id], matching(id), failing(id)))
    && (forall w :: w in s.txs ==> TxAccounted(s.txs[w], matching, failing))
  }

  ghost predicate TxAccounted(tx: Tx, matching: EventId -> set<WorkflowId>, failing: EventId -> set<WorkflowId>) {
    tx.Open? ==> forall id :: id in tx.rows ==> Accounted(Unmarked(tx, id), matching(id), failing(id))
  }

  /** A working copy with its transient queued mark read as pending. */
  function Unmarked(tx: Tx, id: EventId): Event
    requires tx.Open? && id in tx.rows
  {
    if tx.queued == Some(id) then tx.rows[id].(status := Pending) else tx.rows[id]
  }

  /** Every worker runs workflows, and only the workflows in `failing` ever go wrong. */
  ghost predicate OnlyWorkflowsGoWrong(
    s: System, step: Step, queues: WorkerId -> Queues,
    matching: EventId -> set<WorkflowId>, failing: EventId -> set<WorkflowId>)
    requires Enabled(s, step)
  {
    match step
    case Handle(w, a) =>
      queues(w).workflow && OnlyWorkflowsFail(a, matching(s.txs[w].queued.value), failing(s.txs[w].queued.value))
    case Insert(id, _) => failing(id) <= matching(id)
    case _ => true
  }

  lemma CommitKeepsAccount(
    s: System, w: WorkerId, queues: WorkerId -> Queues,
    matching: EventId -> set<WorkflowId>, failing: EventId -> set<WorkflowId>)
    requires Enabled(s, Commit(w)) && AllAccounted(s, matching, failing)
    ensures AllAccounted(After(s, Commit(w), queues), matching, failing)
  {
    var tx := s.txs[w];
    assert TxAccounted(tx, matching, failing);
    forall id | id in tx.rows ensures Accounted(tx.rows[id], matching(id), failing(id)) {
      assert Accounted(Unmarked(tx, id), matching(id), failing(id));
    }
  }

  lemma HandleKeepsAccount(
    s: System, tx: Tx, q: Queues, a: Attempt,
    matching: EventId -> set<WorkflowId>, failing: EventId -> set<WorkflowId>)
    requires tx.Open? && tx.queued.Some? && tx.queued.value in tx.rows && TxAccounted(tx, matching, failing)
    requires q.workflow && OnlyWorkflowsFail(a, matching(tx.queued.value), failing(tx.queued.value))
    ensures TxAccounted(HandleQueued(tx, q, a), matching, failing)
  {
    var id := tx.queued.value;
    assert Accounted(Unmarked(tx, id), matching(id), failing(id));
    if !Skipped(tx.rows[id], q) {
      AttemptKeepsAccount(tx.rows[id], q, a, matching(id), failing(id));
    }
    forall k | k in tx.rows && k != id
      ensures Unmarked(HandleQueued(tx, q, a), k) == Unmarked(tx, k)
    {
    }
  }

  lemma ReachKeepsAccount(
    s: System, tx: Tx, q: Queues, matching: EventId -> set<WorkflowId>, failing: EventId -> set<WorkflowId>)
    requires TxValid(s, tx) && tx.Open? && tx.queued == None && tx.todo != [] && tx.todo[0] in tx.rows
    requires TxAccounted(tx, matching, failing)
    ensures TxAccounted(ReachNext(tx, q), matching, failing)
  {
    forall id | id in tx.rows ensures Unmarked(ReachNext(tx, q), id) == Unmarked(tx, id) {
    }
  }

  lemma BeginKeepsAccount(
    s: System, w: WorkerId, ids: seq<EventId>, queues: WorkerId -> Queues,
    matching: EventId -> set<WorkflowId>, failing: EventId -> set<WorkflowId>)
    requires Inv(s) && Enabled(s, Begin(w, ids)) && AllAccounted(s, matching, failing)
    ensures AllAccounted(After(s, Begin(w, ids), queues), matching, failing)
  {
    assert TxAccounted(After(s, Begin(w, ids), queues).txs[w], matching, failing);
  }

  lemma InsertKeepsAccount(
    s: System, id: EventId, eventType: string, queues: WorkerId -> Queues,
    matching: EventId -> set<WorkflowId>, failing: EventId -> set<WorkflowId>)
    requires Inv(s) && Enabled(s, Insert(id, eventType)) && AllAccounted(s, matching, failing)
    requires failing(id) <= matching(id)
    ensures AllAccounted(After(s, Insert(id, eventType), queues), matching, failing)
  {
    assert Burnt([], failing(id)) == {};
  }

  lemma StepKeepsAccount(
    s: System, step: Step, queues: WorkerId -> Queues,
    matching: EventId -> set<WorkflowId>, failing: EventId -> set<WorkflowId>)
    requires Inv(s) && Enabled(s, step) && AllAccounted(s, matching, failing)
    requires OnlyWorkflowsGoWrong(s, step, queues, matching, failing)
    ensures AllAccounted(After(s, step, queues), matching, failing)
  {
    match step
    case Begin(w, ids) => BeginKeepsAccount(s, w, ids, queues, matching, failing);
    case Reach(w) => ReachKeepsAccount(s, s.txs[w], queues(w), matching, failing);
    case Handle(w, a) => HandleKeepsAccount(s, s.txs[w], queues(w), a, matching, failing);
    case Commit(w) => CommitKeepsAccount(s, w, queues, matching, failing);
    case Crash(_) =>
    case Insert(id, eventType) => InsertKeepsAccount(s, id, eventType, queues, matching, failing);
  }

  lemma {:induction false} ReachableIsAccounted(
    run: seq<System>, steps: seq<Step>, queues: WorkerId -> Queues,
    matching: EventId -> set<WorkflowId>, failing: EventId -> set<WorkflowId>, i: nat)
    requires Execution(run, steps, queues) && i < |run| && AllAccounted(run[0], matching, failing)
    requires forall k :: 0 <= k < |steps| ==> OnlyWorkflowsGoWrong(run[k], steps[k], queues, matching, failing)
    ensures AllAccounted(run[i], matching, failing)
  {
    if i > 0 {
      ReachableIsAccounted(run, steps, queues, matching, failing, i - 1);
      ReachableIsInvariant(run, steps, queues, i - 1);
      StepKeepsAccount(run[i - 1], steps[i - 1], queues, matching, failing);
    }
  }

  /**
   The retry bound holds in every interleaving of any number of workers: an event that was processed
   had at most five failing workflows and has exactly one run for each match; an event that is dead
   had six or more.
   */
  lemma EndsAreDecidedByFailures(
    run: seq<System>, steps: seq<Step>, queues: WorkerId -> Queues,
    matching: EventId -> set<WorkflowId>, failing: EventId -> set<WorkflowId>, i: nat, id: EventId)
    requires Execution(run, steps, queues) && i < |run| && AllAccounted(run[0], matching, failing)
    requires forall k :: 0 <= k < |steps| ==> OnlyWorkflowsGoWrong(run[k], steps[k], queues, matching, failing)
    requires id in run[i].rows
    ensures var e := run[i].rows[id];
            && (e.status == Processed ==>
                  |failing(id)| <= MAX_RETRIES && e.attempts == |failing(id)| &&
                  NoDups(e.runs) && Elements(e.runs) == matching(id))
            && (e.status == Dead ==> |failing(id)| > MAX_RETRIES && e.attempts == MAX_RETRIES + 1)
  {
    ReachableIsAccounted(run, steps, queues, matching, failing, i);
    AccountDecidesTheEnd(run[i].rows[id], matching(id), failing(id));
  }
}
