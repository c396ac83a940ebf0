/**
 The worker's batch over the outbox table: the first `limit` pending rows by age are handled, each
 handling moves its row strictly closer to its end, and so a worker that takes every event type
 drains any backlog.
 */
module Dispatch {
  import opened Basics
  import opened Outbox

  type EventId = nat

  // ---------------------------------------------------------------- the batch

  /** `SELECT id ... WHERE status = 'pending' ORDER BY occurred_at LIMIT n`, ids given oldest first. */
  function FirstPending(rows: map<EventId, Event>, byAge: seq<EventId>, limit: nat): (ids: seq<EventId>)
    requires forall id :: id in byAge ==> id in rows
    ensures |ids| <= limit
    ensures forall id :: id in ids ==> id in byAge && rows[id].status == Pending
    ensures NoDups(byAge) ==> NoDups(ids)
    ensures |ids| < limit ==> forall id :: id in byAge && rows[id].status == Pending ==> id in ids
  {
    if byAge == [] || limit == 0 then []
    else if rows[byAge[0]].status == Pending then [byAge[0]] + FirstPending(rows, byAge[1..], limit - 1)
    else FirstPending(rows, byAge[1..], limit)
  }

  /** No pending row is passed over for a younger one. */
  lemma {:induction false} FirstPendingIsOldest(
    rows: map<EventId, Event>, byAge: seq<EventId>, limit: nat, i: nat, j: nat)
    requires NoDups(byAge) && forall id :: id in byAge ==> id in rows
    requires i < j < |byAge| && rows[byAge[i]].status == Pending && byAge[j] in FirstPending(rows, byAge, limit)
    ensures byAge[i] in FirstPending(rows, byAge, limit)
    decreases i
  {
    if i > 0 {
      var rest, left := byAge[1..], if rows[byAge[0]].status == Pending then limit - 1 else limit;
      assert byAge[j] == rest[j - 1] && byAge[i] == rest[i - 1] && byAge[j] != byAge[0];
      FirstPendingIsOldest(rows, rest, left, i - 1, j - 1);
    }
  }

  /** The table after every event of the batch that this worker may take was handled once. */
  function AfterBatch(rows: map<EventId, Event>, batch: seq<EventId>, q: Queues, met: EventId -> Attempt)
    : (after: map<EventId, Event>)
    ensures after.Keys == rows.Keys
  {
    map id | id in rows :: if id in batch && !Skipped(rows[id], q) then AfterAttempt(rows[id], q, met(id)) else rows[id]
  }

  /** One turn of the batch loop: a row that is ours is marked queued and processed. */
  function AfterTurn(rows: map<EventId, Event>, id: EventId, q: Queues, a: Attempt): map<EventId, Event>
    requires id in rows
  {
    if Skipped(rows[id], q) then rows else rows[id := AfterAttempt(rows[id].(status := Queued), q, a)]
  }

  /** One turn after the other. */
  function AfterTurns(rows: map<EventId, Event>, ids: seq<EventId>, q: Queues, met: EventId -> Attempt)
    : (after: map<EventId, Event>)
    requires forall id :: id in ids ==> id in rows
    ensures after.Keys == rows.Keys
  {
    if ids == [] then rows
    else
      var last := ids[|ids| - 1];
      AfterTurn(AfterTurns(rows, ids[..|ids| - 1], q, met), last, q, met(last))
  }

  class OutboxTable {
    var rows: map<EventId, Event>
    const byAge: seq<EventId>      // ids ordered by occurred_at

    ghost predicate Valid()
      reads this
    {
      && NoDups(byAge)
      && (forall id :: id in byAge <==> id in rows)
      && forall id :: id in rows ==> Bounded(rows[id])
    }

    constructor (rows: map<EventId, Event>, byAge: seq<EventId>)
      requires NoDups(byAge) && forall id :: id in byAge <==> id in rows
      requires forall id :: id in rows ==> Bounded(rows[id])
      ensures Valid() && this.rows == rows && this.byAge == byAge
    {
      this.rows, this.byAge := rows, byAge;
    }

    method HandleOne(id: EventId, q: Queues, a: Attempt) returns (taken: bool)
      requires id in rows
      modifies this`rows
      ensures taken == !Skipped(old(rows)[id], q)
      ensures rows == AfterTurn(old(rows), id, q, a)
    {
      if Skipped(rows[id], q) {
        return false;
      }
      var row := new OutboxRow(rows[id].(status := Queued));
      row.ProcessOutboxEvent(q, a);
      rows := rows[id := row.Row()];
      return true;
    }

    /** The loop over the claimed ids; `met(id)` is what handling event `id` meets. */
    method HandleAll(ids: seq<EventId>, q: Queues, met: EventId -> Attempt) returns (claimed: nat)
      requires NoDups(ids) && forall id :: id in ids ==> id in rows
      modifies this`rows
      ensures rows == AfterBatch(old(rows), ids, q, met)
      ensures claimed == 0 <==> !Takes(old(rows), ids, q)
    {
      claimed := 0;
      for i := 0 to |ids|
        invariant rows == AfterTurns(old(rows), ids[..i], q, met)
        invariant claimed == 0 <==> !Takes(old(rows), ids[..i], q)
      {
        NextTurn(old(rows), ids, i, q, met);
        var taken := HandleOne(ids[i], q, met(ids[i]));
        if taken {
          claimed := claimed + 1;
        }
      }
      assert ids[..|ids|] == ids;
      TurnsAreBatch(old(rows), ids, q, met);
    }

    method DispatchOutboxBatch(limit: nat, q: Queues, met: EventId -> Attempt) returns (claimed: nat)
      requires Valid()
      modifies this`rows
      ensures Valid()
      ensures rows == AfterBatch(old(rows), FirstPending(old(rows), byAge, limit), q, met)
      ensures claimed == 0 <==> !Takes(old(rows), FirstPending(old(rows), byAge, limit), q)
    {
      var ids := FirstPending(rows, byAge, limit);
      claimed := HandleAll(ids, q, met);
      AfterBatchIsBounded(old(rows), ids, q, met);
    }

    /**
     The worker loop of a worker with the maintenance queue, until it finds nothing pending.
     `met(n)` is what the n-th batch meets; `handled` counts how often each event was handled.
     */
    method RunUntilDrained(limit: nat, q: Queues, met: nat -> EventId -> Attempt)
      returns (handled: map<EventId, nat>)
      requires Valid() && limit >= 1 && q.maintenance
      modifies this`rows
      ensures Valid() && rows.Keys == old(rows).Keys == handled.Keys
      ensures forall id :: id in rows ==> rows[id].status in {Processed, Dead}
      ensures forall id :: id in rows ==> handled[id] <= 6
      ensures forall id :: id in rows && old(rows)[id].status in {Processed, Dead} ==>
                rows[id] == old(rows)[id] && handled[id] == 0
    {
      handled := map id | id in rows :: 0;
      var n := 0;
      var ids := FirstPending(rows, byAge, limit);
      while ids != []
        invariant Valid() && ids == FirstPending(rows, byAge, limit)
        invariant Draining(old(rows), rows, handled)
        decreases WorkLeft(rows, byAge)
      {
        BatchProgressIff(rows, byAge, limit, q, met(n));
        DrainStep(old(rows), rows, handled, ids, q, met(n));
        var claimed := DispatchOutboxBatch(limit, q, met(n));
        handled := CountBatch(handled, ids);
        n := n + 1;
        ids := FirstPending(rows, byAge, limit);
      }
    }
  }

  // ---------------------------------------------------------------- progress

  predicate Settled(e: Event) {
    e.status == Processed || e.status == Dead
  }

  /** How often an event must have been handled to be in this state. */
  function Handlings(e: Event): nat {
    e.attempts + if e.status == Processed then 1 else 0
  }

  function Left(e: Event): nat {
    if e.status == Pending && e.attempts <= MAX_RETRIES then MAX_RETRIES + 1 - e.attempts else 0
  }

  /** The sum of (6 - attempts) over the pending rows. */
  function WorkLeft(rows: map<EventId, Event>, ids: seq<EventId>): nat
    requires forall id :: id in ids ==> id in rows
  {
    if ids == [] then 0 else Left(rows[ids[0]]) + WorkLeft(rows, ids[1..])
  }

  lemma AttemptMovesOn(e: Event, q: Queues, a: Attempt)
    requires Bounded(e) && e.status == Pending
    ensures var after := AfterAttempt(e, q, a);
            && (Skipped(e, q) ==> after == e)
            && (!Skipped(e, q) ==> Handlings(after) == Handlings(e) + 1 && Left(after) < Left(e))
  {
    AttemptKeepsBounds(e, q, a);
  }

  /** The queued mark is overwritten by whatever handling comes to. */
  lemma MarkIsOverwritten(e: Event, q: Queues, a: Attempt)
    requires !Skipped(e, q)
    ensures AfterAttempt(e.(status := Queued), q, a) == AfterAttempt(e, q, a)
  {
  }

  lemma OneMoreTurn(rows: map<EventId, Event>, init: seq<EventId>, last: EventId, q: Queues, met: EventId -> Attempt)
    requires last in rows && last !in init
    ensures AfterBatch(rows, init + [last], q, met) == AfterTurn(AfterBatch(rows, init, q, met), last, q, met(last))
  {
    var before := AfterBatch(rows, init, q, met);
    assert before[last] == rows[last];
    if !Skipped(rows[last], q) {
      MarkIsOverwritten(rows[last], q, met(last));
    }
    assert forall id :: id in init + [last] <==> id in init || id == last;
  }

  /** No row is handled twice in a batch, so turn after turn amounts to handling every row as it was. */
  lemma {:induction false} TurnsAreBatch(rows: map<EventId, Event>, ids: seq<EventId>, q: Queues,
    met: EventId -> Attempt)
    requires NoDups(ids) && forall id :: id in ids ==> id in rows
    ensures AfterTurns(rows, ids, q, met) == AfterBatch(rows, ids, q, met)
  {
    if ids != [] {
      var init, last := ids[..|ids| - 1], ids[|ids| - 1];
      TurnsAreBatch(rows, init, q, met);
      OneMoreTurn(rows, init, last, q, met);
      assert ids == init + [last];
    }
  }

  /** The next turn meets its row as it was before the batch. */
  lemma NextTurn(rows: map<EventId, Event>, ids: seq<EventId>, i: nat, q: Queues, met: EventId -> Attempt)
    requires NoDups(ids) && i < |ids| && forall id :: id in ids ==> id in rows
    ensures var before := AfterTurns(rows, ids[..i], q, met);
            && before[ids[i]] == rows[ids[i]]
            && AfterTurns(rows, ids[..i + 1], q, met) == AfterTurn(before, ids[i], q, met(ids[i]))
    ensures Takes(rows, ids[..i + 1], q) <==> Takes(rows, ids[..i], q) || !Skipped(rows[ids[i]], q)
  {
    TurnsAreBatch(rows, ids[..i], q, met);
    assert ids[..i + 1] == ids[..i] + [ids[i]] && ids[..i + 1][..i] == ids[..i];
  }

  lemma AfterBatchIsBounded(rows: map<EventId, Event>, batch: seq<EventId>, q: Queues, met: EventId -> Attempt)
    requires forall id :: id in rows ==> Bounded(rows[id])
    requires forall id :: id in batch && id in rows ==> rows[id].status == Pending
    ensures var after := AfterBatch(rows, batch, q, met); forall id :: id in after ==> Bounded(after[id])
  {
    forall id | id in batch && id in rows ensures Bounded(AfterAttempt(rows[id], q, met(id))) {
      AttemptKeepsBounds(rows[id], q, met(id));
    }
  }

  function CountBatch(handled: map<EventId, nat>, batch: seq<EventId>): map<EventId, nat> {
    map id | id in handled :: if id in batch then handled[id] + 1 else handled[id]
  }

  /** Book-keeping of a drain that began with `first`: counts are exact and settled rows stay as they were. */
  ghost predicate Draining(first: map<EventId, Event>, rows: map<EventId, Event>, handled: map<EventId, nat>) {
    && rows.Keys == first.Keys == handled.Keys
    && forall id :: id in rows ==>
         && handled[id] == Handlings(rows[id]) - Handlings(first[id])
         && (Settled(first[id]) ==> rows[id] == first[id])
  }

  lemma DrainStep(first: map<EventId, Event>, rows: map<EventId, Event>, handled: map<EventId, nat>,
                  batch: seq<EventId>, q: Queues, met: EventId -> Attempt)
    requires q.maintenance && Draining(first, rows, handled)
    requires forall id :: id in rows ==> Bounded(rows[id])
    requires forall id :: id in batch ==> id in rows && rows[id].status == Pending
    ensures Draining(first, AfterBatch(rows, batch, q, met), CountBatch(handled, batch))
  {
    forall id | id in batch
      ensures Handlings(AfterAttempt(rows[id], q, met(id))) == Handlings(rows[id]) + 1
    {
      AttemptMovesOn(rows[id], q, met(id));
    }
  }

  /** Some event of the batch may be taken by this worker. */
  ghost predicate Takes(rows: map<EventId, Event>, batch: seq<EventId>, q: Queues) {
    exists id :: id in batch && id in rows && !Skipped(rows[id], q)
  }

  lemma {:induction false} BatchOnSublist(
    rows: map<EventId, Event>, ids: seq<EventId>, batch: seq<EventId>, q: Queues, met: EventId -> Attempt)
    requires forall id :: id in ids || id in batch ==> id in rows
    requires forall id :: id in rows ==> Bounded(rows[id])
    requires forall id :: id in batch ==> rows[id].status == Pending
    ensures var after := AfterBatch(rows, batch, q, met);
            && WorkLeft(after, ids) <= WorkLeft(rows, ids)
            && (WorkLeft(after, ids) < WorkLeft(rows, ids) <==>
                exists id :: id in ids && id in batch && !Skipped(rows[id], q))
  {
    if ids != [] {
      BatchOnSublist(rows, ids[1..], batch, q, met);
      var id := ids[0];
      if id in batch {
        AttemptMovesOn(rows[id], q, met(id));
      }
      assert forall x :: x in ids <==> x == id || x in ids[1..];
    }
  }

  /**
   A batch lowers the work left exactly when it holds an event this worker may take. Without the
   maintenance queue a batch of nothing but call.ended events changes nothing at all, however many
   other events wait behind it.
   */
  lemma BatchProgressIff(
    rows: map<EventId, Event>, byAge: seq<EventId>, limit: nat, q: Queues, met: EventId -> Attempt)
    requires NoDups(byAge) && forall id :: id in byAge <==> id in rows
    requires forall id :: id in rows ==> Bounded(rows[id])
    ensures var batch := FirstPending(rows, byAge, limit);
            var after := AfterBatch(rows, batch, q, met);
            && (WorkLeft(after, byAge) < WorkLeft(rows, byAge) <==> Takes(rows, batch, q))
            && (!Takes(rows, batch, q) ==> after == rows)
            && (q.maintenance && batch != [] ==> Takes(rows, batch, q))
  {
    var batch := FirstPending(rows, byAge, limit);
    BatchOnSublist(rows, byAge, batch, q, met);
    if q.maintenance && batch != [] {
      assert batch[0] in batch;
    }
  }
}
