/**
 Every change goes through one call that writes its audit row, its outbox row and its timeline row
 into the session; ids of outbox rows are announced to the broker only after the commit.
 */
module History {
  import opened Basics

  type Id = nat          // identifies one write call; the outbox row written by it carries the id
  type SessionId = nat

  type Columns = map<string, Option<int>>

  datatype Actor = Actor(kind: string, id: Option<string>)

  datatype FieldChange = FieldChange(field: string, before: Option<int>, after: Option<int>)

  /** What a call writes; a touch is the new activity stamp of a ticket. */
  datatype Row =
    | Audit(call: Id, entityType: string, entity: Id, action: string, actor: Actor, changes: seq<FieldChange>,
            snapshot: Option<Columns>)
    | Outbox(call: Id, entityType: string, entity: Id, eventType: string, key: string)
    | Timeline(call: Id, contact: Id, about: Option<Id>, actor: Actor)
    | Touch(call: Id, ticket: Id, at: int)

  datatype MutateRequest = MutateRequest(
    entityType: string, entity: Id, action: string, changes: seq<FieldChange>, actor: Option<Actor>,
    snapshot: Option<Columns>, eventType: Option<string>, key: Option<string>, timeline: bool,
    contact: Option<Id>, ticket: Option<Id>)

  // ---------------------------------------------------------------- diffs

  function ColumnOf(c: Columns, key: string): Option<int> {
    if key in c then c[key] else None
  }

  predicate Ignored(key: string) {
    key in ["created_at", "updated_at", "last_activity_at"]
  }

  function Apply(c: Columns, changes: seq<FieldChange>): Columns {
    if changes == [] then c
    else Apply(c, changes[..|changes| - 1])[changes[|changes| - 1].field := changes[|changes| - 1].after]
  }

  /** Replayed in order, a change decides its own column and leaves the others as the changes before it left them. */
  lemma ReplayMeans(c: Columns, changes: seq<FieldChange>, last: FieldChange, key: string)
    ensures Apply(c, []) == c
    ensures ColumnOf(Apply(c, changes + [last]), key) ==
              if key == last.field then last.after else ColumnOf(Apply(c, changes), key)
    ensures ColumnOf(c, key) == None <==> key !in c || c[key] == None
  {
    assert (changes + [last])[..|changes|] == changes;
  }

  /** `keys` are the keys of `after` in dictionary order. Replaying the diff turns `before` into `after`. */
  method ComputeDiff(before: Columns, after: Columns, keys: seq<string>) returns (changes: seq<FieldChange>)
    requires Elements(keys) == after.Keys
    ensures forall k :: k in after && !Ignored(k) ==> ColumnOf(Apply(before, changes), k) == after[k]
    ensures forall k :: k !in after || Ignored(k) ==> ColumnOf(Apply(before, changes), k) == ColumnOf(before, k)
    ensures forall c :: c in changes ==>
              !Ignored(c.field) && c.field in after &&
              c.before == ColumnOf(before, c.field) && c.after == after[c.field] && c.before != c.after
  {
    changes := [];
    assert forall k :: k in keys <==> k in Elements(keys);
    for i := 0 to |keys|
      invariant forall k :: k in keys[..i] && !Ignored(k) ==> ColumnOf(Apply(before, changes), k) == after[k]
      invariant forall k :: k !in keys[..i] || Ignored(k) ==> ColumnOf(Apply(before, changes), k) == ColumnOf(before, k)
      invariant forall c :: c in changes ==>
                  !Ignored(c.field) && c.field in after &&
                  c.before == ColumnOf(before, c.field) && c.after == after[c.field] && c.before != c.after
    {
      var key := keys[i];
      assert keys[..i + 1] == keys[..i] + [key];
      if !Ignored(key) && ColumnOf(before, key) != after[key] {
        var change := FieldChange(key, ColumnOf(before, key), after[key]);
        assert (changes + [change])[..|changes|] == changes;
        changes := changes + [change];
      }
    }
    assert keys[..|keys|] == keys;
  }

  // ---------------------------------------------------------------- one call of mutate

  /** `if not req.changes and req.action not in (...)`: the call is a no-op. */
  predicate Writes(req: MutateRequest) {
    req.changes != [] || req.action in ["created", "form_submitted"]
  }

  predicate WritesOutbox(req: MutateRequest) {
    req.eventType.Some? && req.eventType.value != "" && req.key.Some? && req.key.value != ""
  }

  function ActorOf(req: MutateRequest): Actor {
    if req.actor.Some? then req.actor.value else Actor("system", None)
  }

  /** The ticket whose activity stamp a call moves. */
  function TouchedTicket(req: MutateRequest): Option<Id> {
    if req.entityType == "ticket" then Some(req.entity) else req.ticket
  }

  function RowsOf(call: Id, req: MutateRequest, now: int): seq<Row> {
    [Audit(call, req.entityType, req.entity, req.action, ActorOf(req), req.changes, req.snapshot)]
    + (if WritesOutbox(req) then [Outbox(call, req.entityType, req.entity, req.eventType.value, req.key.value)] else [])
    + (if req.timeline && req.contact.Some? then [Timeline(call, req.contact.value, req.ticket, ActorOf(req))] else [])
    + (if TouchedTicket(req).Some? then [Touch(call, TouchedTicket(req).value, now)] else [])
  }

  /** Three bookkeeping columns never count as changes. */
  lemma IgnoredMeans(key: string)
    ensures Ignored(key) <==> key == "created_at" || key == "updated_at" || key == "last_activity_at"
  {
  }

  /** A call without changes writes only for a creation or a submitted form. */
  lemma WritesMeans(req: MutateRequest)
    ensures Writes(req) <==> |req.changes| > 0 || req.action == "created" || req.action == "form_submitted"
  {
  }

  /**
   The rows of a call: always the audit row, an outbox row exactly if type and key are given, a timeline
   row exactly if it is asked for and there is a contact, and a touch of the ticket it is about, if any.
   */
  lemma RowsMean(call: Id, req: MutateRequest, now: int, r: Row)
    ensures var actor := if req.actor.Some? then req.actor.value else Actor("system", None);
            var audit := Audit(call, req.entityType, req.entity, req.action, actor, req.changes, req.snapshot);
            r in RowsOf(call, req, now) <==>
              || r == audit
              || (req.eventType.Some? && |req.eventType.value| > 0 && req.key.Some? && |req.key.value| > 0 &&
                  r == Outbox(call, req.entityType, req.entity, req.eventType.value, req.key.value))
              || (req.timeline && req.contact.Some? && r == Timeline(call, req.contact.value, req.ticket, actor))
              || (req.entityType == "ticket" && r == Touch(call, req.entity, now))
              || (req.entityType != "ticket" && req.ticket.Some? && r == Touch(call, req.ticket.value, now))
  {
    var audit := [Audit(call, req.entityType, req.entity, req.action, ActorOf(req), req.changes, req.snapshot)];
    var outbox := if WritesOutbox(req)
                  then [Outbox(call, req.entityType, req.entity, req.eventType.value, req.key.value)] else [];
    var timeline := if req.timeline && req.contact.Some?
                    then [Timeline(call, req.contact.value, req.ticket, ActorOf(req))] else [];
    var touch := if TouchedTicket(req).Some? then [Touch(call, TouchedTicket(req).value, now)] else [];
    assert RowsOf(call, req, now) == audit + outbox + timeline + touch;
    assert r in audit + outbox + timeline + touch <==> r in audit || r in outbox || r in timeline || r in touch;
  }

  /** No row twice. */
  lemma RowsDiffer(call: Id, req: MutateRequest, now: int)
    ensures NoDups(RowsOf(call, req, now))
  {
  }

  // ---------------------------------------------------------------- rows of one call

  function Of(rows: seq<Row>, c: Id): seq<Row> {
    if rows == [] then []
    else
      var last := rows[|rows| - 1];
      if last.call == c then Of(rows[..|rows| - 1], c) + [last] else Of(rows[..|rows| - 1], c)
  }

  lemma {:induction false} OfConcat(a: seq<Row>, b: seq<Row>, c: Id)
    ensures Of(a + b, c) == Of(a, c) + Of(b, c)
  {
    if b == [] {
      assert a + b == a;
    } else {
      var init := b[..|b| - 1];
      assert (a + b)[..|a + b| - 1] == a + init;
      OfConcat(a, init, c);
    }
  }

  lemma {:induction false} OfOther(rows: seq<Row>, c: Id)
    requires forall r :: r in rows ==> r.call != c
    ensures Of(rows, c) == []
  {
    if rows != [] {
      assert forall r :: r in rows[..|rows| - 1] ==> r in rows;
      OfOther(rows[..|rows| - 1], c);
    }
  }

  lemma {:induction false} OfOwn(rows: seq<Row>, c: Id)
    requires forall r :: r in rows ==> r.call == c
    ensures Of(rows, c) == rows
  {
    if rows != [] {
      var init, last := rows[..|rows| - 1], rows[|rows| - 1];
      assert rows == init + [last] && last in rows;
      assert forall r :: r in init ==> r in rows;
      OfOwn(init, c);
    }
  }

  ghost predicate HasOutbox(rows: seq<Row>) {
    exists r :: r in rows && r.Outbox?
  }

  // ---------------------------------------------------------------- a session

  /** The unique constraint on idempotency keys. */
  ghost predicate KeysUnique(rows: seq<Row>) {
    forall i, j :: 0 <= i < j < |rows| && rows[i].Outbox? && rows[j].Outbox? ==> rows[i].key != rows[j].key
  }

  class Database {
    var committed: seq<Row>
    var broker: seq<Id>      // ids pushed to the broker's list

    constructor ()
      ensures committed == [] && broker == []
    {
      committed, broker := [], [];
    }
  }

  class Session {
    const db: Database
    var pending: seq<Row>
    var notify: seq<Id>      // session.info["outbox_notify_ids"]

    constructor (db: Database)
      ensures this.db == db && pending == [] && notify == []
    {
      this.db, pending, notify := db, [], [];
    }

    method TrackOutboxNotify(id: Id)
      modifies this`notify
      ensures notify == old(notify) + [id]
    {
      notify := notify + [id];
    }

    method Mutate(call: Id, req: MutateRequest, now: int) returns (audited: bool)
      modifies this
      ensures audited == Writes(req)
      ensures pending == if Writes(req) then old(pending) + RowsOf(call, req, now) else old(pending)
      ensures notify == if Writes(req) && WritesOutbox(req) then old(notify) + [call] else old(notify)
    {
      if req.changes == [] && req.action !in ["created", "form_submitted"] {
        return false;
      }
      var actor := if req.actor.Some? then req.actor.value else Actor("system", None);
      var added := [Audit(call, req.entityType, req.entity, req.action, actor, req.changes, req.snapshot)];
      if WritesOutbox(req) {
        added := added + [Outbox(call, req.entityType, req.entity, req.eventType.value, req.key.value)];
        TrackOutboxNotify(call);
      }
      if req.timeline && req.contact.Some? {
        added := added + [Timeline(call, req.contact.value, req.ticket, actor)];
      }
      if req.entityType == "ticket" {
        added := added + [Touch(call, req.entity, now)];
      } else if req.ticket.Some? {
        added := added + [Touch(call, req.ticket.value, now)];
      }
      pending := pending + added;
      return true;
    }

    /** `accepted` is the database's verdict on the commit; a refused session is closed by its owner. */
    method CommitAndNotify(accepted: bool)
      requires accepted ==> KeysUnique(db.committed + pending)
      modifies this, db
      ensures pending == [] && notify == []
      ensures accepted ==> db.committed == old(db.committed + pending) && db.broker == old(db.broker) + old(notify)
      ensures !accepted ==> db.committed == old(db.committed) && db.broker == old(db.broker)
    {
      var ids := notify;
      notify := [];
      if !accepted {
        pending := [];
        return;
      }
      db.committed := db.committed + pending;
      pending := [];
      for i := 0 to |ids|
        invariant db.broker == old(db.broker) + ids[..i]
        invariant db.committed == old(db.committed + pending) && pending == [] && notify == []
      {
        db.broker := db.broker + [ids[i]];
        assert ids[..i + 1] == ids[..i] + [ids[i]];
      }
      assert ids[..|ids|] == ids;
    }
  }
}
