/**
 All sessions of all processes writing history and notifying the broker: commits that are refused,
 crashes between a commit and its notifications, and sessions that are closed on failure.
 */
module Notification {
  import opened Basics
  import opened History

  /** A session writes, or walks through the ids to announce after its commit, or is closed. */
  datatype Sess = Live(pending: seq<Row>, notify: seq<Id>) | Notifying(todo: seq<Id>) | Closed

  /** `log` remembers what each write call put into its session; calls and row ids are never reused. */
  datatype System = System(committed: seq<Row>, broker: seq<Id>, sessions: map<SessionId, Sess>, log: map<Id, seq<Row>>)

  datatype Step =
    | Open(s: SessionId)
    | Mutate(s: SessionId, call: Id, req: MutateRequest, now: int)
    | Enqueue(s: SessionId, call: Id, row: Row)       // an outbox row added without mutate
    | Commit(s: SessionId)                            // a plain commit: nothing is announced
    | CommitForNotify(s: SessionId)
    | NotifyNext(s: SessionId)
    | Refused(s: SessionId)                           // failed commit or exception: closed, rolled back
    | Crash(s: SessionId)

  ghost predicate Enabled(x: System, step: Step) {
    && (step.Open? || step.s in x.sessions)
    && match step
       case Open(s) => s !in x.sessions || x.sessions[s].Closed?
       case Mutate(s, call, req, now) => x.sessions[s].Live? && call !in x.log && Writes(req)
       case Enqueue(s, call, row) => x.sessions[s].Live? && call !in x.log && row.Outbox? && row.call == call
       case Commit(s) => x.sessions[s].Live? && KeysUnique(x.committed + x.sessions[s].pending)
       case CommitForNotify(s) => x.sessions[s].Live? && KeysUnique(x.committed + x.sessions[s].pending)
       case NotifyNext(s) => x.sessions[s].Notifying?
       case Refused(s) => x.sessions[s].Live?
       case Crash(s) => true
  }

  function AfterWrite(x: System, s: SessionId, call: Id, rows: seq<Row>, announce: bool): System
    requires s in x.sessions && x.sessions[s].Live?
  {
    var sess := x.sessions[s];
    x.(sessions := x.sessions[s := Live(sess.pending + rows, if announce then sess.notify + [call] else sess.notify)],
       log := x.log[call := rows])
  }

  ghost function After(x: System, step: Step): System
    requires Enabled(x, step)
  {
    match step
    case Open(s) => x.(sessions := x.sessions[s := Live([], [])])
    case Mutate(s, call, req, now) => AfterWrite(x, s, call, RowsOf(call, req, now), WritesOutbox(req))
    case Enqueue(s, call, row) => AfterWrite(x, s, call, [row], true)
    case Commit(s) =>
      x.(committed := x.committed + x.sessions[s].pending, sessions := x.sessions[s := Live([], x.sessions[s].notify)])
    case CommitForNotify(s) =>
      x.(committed := x.committed + x.sessions[s].pending, sessions := x.sessions[s := Notifying(x.sessions[s].notify)])
    case NotifyNext(s) =>
      var todo := x.sessions[s].todo;
      if todo == [] then x.(sessions := x.sessions[s := Live([], [])])
      else x.(broker := x.broker + [todo[0]], sessions := x.sessions[s := Notifying(todo[1..])])
    case Refused(s) => x.(sessions := x.sessions[s := Closed])
    case Crash(s) => x.(sessions := x.sessions[s := Closed])
  }

  // ---------------------------------------------------------------- invariant

  function PendingOf(sess: Sess): seq<Row> {
    if sess.Live? then sess.pending else []
  }

  function Queue(sess: Sess): seq<Id> {
    match sess
    case Live(_, notify) => notify
    case Notifying(todo) => todo
    case Closed => []
  }

  /** What a call wrote is committed as a whole, or pending as a whole in one session, or gone as a whole. */
  ghost predicate Whole(x: System, c: Id)
    requires c in x.log
  {
    && Of(x.committed, c) in [[], x.log[c]]
    && (forall s :: s in x.sessions ==>
          Of(PendingOf(x.sessions[s]), c) in [[], x.log[c]] &&
          (Of(PendingOf(x.sessions[s]), c) != [] ==>
             Of(x.committed, c) == [] &&
             forall t :: t in x.sessions && t != s ==> Of(PendingOf(x.sessions[t]), c) == []))
  }

  /** An id waiting to be announced belongs to an outbox row of its session, committed once announcing begins. */
  ghost predicate Announceable(x: System, s: SessionId, id: Id)
    requires s in x.sessions
  {
    && id in x.log && x.log[id] != [] && HasOutbox(x.log[id])
    && id !in x.broker
    && (Of(x.committed, id) == x.log[id] || (x.sessions[s].Live? && Of(x.sessions[s].pending, id) == x.log[id]))
  }

  ghost predicate OnlyLogged(x: System, rows: seq<Row>) {
    forall r :: r in rows ==> r.call in x.log
  }

  /** Rows are logged and every call's rows stay together. */
  ghost predicate RowsInv(x: System) {
    && OnlyLogged(x, x.committed)
    && (forall s :: s in x.sessions ==> OnlyLogged(x, PendingOf(x.sessions[s])))
    && (forall c :: c in x.log ==> Whole(x, c))
  }

  /** Ids are announced from one queue only, once, and never before their commit. */
  ghost predicate QueueInv(x: System) {
    && (forall s :: s in x.sessions ==> NoDups(Queue(x.sessions[s])))
    && (forall s, id :: s in x.sessions && id in Queue(x.sessions[s]) ==> Announceable(x, s, id))
    && (forall s, t, id | s in x.sessions && t in x.sessions && id in Queue(x.sessions[s]) ::
          id in Queue(x.sessions[t]) ==> s == t)
    && NoDups(x.broker)
    && (forall id :: id in x.broker ==>
          id in x.log && HasOutbox(x.log[id]) && x.log[id] != [] && Of(x.committed, id) == x.log[id])
  }

  // ---------------------------------------------------------------- writing

  /** A write adds the rows of its new call to its own session and to nothing else. */
  lemma WriteAddsRows(x: System, s: SessionId, call: Id, rows: seq<Row>, announce: bool, t: SessionId, c: Id)
    requires RowsInv(x) && s in x.sessions && x.sessions[s].Live? && call !in x.log && t in x.sessions
    requires forall r :: r in rows ==> r.call == call
    requires c in x.log || c == call
    ensures var x' := AfterWrite(x, s, call, rows, announce);
            && Of(PendingOf(x'.sessions[t]), c) ==
                  (if c == call then (if t == s then rows else []) else Of(PendingOf(x.sessions[t]), c))
            && (c == call ==> Of(x.committed, c) == [])
  {
    OfConcat(x.sessions[s].pending, rows, c);
    OfOther(PendingOf(x.sessions[t]), call);
    OfOther(x.committed, call);
    if c == call {
      assert OnlyLogged(x, PendingOf(x.sessions[s]));
      OfOther(x.sessions[s].pending, call);
      OfOwn(rows, call);
    } else {
      OfOther(rows, c);
    }
  }

  lemma WriteKeepsWhole(x: System, s: SessionId, call: Id, rows: seq<Row>, announce: bool, c: Id)
    requires RowsInv(x) && s in x.sessions && x.sessions[s].Live? && call !in x.log && (c in x.log || c == call)
    requires forall r :: r in rows ==> r.call == call
    ensures Whole(AfterWrite(x, s, call, rows, announce), c)
  {
    var x' := AfterWrite(x, s, call, rows, announce);
    assert c != call ==> Whole(x, c);
    WriteAddsRows(x, s, call, rows, announce, s, c);
    forall t | t in x.sessions
      ensures Of(PendingOf(x'.sessions[t]), c) ==
              (if c == call then (if t == s then rows else []) else Of(PendingOf(x.sessions[t]), c))
    {
      WriteAddsRows(x, s, call, rows, announce, t, c);
    }
  }

  lemma WriteKeepsRows(x: System, s: SessionId, call: Id, rows: seq<Row>, announce: bool)
    requires RowsInv(x) && s in x.sessions && x.sessions[s].Live? && call !in x.log
    requires forall r :: r in rows ==> r.call == call
    ensures RowsInv(AfterWrite(x, s, call, rows, announce))
  {
    var x' := AfterWrite(x, s, call, rows, announce);
    forall t | t in x'.sessions ensures OnlyLogged(x', PendingOf(x'.sessions[t])) {
      assert OnlyLogged(x, PendingOf(x.sessions[t]));
    }
    forall c | c in x'.log ensures Whole(x', c) {
      WriteKeepsWhole(x, s, call, rows, announce, c);
    }
  }

  lemma WriteKeepsQueue(x: System, s: SessionId, call: Id, rows: seq<Row>, announce: bool)
    requires RowsInv(x) && QueueInv(x) && s in x.sessions && x.sessions[s].Live? && call !in x.log
    requires forall r :: r in rows ==> r.call == call
    requires announce ==> HasOutbox(rows) && rows != []
    ensures QueueInv(AfterWrite(x, s, call, rows, announce))
  {
    var x' := AfterWrite(x, s, call, rows, announce);
    forall t, id | t in x.sessions && id in Queue(x.sessions[t]) ensures id in x.log {
      assert Announceable(x, t, id);
    }
    forall t, id | t in x'.sessions && id in Queue(x'.sessions[t]) ensures Announceable(x', t, id) {
      if id == call {
        WriteAddsRows(x, s, call, rows, announce, s, call);
      } else {
        assert id in Queue(x.sessions[t]) && Announceable(x, t, id);
        WriteAddsRows(x, s, call, rows, announce, t, id);
      }
    }
  }

  // ---------------------------------------------------------------- committing

  lemma CommitKeepsRows(x: System, s: SessionId, sess: Sess)
    requires RowsInv(x) && s in x.sessions && x.sessions[s].Live? && PendingOf(sess) == []
    ensures RowsInv(x.(committed := x.committed + x.sessions[s].pending, sessions := x.sessions[s := sess]))
  {
    var x' := x.(committed := x.committed + x.sessions[s].pending, sessions := x.sessions[s := sess]);
    assert OnlyLogged(x, PendingOf(x.sessions[s]));
    forall t | t in x'.sessions ensures OnlyLogged(x', PendingOf(x'.sessions[t])) {
      assert OnlyLogged(x, PendingOf(x.sessions[t]));
    }
    forall c | c in x'.log ensures Whole(x', c) {
      CommitIsWhole(x, s, sess, c);
    }
  }

  lemma CommitIsWhole(x: System, s: SessionId, sess: Sess, c: Id)
    requires s in x.sessions && x.sessions[s].Live? && PendingOf(sess) == [] && c in x.log && Whole(x, c)
    ensures Whole(x.(committed := x.committed + x.sessions[s].pending, sessions := x.sessions[s := sess]), c)
  {
    var mine := Of(PendingOf(x.sessions[s]), c);
    OfConcat(x.committed, x.sessions[s].pending, c);
    assert Of(x.committed, c) + [] == Of(x.committed, c) && [] + mine == mine;
    if mine != [] {
      assert Of(x.committed, c) == [];
    }
  }

  lemma CommitKeepsQueue(x: System, s: SessionId, sess: Sess)
    requires RowsInv(x) && QueueInv(x) && s in x.sessions && x.sessions[s].Live?
    requires PendingOf(sess) == [] && Queue(sess) == Queue(x.sessions[s])
    ensures QueueInv(x.(committed := x.committed + x.sessions[s].pending, sessions := x.sessions[s := sess]))
  {
    var x' := x.(committed := x.committed + x.sessions[s].pending, sessions := x.sessions[s := sess]);
    forall id | id in x.log ensures Of(x'.committed, id) == Of(x.committed, id) + Of(PendingOf(x.sessions[s]), id)
      && (Of(x.committed, id) == [] || Of(PendingOf(x.sessions[s]), id) == []) {
      OfConcat(x.committed, x.sessions[s].pending, id);
      assert Whole(x, id);
    }
    forall t, id | t in x'.sessions && id in Queue(x'.sessions[t]) ensures Announceable(x', t, id) {
      assert id in Queue(x.sessions[t]) && Announceable(x, t, id);
      assert Whole(x, id);
    }
  }

  // ---------------------------------------------------------------- announcing and losing a session

  /** A session is replaced by one without rows whose queue is part of its old queue. */
  lemma DropKeepsRows(x: System, s: SessionId, sess: Sess)
    requires RowsInv(x) && PendingOf(sess) == []
    ensures RowsInv(x.(sessions := x.sessions[s := sess]))
  {
    var x' := x.(sessions := x.sessions[s := sess]);
    forall t | t in x'.sessions ensures OnlyLogged(x', PendingOf(x'.sessions[t])) {
      if t != s {
        assert OnlyLogged(x, PendingOf(x.sessions[t]));
      }
    }
    forall c | c in x'.log ensures Whole(x', c) {
      assert Whole(x, c);
      forall t | t in x'.sessions
        ensures Of(PendingOf(x'.sessions[t]), c) == if t == s then [] else Of(PendingOf(x.sessions[t]), c) {
      }
    }
  }

  lemma DropKeepsQueue(x: System, s: SessionId, sess: Sess)
    requires QueueInv(x) && Queue(sess) == []
    ensures QueueInv(x.(sessions := x.sessions[s := sess]))
  {
    var x' := x.(sessions := x.sessions[s := sess]);
    forall t, id | t in x'.sessions && id in Queue(x'.sessions[t]) ensures Announceable(x', t, id) {
      assert id in Queue(x.sessions[t]) && Announceable(x, t, id);
    }
  }

  lemma AnnounceKeepsQueue(x: System, s: SessionId)
    requires QueueInv(x) && s in x.sessions && x.sessions[s].Notifying? && x.sessions[s].todo != []
    ensures QueueInv(After(x, NotifyNext(s)))
  {
    var x' := After(x, NotifyNext(s));
    var id := x.sessions[s].todo[0];
    assert id in Queue(x.sessions[s]) && Announceable(x, s, id);
    forall t, k | t in x'.sessions && k in Queue(x'.sessions[t]) ensures Announceable(x', t, k) {
      assert k in Queue(x.sessions[t]) && Announceable(x, t, k);
      assert k != id;
    }
  }

  lemma RowsOfHasOutbox(call: Id, req: MutateRequest, now: int)
    ensures forall r :: r in RowsOf(call, req, now) ==> r.call == call
    ensures WritesOutbox(req) ==> HasOutbox(RowsOf(call, req, now))
  {
    if WritesOutbox(req) {
      assert RowsOf(call, req, now)[1] in RowsOf(call, req, now);
    }
  }

  ghost predicate Inv(x: System) {
    RowsInv(x) && QueueInv(x)
  }

  lemma StepKeepsInv(x: System, step: Step)
    requires Inv(x) && Enabled(x, step)
    ensures Inv(After(x, step))
  {
    match step
    case Mutate(s, call, req, now) =>
      RowsOfHasOutbox(call, req, now);
      WriteKeepsRows(x, s, call, RowsOf(call, req, now), WritesOutbox(req));
      WriteKeepsQueue(x, s, call, RowsOf(call, req, now), WritesOutbox(req));
    case Enqueue(s, call, row) =>
      assert row in [row];
      WriteKeepsRows(x, s, call, [row], true);
      WriteKeepsQueue(x, s, call, [row], true);
    case Commit(s) =>
      CommitKeepsRows(x, s, Live([], x.sessions[s].notify));
      CommitKeepsQueue(x, s, Live([], x.sessions[s].notify));
    case CommitForNotify(s) =>
      CommitKeepsRows(x, s, Notifying(x.sessions[s].notify));
      CommitKeepsQueue(x, s, Notifying(x.sessions[s].notify));
    case NotifyNext(s) =>
      DropKeepsRows(x, s, After(x, step).sessions[s]);
      if x.sessions[s].todo == [] {
        DropKeepsQueue(x, s, Live([], []));
      } else {
        AnnounceKeepsQueue(x, s);
      }
    case _ =>
      DropKeepsRows(x, step.s, After(x, step).sessions[step.s]);
      DropKeepsQueue(x, step.s, After(x, step).sessions[step.s]);
  }

  // ---------------------------------------------------------------- whole runs

  ghost predicate Initial(x: System) {
    && x.committed == [] && x.broker == [] && x.log == map[]
    && forall s :: s in x.sessions ==> x.sessions[s].Closed?
  }

  ghost predicate Execution(run: seq<System>, steps: seq<Step>) {
    && |run| == |steps| + 1
    && Initial(run[0])
    && forall i :: 0 <= i < |steps| ==> Enabled(run[i], steps[i]) && run[i + 1] == After(run[i], steps[i])
  }

  lemma {:induction false} ReachableIsInvariant(run: seq<System>, steps: seq<Step>, i: nat)
    requires Execution(run, steps) && i < |run|
    ensures Inv(run[i])
  {
    if i > 0 {
      ReachableIsInvariant(run, steps, i - 1);
      StepKeepsInv(run[i - 1], steps[i - 1]);
    }
  }

  /** Calls keep what they wrote, and step by step the log and the committed rows only grow. */
  lemma {:induction false} LogIsKept(run: seq<System>, steps: seq<Step>, i: nat, j: nat, c: Id)
    requires Execution(run, steps) && i <= j < |run| && c in run[i].log
    ensures c in run[j].log && run[j].log[c] == run[i].log[c]
    ensures run[i].committed <= run[j].committed
    decreases j - i
  {
    if i < j {
      LogIsKept(run, steps, i, j - 1, c);
      assert run[j] == After(run[j - 1], steps[j - 1]);
    }
  }

  /**
   Atomic history: at any later time, of everything one call of mutate wrote either all rows are
   committed or none; so its outbox row is stored if and only if exactly one audit row of that call
   is, and that row names the same entity.
   */
  lemma AtomicHistory(run: seq<System>, steps: seq<Step>, i: nat, j: nat)
    requires Execution(run, steps) && i < j < |run| && steps[i].Mutate?
    ensures var call, req, now := steps[i].call, steps[i].req, steps[i].now;
            && Of(run[j].committed, call) in [[], RowsOf(call, req, now)]
            && (HasOutbox(Of(run[j].committed, call)) ==>
                  && Of(run[j].committed, call)[0] ==
                       Audit(call, req.entityType, req.entity, req.action, ActorOf(req), req.changes, req.snapshot)
                  && forall k :: 1 <= k < |Of(run[j].committed, call)| ==> !Of(run[j].committed, call)[k].Audit?)
  {
    var call, req, now := steps[i].call, steps[i].req, steps[i].now;
    assert run[i + 1] == After(run[i], steps[i]);
    LogIsKept(run, steps, i + 1, j, call);
    ReachableIsInvariant(run, steps, j);
    assert Whole(run[j], call);
    assert RowsOf(call, req, now)[0].Audit?;
    assert forall k :: 1 <= k < |RowsOf(call, req, now)| ==> !RowsOf(call, req, now)[k].Audit?;
  }

  /** Honest notification: every announced id names a committed outbox row, and none is announced twice. */
  lemma HonestNotification(run: seq<System>, steps: seq<Step>, i: nat, id: Id)
    requires Execution(run, steps) && i < |run| && id in run[i].broker
    ensures exists r :: r in run[i].committed && r.Outbox? && r.call == id
    ensures NoDups(run[i].broker)
  {
    ReachableIsInvariant(run, steps, i);
    OfMembers(run[i].committed, id);
  }

  lemma {:induction false} OfMembers(rows: seq<Row>, c: Id)
    ensures forall r :: r in Of(rows, c) ==> r in rows && r.call == c
  {
    if rows != [] {
      OfMembers(rows[..|rows| - 1], c);
    }
  }
}
