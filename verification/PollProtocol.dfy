/**
 The poller as a protocol between worker processes: every interleaving of their steps, with reads
 that may be stale by the time of the claim, crashes at any point and mail arriving at any time.
 */
module PollProtocol {
  import opened Basics
  import opened Mailbox
  import opened EmailPoll

  type WorkerId = nat

  /**
   Between two statements a worker is idle, about to claim with the watermark it read, in
   possession of the claim, or in the ingest loop. A crash loses the worker's place but not the row.
   */
  datatype Worker = Idle | Claiming(seen: nat) | Holding(since: nat)
    | Ingesting(since: nat, todo: seq<Mail>, watermark: nat)

  datatype System = System(box: Box, row: PollRow, table: seq<ProviderId>, workers: map<WorkerId, Worker>)

  datatype Step =
    | Arrive(mail: Mail)
    | Read(w: WorkerId, now: int, interval: int)
    | Claim(w: WorkerId)
    | GiveUp(w: WorkerId, now: int)
    | Fetch(w: WorkerId)
    | IngestNext(w: WorkerId)
    | Release(w: WorkerId, now: int)
    | Crash(w: WorkerId)

  predicate Enabled(s: System, step: Step) {
    match step
    case Arrive(m) => m.uid >= s.box.uidNext && m.uid > 0
    case Read(w, now, interval) => w in s.workers && s.workers[w].Idle? && Due(s.row, now, interval)
    case Claim(w) => w in s.workers && s.workers[w].Claiming?
    case GiveUp(w, _) => w in s.workers && s.workers[w].Holding?
    case Fetch(w) => w in s.workers && s.workers[w].Holding?
    case IngestNext(w) => w in s.workers && s.workers[w].Ingesting? && s.workers[w].todo != []
    case Release(w, _) => w in s.workers && s.workers[w].Ingesting? && s.workers[w].todo == []
    case Crash(w) => w in s.workers
  }

  /** The watermark a release leaves: the column is written only if the worker changed the value it read. */
  function NextUid(s: System, w: WorkerId): nat
    requires w in s.workers && s.workers[w].Ingesting?
  {
    if s.workers[w].watermark == s.workers[w].since then s.row.lastUid else s.workers[w].watermark
  }

  function After(s: System, step: Step): System
    requires Enabled(s, step)
  {
    match step
    case Arrive(m) => s.(box := Box(s.box.mails + [m], m.uid + 1))
    case Read(w, _, _) => s.(workers := s.workers[w := Claiming(s.row.lastUid)])
    case Claim(w) =>
      if s.row.status == Running then s.(workers := s.workers[w := Idle])
      else s.(row := s.row.(status := Running), workers := s.workers[w := Holding(s.workers[w].seen)])
    case GiveUp(w, now) =>
      s.(row := s.row.(status := Error, lastPolledAt := Some(now)), workers := s.workers[w := Idle])
    case Fetch(w) =>
      var (mails, watermark) := Fetched(s.box, s.workers[w].since);
      s.(workers := s.workers[w := Ingesting(s.workers[w].since, mails, watermark)])
    case IngestNext(w) =>
      s.(table := Ingest(s.table, s.workers[w].todo[0]),
         workers := s.workers[w := s.workers[w].(todo := s.workers[w].todo[1..])])
    case Release(w, now) =>
      s.(row := PollRow(NextUid(s, w), Resting, Some(now)), workers := s.workers[w := Idle])
    case Crash(w) => s.(workers := s.workers[w := Idle])
  }

  ghost predicate Execution(run: seq<System>, steps: seq<Step>) {
    && |run| == |steps| + 1
    && forall i :: 0 <= i < |steps| ==> Enabled(run[i], steps[i]) && run[i + 1] == After(run[i], steps[i])
  }

  // ---------------------------------------------------------------- one holder

  predicate Holds(w: Worker) {
    w.Holding? || w.Ingesting?
  }

  ghost predicate OneHolder(s: System) {
    forall v, w :: v in s.workers && w in s.workers && Holds(s.workers[v]) && Holds(s.workers[w]) ==> v == w
  }

  /** The claim is exclusive whatever the watermark: a holder makes the row read running. */
  ghost predicate Exclusive(s: System) {
    OneHolder(s) && forall w :: w in s.workers && Holds(s.workers[w]) ==> s.row.status == Running
  }

  lemma StepKeepsExclusive(s: System, step: Step)
    requires Exclusive(s) && Enabled(s, step)
    ensures Exclusive(After(s, step))
  {
  }

  lemma {:induction false} AlwaysExclusive(run: seq<System>, steps: seq<Step>, i: nat)
    requires Execution(run, steps) && Exclusive(run[0]) && i < |run|
    ensures Exclusive(run[i])
  {
    if i > 0 {
      AlwaysExclusive(run, steps, i - 1);
      StepKeepsExclusive(run[i - 1], steps[i - 1]);
    }
  }

  // ---------------------------------------------------------------- the watermark

  /** No worker is active, and the watermark is `baseline`. */
  ghost predicate Initial(s: System, baseline: nat) {
    && ValidBox(s.box) && s.row.lastUid == baseline < s.box.uidNext && s.row.status != Running
    && forall w :: w in s.workers ==> s.workers[w].Idle?
  }

  /** `u` is the baseline or the UID of a fetchable message of the mailbox. */
  ghost predicate Anchored(b: Box, baseline: nat, u: nat) {
    baseline <= u && (u == baseline || exists m :: m in b.mails && m.hasRaw && m.uid == u)
  }

  ghost predicate WorkerBelow(s: System, baseline: nat, w: Worker) {
    match w
    case Idle => true
    case Claiming(seen) => baseline <= seen <= s.row.lastUid
    case Holding(since) => baseline <= since <= s.row.lastUid
    case Ingesting(_, _, watermark) => s.row.lastUid <= watermark && Anchored(s.box, baseline, watermark)
  }

  /** No worker carries anything past the watermark, but the one that is about to raise it. */
  ghost predicate Climbing(s: System, baseline: nat) {
    && ValidBox(s.box) && baseline < s.box.uidNext && Exclusive(s)
    && Anchored(s.box, baseline, s.row.lastUid)
    && forall w :: w in s.workers ==> WorkerBelow(s, baseline, s.workers[w])
  }

  lemma FetchClimbs(s: System, baseline: nat, since: nat)
    requires Climbing(s, baseline) && 0 < baseline <= since <= s.row.lastUid
    ensures var watermark := Fetched(s.box, since).1;
            s.row.lastUid <= watermark && Anchored(s.box, baseline, watermark)
  {
    WatermarkIsTheWatermark(s.box.mails, since);
    if Watermark(s.box.mails, since) == since {
      assert s.row.lastUid <= since;
    }
  }

  lemma ArriveClimbs(s: System, baseline: nat, m: Mail)
    requires Climbing(s, baseline) && Enabled(s, Arrive(m))
    ensures Climbing(After(s, Arrive(m)), baseline)
  {
    var s' := After(s, Arrive(m));
    assert m in s'.box.mails;
    assert forall x :: x in s'.box.mails <==> x in s.box.mails || x == m;
    forall w | w in s'.workers ensures WorkerBelow(s', baseline, s'.workers[w]) {
      assert WorkerBelow(s, baseline, s.workers[w]);
    }
  }

  lemma StepClimbs(s: System, baseline: nat, step: Step)
    requires baseline > 0 && Climbing(s, baseline) && Enabled(s, step)
    ensures Climbing(After(s, step), baseline)
    ensures s.row.lastUid <= After(s, step).row.lastUid
  {
    var s' := After(s, step);
    StepKeepsExclusive(s, step);
    match step
    case Arrive(m) => ArriveClimbs(s, baseline, m);
    case Fetch(w) =>
      assert WorkerBelow(s, baseline, s.workers[w]);
      FetchClimbs(s, baseline, s.workers[w].since);
      forall v | v in s'.workers && v != w ensures WorkerBelow(s', baseline, s'.workers[v]) {
        assert WorkerBelow(s, baseline, s.workers[v]);
      }
    case _ =>
      assert WorkerBelow(s, baseline, s.workers[step.w]);
      forall v | v in s'.workers && v != step.w ensures WorkerBelow(s', baseline, s'.workers[v]) {
        assert WorkerBelow(s, baseline, s.workers[v]);
      }
  }

  lemma {:induction false} AlwaysClimbing(run: seq<System>, steps: seq<Step>, baseline: nat, i: nat)
    requires baseline > 0 && Execution(run, steps) && Initial(run[0], baseline) && i < |run|
    ensures Climbing(run[i], baseline)
  {
    if i > 0 {
      AlwaysClimbing(run, steps, baseline, i - 1);
      StepClimbs(run[i - 1], baseline, steps[i - 1]);
    }
  }

  /** From a start above zero the watermark never decreases, stale readers included. */
  lemma {:induction false} WatermarkNeverDecreases(run: seq<System>, steps: seq<Step>, baseline: nat, i: nat, j: nat)
    requires baseline > 0 && Execution(run, steps) && Initial(run[0], baseline) && i <= j < |run|
    ensures run[i].row.lastUid <= run[j].row.lastUid
    decreases j - i
  {
    if i < j {
      WatermarkNeverDecreases(run, steps, baseline, i, j - 1);
      AlwaysClimbing(run, steps, baseline, j - 1);
      StepClimbs(run[j - 1], baseline, steps[j - 1]);
    }
  }

  // ---------------------------------------------------------------- nothing else is stored

  /** What a worker is going through, it fetched: messages of the mailbox with raw bytes. */
  ghost predicate TodoIsFetched(s: System) {
    forall w, m :: w in s.workers && s.workers[w].Ingesting? && m in s.workers[w].todo ==> m in s.box.mails && m.hasRaw
  }

  lemma StepKeepsFetched(s: System, step: Step)
    requires TodoIsFetched(s) && Enabled(s, step)
    ensures TodoIsFetched(After(s, step)) && forall m :: m in s.box.mails ==> m in After(s, step).box.mails
  {
    if step.Fetch? {
      NewMailsMembers(s.box.mails, s.workers[step.w].since);
    }
  }

  /** A message of the mailbox stands for a row: it has raw bytes, is from somebody else, and a channel takes it. */
  ghost predicate Accounted(b: Box, id: ProviderId) {
    exists m :: m in b.mails && m.hasRaw && !m.fromOwn && m.resolves && m.messageId == id
  }

  lemma StepAccounts(s: System, step: Step)
    requires TodoIsFetched(s) && Enabled(s, step)
    ensures var s' := After(s, step);
            s'.table == s.table || (exists id :: s'.table == s.table + [id] && Accounted(s'.box, id))
    ensures forall id :: Accounted(s.box, id) ==> Accounted(After(s, step).box, id)
  {
    StepKeepsFetched(s, step);
    if step.IngestNext? {
      var m := s.workers[step.w].todo[0];
      assert m in s.workers[step.w].todo;
      assert Ingest(s.table, m) != s.table ==> Accounted(s.box, m.messageId);
    }
  }

  /**
   Over any run, every row added since its start carries the Message-ID of a message of the mailbox that
   has raw bytes, is not from the account's own address, and resolves to a channel.
   */
  lemma {:induction false} OnlyInboundIsStored(run: seq<System>, steps: seq<Step>, n: nat)
    requires Execution(run, steps) && TodoIsFetched(run[0]) && n < |run|
    ensures TodoIsFetched(run[n]) && run[0].table <= run[n].table
    ensures forall i :: |run[0].table| <= i < |run[n].table| ==> Accounted(run[n].box, run[n].table[i])
  {
    if n > 0 {
      OnlyInboundIsStored(run, steps, n - 1);
      StepKeepsFetched(run[n - 1], steps[n - 1]);
      StepAccounts(run[n - 1], steps[n - 1]);
    }
  }

  // ---------------------------------------------------------------- the undisturbed poll is one of the runs

  /** Left alone, the worker that fetched ingests everything and releases. */
  lemma {:induction false} IngestLoopRuns(s: System, w: WorkerId, now: int) returns (steps: seq<Step>, run: seq<System>)
    requires w in s.workers && s.workers[w].Ingesting?
    ensures Execution(run, steps) && run[0] == s && steps != [] && steps[|steps| - 1] == Release(w, now)
    ensures run[|run| - 1] == s.(table := IngestAll(s.table, s.workers[w].todo),
                                 row := PollRow(NextUid(s, w), Resting, Some(now)),
                                 workers := s.workers[w := Idle])
    decreases |s.workers[w].todo|
  {
    if s.workers[w].todo == [] {
      steps, run := [Release(w, now)], [s, After(s, Release(w, now))];
    } else {
      var next := After(s, IngestNext(w));
      steps, run := IngestLoopRuns(next, w, now);
      assert next.workers[w := Idle] == s.workers[w := Idle];
      steps, run := [IngestNext(w)] + steps, [s] + run;
    }
  }

  /** So the whole undisturbed poll of `PollOnce` is a run of the protocol, from a due account to its release. */
  lemma UndisturbedPollRuns(s: System, w: WorkerId, started: int, finished: int, interval: int)
    returns (steps: seq<Step>, run: seq<System>)
    requires w in s.workers && s.workers[w].Idle? && Due(s.row, started, interval)
    ensures Execution(run, steps) && run[0] == s
    ensures var (mails, watermark) := Fetched(s.box, s.row.lastUid);
            run[|run| - 1] == s.(table := IngestAll(s.table, mails), row := PollRow(watermark, Resting, Some(finished)))
  {
    var s1 := After(s, Read(w, started, interval));
    var s2 := After(s1, Claim(w));
    var s3 := After(s2, Fetch(w));
    var rest, tail := IngestLoopRuns(s3, w, finished);
    steps, run := [Read(w, started, interval), Claim(w), Fetch(w)] + rest, [s, s1, s2] + tail;
    assert s3.workers[w := Idle] == s.workers;
    forall i | 0 <= i < |steps| ensures Enabled(run[i], steps[i]) && run[i + 1] == After(run[i], steps[i]) {
      if i >= 3 {
        assert run[i] == tail[i - 3] && steps[i] == rest[i - 3] && run[i + 1] == tail[i - 2];
      }
    }
  }
}
