/**
 When polling is exactly-once. From any state the protocol can be in, every message above the present
 watermark that must be ingested gets exactly one row, unless a zero is or comes into play: zero is
 read as "take a baseline", whether it is stored in the row or carried by a worker that read it long ago.
 */
module PollExactlyOnce {
  import opened Basics
  import opened Mailbox
  import opened EmailPoll
  import opened PollProtocol

  /** Every message that must be ingested, from above `base` up to the watermark, has exactly one row. */
  ghost predicate ExactlyOnce(s: System, base: nat) {
    forall m :: m in s.box.mails && base < m.uid <= s.row.lastUid && Eligible(m) ==>
      multiset(s.table)[m.messageId] == 1
  }

  /** Whatever happens from here on, nothing above the present watermark is lost or doubled. */
  ghost predicate Safe(s: System) {
    forall run, steps, i: nat :: Execution(run, steps) && run[0] == s && i < |run| ==>
      ExactlyOnce(run[i], s.row.lastUid)
  }

  // ---------------------------------------------------------------- what holds in every reachable state

  /** There is nothing to fetch between a and b. */
  ghost predicate Barren(b: Box, from: nat, to: nat) {
    forall m :: m in b.mails && from < m.uid <= to ==> !m.hasRaw
  }

  ghost predicate Covered(b: Box, table: seq<ProviderId>, base: nat, upTo: nat, todo: seq<Mail>) {
    forall m :: m in b.mails && base < m.uid <= upTo && Eligible(m) ==> m.messageId in table || m in todo
  }

  /** A stale watermark above the row's has nothing in between; a fetch from one passes over nothing. */
  ghost predicate WorkerSound(s: System, w: Worker) {
    match w
    case Idle => true
    case Claiming(seen) => seen < s.box.uidNext && Barren(s.box, s.row.lastUid, seen)
    case Holding(since) => since < s.box.uidNext && Barren(s.box, s.row.lastUid, since)
    case Ingesting(since, todo, watermark) =>
      && watermark < s.box.uidNext && Barren(s.box, watermark, s.row.lastUid)
      && (since == 0 ==> todo == [])
      && (since > 0 ==> watermark > 0 && Covered(s.box, s.table, s.row.lastUid, watermark, todo))
  }

  ghost predicate Sound(s: System) {
    && ValidBox(s.box) && s.row.lastUid < s.box.uidNext
    && Deduplicated(s.table) && Exclusive(s)
    && forall w :: w in s.workers ==> WorkerSound(s, s.workers[w])
  }

  lemma ArriveKeepsSound(s: System, m: Mail)
    requires Sound(s) && Enabled(s, Arrive(m))
    ensures Sound(After(s, Arrive(m)))
  {
    var s' := After(s, Arrive(m));
    assert forall x :: x in s'.box.mails <==> x in s.box.mails || x == m;
    forall w | w in s'.workers ensures WorkerSound(s', s'.workers[w]) {
      assert WorkerSound(s, s.workers[w]);
    }
  }

  lemma FetchIsSound(s: System, since: nat)
    requires Sound(s) && since < s.box.uidNext && Barren(s.box, s.row.lastUid, since)
    ensures var (mails, watermark) := Fetched(s.box, since);
            WorkerSound(s, Ingesting(since, mails, watermark))
  {
    if since > 0 {
      WatermarkIsTheWatermark(s.box.mails, since);
      NewMailsMembers(s.box.mails, since);
    }
  }

  lemma FetchKeepsSound(s: System, w: WorkerId)
    requires Sound(s) && Enabled(s, Fetch(w))
    ensures Sound(After(s, Fetch(w)))
  {
    var s' := After(s, Fetch(w));
    assert WorkerSound(s, s.workers[w]);
    FetchIsSound(s, s.workers[w].since);
    forall v | v in s'.workers && v != w ensures WorkerSound(s', s'.workers[v]) {
      assert WorkerSound(s, s.workers[v]);
    }
  }

  lemma IngestKeepsSound(s: System, w: WorkerId)
    requires Sound(s) && Enabled(s, IngestNext(w))
    ensures Sound(After(s, IngestNext(w)))
  {
    var s' := After(s, IngestNext(w));
    var todo := s.workers[w].todo;
    IngestKeepsTable(s.table, todo[0]);
    assert forall m :: m in todo <==> m == todo[0] || m in todo[1..];
    forall v | v in s'.workers ensures WorkerSound(s', s'.workers[v]) {
      assert WorkerSound(s, s.workers[v]);
    }
  }

  lemma ReleaseKeepsSound(s: System, w: WorkerId, now: int)
    requires Sound(s) && Enabled(s, Release(w, now))
    ensures Sound(After(s, Release(w, now)))
  {
    var s' := After(s, Release(w, now));
    assert WorkerSound(s, s.workers[w]);
    forall v | v in s'.workers ensures WorkerSound(s', s'.workers[v]) {
      assert WorkerSound(s, s.workers[v]);
    }
  }

  lemma StepKeepsSound(s: System, step: Step)
    requires Sound(s) && Enabled(s, step)
    ensures Sound(After(s, step))
  {
    match step
    case Arrive(m) => ArriveKeepsSound(s, m);
    case IngestNext(w) => IngestKeepsSound(s, w);
    case Release(w, now) => ReleaseKeepsSound(s, w, now);
    case Fetch(w) => FetchKeepsSound(s, w);
    case _ =>
      var s' := After(s, step);
      StepKeepsExclusive(s, step);
      assert WorkerSound(s, s.workers[step.w]);
      forall v | v in s'.workers && v != step.w ensures WorkerSound(s', s'.workers[v]) {
        assert WorkerSound(s, s.workers[v]);
      }
  }

  /** Soundness is no assumption: a run that starts with idle workers, at any watermark, never leaves it. */
  lemma {:induction false} ReachableIsSound(run: seq<System>, steps: seq<Step>, baseline: nat, i: nat)
    requires Execution(run, steps) && Initial(run[0], baseline) && Deduplicated(run[0].table) && i < |run|
    ensures Sound(run[i])
  {
    if i > 0 {
      ReachableIsSound(run, steps, baseline, i - 1);
      StepKeepsSound(run[i - 1], steps[i - 1]);
    }
  }

  // ---------------------------------------------------------------- the condition

  /** No poll will ever be finished: nobody polls, or the row reads running and its holder is gone. */
  ghost predicate Stalled(s: System) {
    || s.workers == map[]
    || (s.row.status == Running && forall w :: w in s.workers ==> !Holds(s.workers[w]))
  }

  predicate CarriesZero(w: Worker) {
    w == Claiming(0) || w == Holding(0)
  }

  /** A baseline that is being taken passes over nothing that must be ingested. */
  ghost predicate PassesNothing(s: System, base: nat, w: Worker) {
    w.Ingesting? && w.since == 0 ==> Covered(s.box, s.table, base, w.watermark, [])
  }

  /** The row leaves zero: it is past it, or a worker is about to store a watermark above it. */
  ghost predicate LeavesZero(s: System) {
    if exists w :: w in s.workers && s.workers[w].Ingesting?
    then exists w :: w in s.workers && s.workers[w].Ingesting? && NextUid(s, w) > 0
    else s.row.lastUid > 0
  }

  /** No zero is in play. */
  ghost predicate ZeroFree(s: System, base: nat) {
    && LeavesZero(s)
    && forall w :: w in s.workers ==> !CarriesZero(s.workers[w]) && PassesNothing(s, base, s.workers[w])
  }

  // ---------------------------------------------------------------- sufficient

  ghost predicate Inv(s: System, base: nat) {
    Sound(s) && Covered(s.box, s.table, base, s.row.lastUid, []) && (Stalled(s) || ZeroFree(s, base))
  }

  /** A stall lasts: no step releases or gives up a claim, and row and messages stay as they are. */
  lemma StallStep(s: System, step: Step)
    requires Stalled(s) && Enabled(s, step)
    ensures Stalled(After(s, step)) && !step.Release? && !step.GiveUp?
    ensures After(s, step).row == s.row && After(s, step).table == s.table
  {
  }

  lemma {:induction false} StalledForGood(run: seq<System>, steps: seq<Step>, i: nat)
    requires Execution(run, steps) && Stalled(run[0]) && i < |run|
    ensures Stalled(run[i]) && run[i].row == run[0].row && run[i].table == run[0].table
    ensures i < |steps| ==> !steps[i].Release? && !steps[i].GiveUp?
  {
    if i > 0 {
      StalledForGood(run, steps, i - 1);
      StallStep(run[i - 1], steps[i - 1]);
    }
    if i < |steps| {
      StallStep(run[i], steps[i]);
    }
  }

  lemma StallKeepsInv(s: System, step: Step, base: nat)
    requires Inv(s, base) && Stalled(s) && Enabled(s, step)
    ensures Inv(After(s, step), base)
  {
    var s' := After(s, step);
    StepKeepsSound(s, step);
    StallStep(s, step);
    if step.Arrive? {
      assert forall x :: x in s'.box.mails <==> x in s.box.mails || x == step.mail;
    }
  }

  lemma ArriveKeepsInv(s: System, m: Mail, base: nat)
    requires Inv(s, base) && ZeroFree(s, base) && Enabled(s, Arrive(m))
    ensures Inv(After(s, Arrive(m)), base)
  {
    var s' := After(s, Arrive(m));
    ArriveKeepsSound(s, m);
    assert forall x :: x in s'.box.mails <==> x in s.box.mails || x == m;
    forall w | w in s'.workers ensures PassesNothing(s', base, s'.workers[w]) {
      assert WorkerSound(s, s.workers[w]) && PassesNothing(s, base, s.workers[w]);
    }
  }

  lemma IngestKeepsInv(s: System, w: WorkerId, base: nat)
    requires Inv(s, base) && ZeroFree(s, base) && Enabled(s, IngestNext(w))
    ensures Inv(After(s, IngestNext(w)), base)
  {
    var s' := After(s, IngestNext(w));
    IngestKeepsSound(s, w);
    IngestKeepsTable(s.table, s.workers[w].todo[0]);
    assert WorkerSound(s, s.workers[w]);
    assert s'.workers[w].Ingesting? && s'.workers[w].watermark == s.workers[w].watermark;
    forall v | v in s'.workers ensures PassesNothing(s', base, s'.workers[v]) {
      assert PassesNothing(s, base, s.workers[v]);
    }
  }

  lemma ReleaseKeepsInv(s: System, w: WorkerId, now: int, base: nat)
    requires Inv(s, base) && ZeroFree(s, base) && Enabled(s, Release(w, now))
    ensures Inv(After(s, Release(w, now)), base)
  {
    var s' := After(s, Release(w, now));
    ReleaseKeepsSound(s, w, now);
    assert WorkerSound(s, s.workers[w]) && PassesNothing(s, base, s.workers[w]);
    forall v | v in s'.workers ensures !s'.workers[v].Ingesting? && !CarriesZero(s'.workers[v]) {
      assert v != w ==> !Holds(s.workers[v]) && !CarriesZero(s.workers[v]);
    }
  }

  lemma FetchKeepsInv(s: System, w: WorkerId, base: nat)
    requires Inv(s, base) && ZeroFree(s, base) && Enabled(s, Fetch(w))
    ensures Inv(After(s, Fetch(w)), base)
  {
    var s' := After(s, Fetch(w));
    StepKeepsSound(s, Fetch(w));
    assert !CarriesZero(s.workers[w]);
    assert WorkerSound(s', s'.workers[w]);
    forall v | v in s'.workers && v != w ensures !Holds(s'.workers[v]) && !CarriesZero(s'.workers[v]) {
      assert s'.workers[v] == s.workers[v];
    }
  }

  /** Nobody reads while somebody holds the claim, so a reader reads a row that has left zero. */
  lemma ReadKeepsInv(s: System, w: WorkerId, now: int, interval: int, base: nat)
    requires Inv(s, base) && ZeroFree(s, base) && Enabled(s, Read(w, now, interval))
    ensures Inv(After(s, Read(w, now, interval)), base)
  {
    var s' := After(s, Read(w, now, interval));
    StepKeepsSound(s, Read(w, now, interval));
    assert forall v :: v in s.workers ==> !s.workers[v].Ingesting?;
    forall v | v in s'.workers ensures !CarriesZero(s'.workers[v]) && !s'.workers[v].Ingesting? {
      assert v != w ==> s'.workers[v] == s.workers[v];
    }
  }

  lemma ClaimKeepsInv(s: System, w: WorkerId, base: nat)
    requires Inv(s, base) && ZeroFree(s, base) && !Stalled(s) && Enabled(s, Claim(w))
    ensures Inv(After(s, Claim(w)), base)
  {
    var s' := After(s, Claim(w));
    StepKeepsSound(s, Claim(w));
    assert !CarriesZero(s.workers[w]);
    forall v | v in s'.workers && v != w ensures !CarriesZero(s'.workers[v]) && PassesNothing(s', base, s'.workers[v]) {
      assert !CarriesZero(s.workers[v]) && PassesNothing(s, base, s.workers[v]);
    }
    if v :| v in s.workers && s.workers[v].Ingesting? {
      assert s'.workers[v] == s.workers[v];
    }
  }

  /** A worker lets go: if it held the claim and crashed, nobody polls again; if not, nothing is lost. */
  lemma LetGoKeepsInv(s: System, step: Step, base: nat)
    requires Inv(s, base) && ZeroFree(s, base) && !Stalled(s) && Enabled(s, step) && (step.GiveUp? || step.Crash?)
    ensures Inv(After(s, step), base)
  {
    var s', w := After(s, step), step.w;
    StepKeepsSound(s, step);
    forall v | v in s'.workers && v != w ensures !CarriesZero(s'.workers[v]) && PassesNothing(s', base, s'.workers[v]) {
      assert !CarriesZero(s.workers[v]) && PassesNothing(s, base, s.workers[v]);
    }
    if s.workers[w].Ingesting? {
      assert Stalled(s');
    } else if v :| v in s.workers && s.workers[v].Ingesting? {
      assert s'.workers[v] == s.workers[v];
    }
  }

  lemma StepKeepsInv(s: System, step: Step, base: nat)
    requires Inv(s, base) && Enabled(s, step)
    ensures Inv(After(s, step), base)
  {
    if Stalled(s) {
      StallKeepsInv(s, step, base);
    } else {
      match step
      case Arrive(m) => ArriveKeepsInv(s, m, base);
      case IngestNext(w) => IngestKeepsInv(s, w, base);
      case Release(w, now) => ReleaseKeepsInv(s, w, now, base);
      case Fetch(w) => FetchKeepsInv(s, w, base);
      case Read(w, now, interval) => ReadKeepsInv(s, w, now, interval, base);
      case Claim(w) => ClaimKeepsInv(s, w, base);
      case _ => LetGoKeepsInv(s, step, base);
    }
  }

  lemma {:induction false} AlwaysInv(run: seq<System>, steps: seq<Step>, base: nat, i: nat)
    requires Execution(run, steps) && Inv(run[0], base) && i < |run|
    ensures Inv(run[i], base)
  {
    if i > 0 {
      AlwaysInv(run, steps, base, i - 1);
      StepKeepsInv(run[i - 1], steps[i - 1], base);
    }
  }

  lemma InvIsExactlyOnce(s: System, base: nat)
    requires Inv(s, base)
    ensures ExactlyOnce(s, base)
  {
    forall m | m in s.box.mails && base < m.uid <= s.row.lastUid && Eligible(m)
      ensures multiset(s.table)[m.messageId] == 1
    {
      DeduplicatedCount(s.table, m.messageId);
    }
  }

  // ---------------------------------------------------------------- necessary

  /** Some run from here loses a message. */
  ghost predicate Loses(s: System, base: nat) {
    exists run, steps, i: nat :: Execution(run, steps) && run[0] == s && i < |run| && !ExactlyOnce(run[i], base)
  }

  lemma StepThenLoses(s: System, step: Step, base: nat)
    requires Enabled(s, step) && Loses(After(s, step), base)
    ensures Loses(s, base)
  {
    var run, steps, i: nat :| Execution(run, steps) && run[0] == After(s, step) && i < |run| &&
        !ExactlyOnce(run[i], base);
    var run', steps' := [s] + run, [step] + steps;
    assert Execution(run', steps') by {
      forall k | 0 <= k < |steps'| ensures Enabled(run'[k], steps'[k]) && run'[k + 1] == After(run'[k], steps'[k]) {
        assert k > 0 ==> run'[k] == run[k - 1] && steps'[k] == steps[k - 1];
      }
    }
    assert run'[i + 1] == run[i];
  }

  lemma LostNow(s: System, base: nat, m: Mail)
    requires m in s.box.mails && base < m.uid <= s.row.lastUid && Eligible(m) && m.messageId !in s.table
    ensures Loses(s, base)
  {
    assert multiset(s.table)[m.messageId] == 0;
    assert Execution([s], []) && !ExactlyOnce([s][0], base);
  }

  /** A Message-ID longer than all that are stored. */
  function LongId(table: seq<ProviderId>): (id: string)
    ensures id != ""
    ensures forall p :: p in table && p.Some? ==> |p.value| < |id|
  {
    if table == [] then "x"
    else
      var rest, last := LongId(table[..|table| - 1]), table[|table| - 1];
      assert table == table[..|table| - 1] + [last];
      if last.Some? then last.value + rest else rest
  }

  /** Mail arrives, is taken for part of the baseline, and the watermark passes over it. */
  lemma BaselineLoses(s: System, w: WorkerId, base: nat)
    requires Sound(s) && w in s.workers && s.workers[w] == Holding(0) && base < s.box.uidNext
    ensures Loses(s, base)
  {
    var m := Mail(s.box.uidNext, true, Some(LongId(s.table)), false, true);
    var s1 := After(s, Arrive(m));
    var s2 := After(s1, Fetch(w));
    var s3 := After(s2, Release(w, 0));
    assert m.messageId !in s.table;
    assert m in s3.box.mails;
    LostNow(s3, base, m);
    StepThenLoses(s2, Release(w, 0), base);
    StepThenLoses(s1, Fetch(w), base);
    StepThenLoses(s, Arrive(m), base);
  }

  lemma StaleZeroLoses(s: System, w: WorkerId, base: nat)
    requires Sound(s) && w in s.workers && s.workers[w] == Claiming(0) && s.row.status != Running &&
             base < s.box.uidNext
    ensures Loses(s, base)
  {
    StepKeepsSound(s, Claim(w));
    BaselineLoses(After(s, Claim(w)), w, base);
    StepThenLoses(s, Claim(w), base);
  }

  lemma StoredZeroLoses(s: System, w: WorkerId, base: nat)
    requires Sound(s) && w in s.workers && s.row.lastUid == 0 && s.row.status != Running && base < s.box.uidNext
    ensures Loses(s, base)
  {
    var s1 := After(s, Crash(w));
    StepKeepsSound(s, Crash(w));
    var now := if s.row.lastPolledAt.Some? then s.row.lastPolledAt.value else 0;
    var s2 := After(s1, Read(w, now, 0));
    StepKeepsSound(s1, Read(w, now, 0));
    StaleZeroLoses(s2, w, base);
    StepThenLoses(s1, Read(w, now, 0), base);
    StepThenLoses(s, Crash(w), base);
  }

  /** The state the ingesting holder leaves, with whatever it ingested. */
  function Released(s: System, w: WorkerId, table: seq<ProviderId>): System
    requires w in s.workers && s.workers[w].Ingesting?
  {
    s.(table := table, row := PollRow(NextUid(s, w), Resting, Some(0)), workers := s.workers[w := Idle])
  }

  ghost predicate LosesOnceReleased(s: System, w: WorkerId, base: nat)
    requires w in s.workers && s.workers[w].Ingesting?
  {
    forall table :: Sound(Released(s, w, table)) ==> Loses(Released(s, w, table), base)
  }

  /** If a loss follows once the holder is done, it follows from here. */
  lemma {:induction false} LoopThenLoses(s: System, w: WorkerId, base: nat)
    requires Sound(s) && w in s.workers && s.workers[w].Ingesting? && LosesOnceReleased(s, w, base)
    ensures Loses(s, base)
    decreases |s.workers[w].todo|
  {
    if s.workers[w].todo == [] {
      StepKeepsSound(s, Release(w, 0));
      assert After(s, Release(w, 0)) == Released(s, w, s.table);
      StepThenLoses(s, Release(w, 0), base);
    } else {
      var s' := After(s, IngestNext(w));
      StepKeepsSound(s, IngestNext(w));
      assert s'.workers[w := Idle] == s.workers[w := Idle];
      assert forall table :: Released(s', w, table) == Released(s, w, table);
      LoopThenLoses(s', w, base);
      StepThenLoses(s, IngestNext(w), base);
    }
  }

  lemma BaselineInProgressLoses(s: System, w: WorkerId)
    requires Sound(s) && w in s.workers && !PassesNothing(s, s.row.lastUid, s.workers[w])
    ensures Loses(s, s.row.lastUid)
  {
    assert WorkerSound(s, s.workers[w]);
    var m :| m in s.box.mails && s.row.lastUid < m.uid <= s.workers[w].watermark &&
             Eligible(m) && m.messageId !in s.table;
    LostNow(After(s, Release(w, 0)), s.row.lastUid, m);
    StepThenLoses(s, Release(w, 0), s.row.lastUid);
  }

  lemma CarriedZeroLoses(s: System, w: WorkerId)
    requires Sound(s) && !Stalled(s) && w in s.workers && CarriesZero(s.workers[w])
    ensures Loses(s, s.row.lastUid)
  {
    var base := s.row.lastUid;
    if s.workers[w] == Holding(0) {
      BaselineLoses(s, w, base);
    } else if s.row.status != Running {
      StaleZeroLoses(s, w, base);
    } else {
      var h :| h in s.workers && Holds(s.workers[h]);
      if s.workers[h].Holding? {
        StepKeepsSound(s, GiveUp(h, 0));
        StaleZeroLoses(After(s, GiveUp(h, 0)), w, base);
        StepThenLoses(s, GiveUp(h, 0), base);
      } else {
        forall table | Sound(Released(s, h, table)) ensures Loses(Released(s, h, table), base) {
          StaleZeroLoses(Released(s, h, table), w, base);
        }
        LoopThenLoses(s, h, base);
      }
    }
  }

  lemma RemainingZeroLoses(s: System)
    requires Sound(s) && !Stalled(s) && !LeavesZero(s)
    ensures Loses(s, s.row.lastUid)
  {
    var base := s.row.lastUid;
    if h :| h in s.workers && s.workers[h].Ingesting? {
      forall table | Sound(Released(s, h, table)) ensures Loses(Released(s, h, table), base) {
        StoredZeroLoses(Released(s, h, table), h, base);
      }
      LoopThenLoses(s, h, base);
    } else if s.row.status == Running {
      var h :| h in s.workers && Holds(s.workers[h]);
      StepKeepsSound(s, GiveUp(h, 0));
      StoredZeroLoses(After(s, GiveUp(h, 0)), h, base);
      StepThenLoses(s, GiveUp(h, 0), base);
    } else {
      var w :| w in s.workers;
      StoredZeroLoses(s, w, base);
    }
  }

  // ---------------------------------------------------------------- stalled means what it says

  /** Some run from here finishes a poll. */
  ghost predicate Finishes(s: System) {
    exists run, steps: seq<Step>, i: nat :: Execution(run, steps) && run[0] == s && i < |steps| && steps[i].Release?
  }

  lemma StepThenFinishes(s: System, step: Step)
    requires Enabled(s, step) && Finishes(After(s, step))
    ensures Finishes(s)
  {
    var run, steps: seq<Step>, i: nat :|
      Execution(run, steps) && run[0] == After(s, step) && i < |steps| && steps[i].Release?;
    var run', steps' := [s] + run, [step] + steps;
    assert Execution(run', steps') by {
      forall k | 0 <= k < |steps'| ensures Enabled(run'[k], steps'[k]) && run'[k + 1] == After(run'[k], steps'[k]) {
        assert k > 0 ==> run'[k] == run[k - 1] && steps'[k] == steps[k - 1];
      }
    }
    assert steps'[i + 1] == steps[i];
  }

  lemma HolderFinishes(s: System, w: WorkerId)
    requires w in s.workers && Holds(s.workers[w])
    ensures Finishes(s)
  {
    if s.workers[w].Ingesting? {
      var steps, run := IngestLoopRuns(s, w, 0);
      assert steps[|steps| - 1].Release?;
    } else {
      var s1 := After(s, Fetch(w));
      var steps, run := IngestLoopRuns(s1, w, 0);
      assert steps[|steps| - 1].Release?;
      StepThenFinishes(s, Fetch(w));
    }
  }

  /** A state is stalled exactly if no run from it ever finishes a poll. */
  lemma StalledIff(s: System)
    ensures Stalled(s) <==> !Finishes(s)
  {
    if Stalled(s) {
      forall run, steps: seq<Step>, i: nat | Execution(run, steps) && run[0] == s && i < |steps|
        ensures !steps[i].Release?
      {
        StalledForGood(run, steps, i);
      }
    } else if w :| w in s.workers && Holds(s.workers[w]) {
      HolderFinishes(s, w);
    } else {
      var w :| w in s.workers;
      var s1 := After(s, Crash(w));
      var now := if s.row.lastPolledAt.Some? then s.row.lastPolledAt.value else 0;
      var s2 := After(s1, Read(w, now, 0));
      HolderFinishes(After(s2, Claim(w)), w);
      StepThenFinishes(s2, Claim(w));
      StepThenFinishes(s1, Read(w, now, 0));
      StepThenFinishes(s, Crash(w));
    }
  }

  // ---------------------------------------------------------------- exactly when

  /**
   From any state of the protocol: every message above the present watermark is ingested exactly once
   in every run exactly if no zero is in play, or no poll will ever be finished again.
   */
  lemma SafeIff(s: System)
    requires Sound(s)
    ensures Safe(s) <==> Stalled(s) || ZeroFree(s, s.row.lastUid)
  {
    var base := s.row.lastUid;
    if Stalled(s) || ZeroFree(s, base) {
      forall run, steps, i: nat | Execution(run, steps) && run[0] == s && i < |run| ensures ExactlyOnce(run[i], base) {
        AlwaysInv(run, steps, base, i);
        InvIsExactlyOnce(run[i], base);
      }
    } else {
      if !LeavesZero(s) {
        RemainingZeroLoses(s);
      } else {
        var w :| w in s.workers && (CarriesZero(s.workers[w]) || !PassesNothing(s, base, s.workers[w]));
        if CarriesZero(s.workers[w]) {
          CarriedZeroLoses(s, w);
        } else {
          BaselineInProgressLoses(s, w);
        }
      }
      assert !Safe(s);
    }
  }

  /** Between polls: the watermark must be positive, and no worker may carry a zero it read earlier. */
  lemma SafeBetweenPollsIff(s: System)
    requires Sound(s) && s.workers != map[] && s.row.status != Running
    ensures Safe(s) <==> s.row.lastUid > 0 && forall w :: w in s.workers ==> s.workers[w] != Claiming(0)
  {
    SafeIff(s);
    assert forall w :: w in s.workers ==> !Holds(s.workers[w]);
  }

  // ---------------------------------------------------------------- two ways to lose the first arrival

  function FirstMail(uid: nat): Mail {
    Mail(uid, true, Some("first"), false, true)
  }

  function EmptyMailboxSteps(): seq<Step> {
    [Read(0, 0, 20), Claim(0), Fetch(0), Release(0, 1), Arrive(FirstMail(1)),
     Read(0, 21, 20), Claim(0), Fetch(0), Release(0, 22)]
  }

  function EmptyMailboxRun(): seq<System> {
    var box0, box1 := Box([], 1), Box([FirstMail(1)], 2);
    var blank, taken0 := PollRow(0, Resting, None), PollRow(0, Running, None);
    var polled, taken1 := PollRow(0, Resting, Some(1)), PollRow(0, Running, Some(1));
    [System(box0, blank, [], map[0 := Idle]),
     System(box0, blank, [], map[0 := Claiming(0)]),
     System(box0, taken0, [], map[0 := Holding(0)]),
     System(box0, taken0, [], map[0 := Ingesting(0, [], 0)]),
     System(box0, polled, [], map[0 := Idle]),
     System(box1, polled, [], map[0 := Idle]),
     System(box1, polled, [], map[0 := Claiming(0)]),
     System(box1, taken1, [], map[0 := Holding(0)]),
     System(box1, taken1, [], map[0 := Ingesting(0, [], 1)]),
     System(box1, PollRow(1, Resting, Some(22)), [], map[0 := Idle])]
  }

  /** A mailbox that was polled while it was empty: its first message is taken for part of a baseline. */
  lemma FirstArrivalIsLost()
    ensures Execution(EmptyMailboxRun(), EmptyMailboxSteps()) && Initial(EmptyMailboxRun()[0], 0)
    ensures EmptyMailboxRun()[4].row.lastPolledAt.Some? && EmptyMailboxRun()[4].box.mails == []
    ensures !ExactlyOnce(EmptyMailboxRun()[9], EmptyMailboxRun()[4].row.lastUid)
  {
    var run, steps := EmptyMailboxRun(), EmptyMailboxSteps();
    forall i | 0 <= i < |steps| ensures Enabled(run[i], steps[i]) && run[i + 1] == After(run[i], steps[i]) {
      if i == 0 {
      } else if i == 1 {
      } else if i == 2 {
      } else if i == 3 {
      } else if i == 4 {
      } else if i == 5 {
      } else if i == 6 {
      } else if i == 7 {
      } else {
      }
    }
    assert FirstMail(1) in run[9].box.mails;
    assert multiset(run[9].table)[FirstMail(1).messageId] == 0;
  }

  function StaleZeroSteps(): seq<Step> {
    [Read(0, 20, 20), Read(1, 20, 20), Claim(0), Fetch(0), Release(0, 21), Arrive(FirstMail(6)),
     Claim(1), Fetch(1), Release(1, 22)]
  }

  function StaleZeroRun(): seq<System> {
    var box0, box1 := Box([], 6), Box([FirstMail(6)], 7);
    var failed, taken := PollRow(0, Error, Some(0)), PollRow(0, Running, Some(0));
    var polled, taken1 := PollRow(5, Resting, Some(21)), PollRow(5, Running, Some(21));
    [System(box0, failed, [], map[0 := Idle, 1 := Idle]),
     System(box0, failed, [], map[0 := Claiming(0), 1 := Idle]),
     System(box0, failed, [], map[0 := Claiming(0), 1 := Claiming(0)]),
     System(box0, taken, [], map[0 := Holding(0), 1 := Claiming(0)]),
     System(box0, taken, [], map[0 := Ingesting(0, [], 5), 1 := Claiming(0)]),
     System(box0, polled, [], map[0 := Idle, 1 := Claiming(0)]),
     System(box1, polled, [], map[0 := Idle, 1 := Claiming(0)]),
     System(box1, taken1, [], map[0 := Idle, 1 := Holding(0)]),
     System(box1, taken1, [], map[0 := Idle, 1 := Ingesting(0, [], 6)]),
     System(box1, PollRow(6, Resting, Some(22)), [], map[0 := Idle, 1 := Idle])]
  }

  /**
   A positive watermark is not enough. After a first fetch that failed, two workers read the row at
   zero; one takes the baseline, and the other, still carrying its zero, takes a second one later.
   */
  lemma StaleZeroIsLost()
    ensures Execution(StaleZeroRun(), StaleZeroSteps()) && Initial(StaleZeroRun()[0], 0)
    ensures StaleZeroRun()[5].row.lastUid == 5 && !ExactlyOnce(StaleZeroRun()[9], 5)
  {
    var run, steps := StaleZeroRun(), StaleZeroSteps();
    forall i | 0 <= i < |steps| ensures Enabled(run[i], steps[i]) && run[i + 1] == After(run[i], steps[i]) {
      if i == 0 {
      } else if i == 1 {
      } else if i == 2 {
      } else if i == 3 {
      } else if i == 4 {
      } else if i == 5 {
      } else if i == 6 {
      } else if i == 7 {
      } else {
      }
    }
    assert FirstMail(6) in run[9].box.mails;
    assert multiset(run[9].table)[FirstMail(6).messageId] == 0;
  }
}
