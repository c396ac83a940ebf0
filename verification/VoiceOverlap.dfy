/**
 Selections that overlap: the routing webhook reads the least recently assigned agent without a lock,
 and the stamp is seen by others only when it is committed. Several calls may then ring one agent; but
 waiting times stay bounded by the number of selections that can be under way at once.
 */
module VoiceOverlap {
  import opened Basics
  import opened VoiceRouting

  type CallId = nat

  /** A selection between its read and its commit. */
  datatype Flight = Flight(workspace: WorkspaceId, agent: UserId, now: int)

  datatype State = State(roster: Roster, flights: map<CallId, Flight>)

  datatype Step =
    | Read(call: CallId, workspace: WorkspaceId, focusOnVoice: bool, now: int, pick: Option<UserId>)
    | Commit(call: CallId)
    | Abort(call: CallId)
    | Edit(roster: Roster)

  ghost predicate Enabled(s: State, step: Step) {
    match step
    case Read(call, w, focus, now, pick) =>
      call !in s.flights && VoiceRouting.Enabled(s.roster, Select(w, focus, now, pick))
    case Commit(call) => call in s.flights && s.flights[call].agent in s.roster.presence
    case Abort(call) => call in s.flights
    case Edit(r) => SameStamps(s.roster, r)
  }

  function After(s: State, step: Step): State
    requires step.Commit? ==> step.call in s.flights && s.flights[step.call].agent in s.roster.presence
  {
    match step
    case Read(call, w, _, now, pick) =>
      if pick.Some? then s.(flights := s.flights[call := Flight(w, pick.value, now)]) else s
    case Commit(call) =>
      State(Stamp(s.roster, s.flights[call].agent, s.flights[call].now), s.flights - {call})
    case Abort(call) => s.(flights := s.flights - {call})
    case Edit(r) => s.(roster := r)
  }

  ghost predicate Execution(run: seq<State>, steps: seq<Step>) {
    && |run| == |steps| + 1
    && forall i :: 0 <= i < |steps| ==> Enabled(run[i], steps[i]) && run[i + 1] == After(run[i], steps[i])
  }

  /** Two selections that read before either commits ring the same agent. */
  lemma OverlappingPicksCoincide(s: State, workspace: WorkspaceId, focus: bool, a: CallId, b: CallId,
                                 u: UserId, v: UserId,
                                 now: int, later: int)
    requires a != b && Enabled(s, Read(a, workspace, focus, now, Some(u)))
    requires Enabled(After(s, Read(a, workspace, focus, now, Some(u))), Read(b, workspace, focus, later, Some(v)))
    ensures u == v
  {
    assert u in EligibleSet(s.roster, workspace, focus) && v in EligibleSet(s.roster, workspace, focus);
  }

  // ---------------------------------------------------------------- waiting

  /** Nobody rings x, and whoever is being rung will have a later stamp than x. */
  ghost predicate Waits(s: State, x: UserId) {
    && x in s.roster.presence
    && forall c :: c in s.flights ==>
         var f := s.flights[c];
         && f.agent != x && f.agent in s.roster.presence
         && (s.roster.presence[x].lastAssigned.Some? ==> s.roster.presence[x].lastAssigned.value < f.now)
  }

  /** The workspace's selections under way whose agent is no longer ahead of x. */
  function Late(s: State, workspace: WorkspaceId, x: UserId): set<CallId>
    requires x in s.roster.presence
  {
    set c | c in s.flights && s.flights[c].workspace == workspace && s.flights[c].agent !in Ahead(s.roster, x)
  }

  predicate Counts(s: State, step: Step, workspace: WorkspaceId) {
    step.Commit? && step.call in s.flights && s.flights[step.call].workspace == workspace
  }

  /** The committed agent leaves the queue ahead of x for good. */
  lemma CommitMovesBack(s: State, call: CallId, x: UserId)
    requires Waits(s, x) && Enabled(s, Commit(call))
    ensures Waits(After(s, Commit(call)), x)
    ensures Ahead(After(s, Commit(call)).roster, x) == Ahead(s.roster, x) - {s.flights[call].agent}
  {
  }

  /** A commit that moves its agent back may leave the other selections under way late. */
  lemma MoveBackPays(s: State, call: CallId, k: nat, workspace: WorkspaceId, x: UserId)
    requires Waits(s, x) && Enabled(s, Commit(call)) && |s.flights| <= k
    requires s.flights[call].agent in Ahead(s.roster, x)
    ensures var s' := After(s, Commit(call));
            Waits(s', x) && |Ahead(s'.roster, x)| == |Ahead(s.roster, x)| - 1 && |Late(s', workspace, x)| <= k - 1
  {
    CommitMovesBack(s, call, x);
    var late', others := Late(After(s, Commit(call)), workspace, x), s.flights.Keys - {call};
    assert late' <= others && |others| == |s.flights.Keys| - 1;
    SubsetIsNoLarger(late', others);
  }

  /** Any other commit is a late one. */
  lemma LateCommitPays(s: State, call: CallId, workspace: WorkspaceId, x: UserId)
    requires Waits(s, x) && Enabled(s, Commit(call))
    requires s.flights[call].agent !in Ahead(s.roster, x)
    ensures var s' := After(s, Commit(call));
            && Waits(s', x) && Ahead(s'.roster, x) == Ahead(s.roster, x)
            && |Late(s', workspace, x)| + (if Counts(s, Commit(call), workspace) then 1 else 0) ==
                  |Late(s, workspace, x)|
  {
    CommitMovesBack(s, call, x);
    var s', late := After(s, Commit(call)), Late(s, workspace, x);
    assert Ahead(s'.roster, x) == Ahead(s.roster, x);
    assert Late(s', workspace, x) == late - {call};
    assert call in late <==> Counts(s, Commit(call), workspace);
  }

  /** No step adds to what x has to wait for, and every commit of the workspace takes one away. */
  lemma StepPaysOff(s: State, step: Step, k: nat, workspace: WorkspaceId, x: UserId)
    requires Waits(s, x) && Enabled(s, step) && |s.flights| <= k
    requires step.Read? ==> step.pick != Some(x)
    requires step.Read? && step.workspace == workspace ==> Eligible(s.roster, workspace, step.focusOnVoice, x)
    ensures var s' := After(s, step);
            && Waits(s', x) && |Ahead(s'.roster, x)| <= |Ahead(s.roster, x)|
            && |Late(s', workspace, x)| + k * |Ahead(s'.roster, x)| + (if Counts(s, step, workspace) then 1 else 0) <=
                 |Late(s, workspace, x)| + k * |Ahead(s.roster, x)|
  {
    var s' := After(s, step);
    match step
    case Read(call, w, focus, now, pick) =>
      if w == workspace && pick.Some? {
        assert x in EligibleSet(s.roster, workspace, focus);
        assert pick.value in Ahead(s.roster, x);
      }
      assert Late(s', workspace, x) == Late(s, workspace, x);
    case Commit(call) =>
      if s.flights[call].agent in Ahead(s.roster, x) {
        MoveBackPays(s, call, k, workspace, x);
        assert k * |Ahead(s'.roster, x)| == k * |Ahead(s.roster, x)| - k;
      } else {
        LateCommitPays(s, call, workspace, x);
      }
    case Abort(call) =>
      SubsetIsNoLarger(Late(s', workspace, x), Late(s, workspace, x));
    case Edit(_) =>
      assert Ahead(s'.roster, x) == Ahead(s.roster, x);
      assert Late(s', workspace, x) == Late(s, workspace, x);
  }

  /** Committed selections of the workspace. */
  function Commits(run: seq<State>, steps: seq<Step>, workspace: WorkspaceId): nat
    requires |run| == |steps| + 1
  {
    if steps == [] then 0
    else
      var n := |steps| - 1;
      Commits(run[..n + 1], steps[..n], workspace) + if Counts(run[n], steps[n], workspace) then 1 else 0
  }

  /** x is never picked, and eligible whenever its workspace reads; at most k selections are under way. */
  ghost predicate PassedOver(run: seq<State>, steps: seq<Step>, k: nat, workspace: WorkspaceId, x: UserId)
    requires |run| == |steps| + 1
  {
    && (forall i :: 0 <= i < |run| ==> |run[i].flights| <= k)
    && forall i :: 0 <= i < |steps| && steps[i].Read? ==>
         steps[i].pick != Some(x) &&
         (steps[i].workspace == workspace ==> Eligible(run[i].roster, workspace, steps[i].focusOnVoice, x))
  }

  lemma {:induction false} WaitIsPaidFor(run: seq<State>, steps: seq<Step>, k: nat, workspace: WorkspaceId, x: UserId)
    requires Execution(run, steps) && PassedOver(run, steps, k, workspace, x) && Waits(run[0], x)
    ensures var s, s' := run[0], run[|steps|];
            && Waits(s', x)
            && Commits(run, steps, workspace) + |Late(s', workspace, x)| + k * |Ahead(s'.roster, x)| <=
                 |Late(s, workspace, x)| + k * |Ahead(s.roster, x)|
    decreases |steps|
  {
    if steps != [] {
      var n := |steps| - 1;
      assert Execution(run[..n + 1], steps[..n]) && PassedOver(run[..n + 1], steps[..n], k, workspace, x);
      WaitIsPaidFor(run[..n + 1], steps[..n], k, workspace, x);
      StepPaysOff(run[n], steps[n], k, workspace, x);
    }
  }

  /**
   With at most k selections under way at once, an agent who stays eligible and is passed over sees at
   most k times as many committed selections of its workspace as there are presence rows.
   */
  lemma OverlapBoundsWait(run: seq<State>, steps: seq<Step>, k: nat, workspace: WorkspaceId, x: UserId)
    requires Execution(run, steps) && PassedOver(run, steps, k, workspace, x) && Waits(run[0], x)
    ensures Commits(run, steps, workspace) <= k * |run[0].roster.presence|
  {
    var s, end := run[0], run[|steps|];
    WaitIsPaidFor(run, steps, k, workspace, x);
    QueueIsShort(s.roster, x);
    assert Late(s, workspace, x) <= s.flights.Keys && |s.flights.Keys| == |s.flights|;
    SubsetIsNoLarger(Late(s, workspace, x), s.flights.Keys);
    PaidInFull(Commits(run, steps, workspace), |Late(end, workspace, x)|, |Late(s, workspace, x)|, k,
               |Ahead(end.roster, x)|, |Ahead(s.roster, x)|, |s.roster.presence|);
  }

  lemma PaidInFull(commits: nat, late': nat, late: nat, k: nat, ahead': nat, ahead: nat, rows: nat)
    requires commits + late' + k * ahead' <= late + k * ahead && late <= k && ahead < rows
    ensures commits <= k * rows
  {
    assert k * (ahead + 1) == k * ahead + k;
    assert k * (rows - ahead - 1) >= 0 && k * rows == k * (ahead + 1) + k * (rows - ahead - 1);
  }
}
