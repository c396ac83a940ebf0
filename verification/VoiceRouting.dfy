/**
 Choosing the agent an inbound call rings: the eligible agent assigned least recently. The choice
 stamps the agent, and that is all the memory there is; the fairness of routing follows from it.
 */
module VoiceRouting {
  import opened Basics

  type UserId = nat      // user ids in their sort order
  type WorkspaceId = nat

  datatype Presence = Presence(available: bool, onVoiceCall: bool, lastAssigned: Option<int>)

  datatype Identity = Identity(workspace: WorkspaceId, active: bool, sipUser: string)

  datatype Roster = Roster(presence: map<UserId, Presence>, identities: map<UserId, Identity>)

  // ---------------------------------------------------------------- the query

  predicate Eligible(r: Roster, workspace: WorkspaceId, focusOnVoice: bool, u: UserId) {
    && u in r.presence && r.presence[u].available
    && u in r.identities && r.identities[u].workspace == workspace && r.identities[u].active
    && (focusOnVoice ==> !r.presence[u].onVoiceCall)
  }

  function EligibleSet(r: Roster, workspace: WorkspaceId, focusOnVoice: bool): set<UserId> {
    set u | u in r.presence && Eligible(r, workspace, focusOnVoice, u)
  }

  /** `ORDER BY last_assigned_at ASC NULLS FIRST, user_id`. */
  predicate Before(r: Roster, u: UserId, v: UserId)
    requires u in r.presence && v in r.presence
  {
    match (r.presence[u].lastAssigned, r.presence[v].lastAssigned)
    case (None, None) => u < v
    case (None, Some(_)) => true
    case (Some(_), None) => false
    case (Some(s), Some(t)) => s < t || (s == t && u < v)
  }

  predicate IsPick(r: Roster, workspace: WorkspaceId, focusOnVoice: bool, u: UserId) {
    && Eligible(r, workspace, focusOnVoice, u)
    && forall v :: v in EligibleSet(r, workspace, focusOnVoice) && v != u ==> Before(r, u, v)
  }

  function Stamp(r: Roster, u: UserId, now: int): Roster
    requires u in r.presence
  {
    r.(presence := r.presence[u := r.presence[u].(lastAssigned := Some(now))])
  }

  /** The clock is ahead of every stamp given so far. */
  ghost predicate ClockAhead(r: Roster, now: int) {
    forall u :: u in r.presence && r.presence[u].lastAssigned.Some? ==> r.presence[u].lastAssigned.value < now
  }

  lemma {:induction false} LeastExists(r: Roster, s: set<UserId>) returns (u: UserId)
    requires s != {} && s <= r.presence.Keys
    ensures u in s && forall v :: v in s && v != u ==> Before(r, u, v)
    decreases s
  {
    var x :| x in s;
    if s == {x} {
      u := x;
    } else {
      var least := LeastExists(r, s - {x});
      u := if Before(r, x, least) then x else least;
      forall v | v in s && v != u ensures Before(r, u, v) {
        assert v == x || v in s - {x};
      }
    }
  }

  /** By what is stored: the agent is available, has an active identity here, and is off the phone if that matters. */
  ghost predicate CanRing(r: Roster, workspace: WorkspaceId, focusOnVoice: bool, u: UserId) {
    exists p, i ::
      && u in r.presence && r.presence[u] == p && u in r.identities && r.identities[u] == i
      && p.available && i.active && i.workspace == workspace && (focusOnVoice ==> !p.onVoiceCall)
  }

  lemma EligibleMeans(r: Roster, workspace: WorkspaceId, focusOnVoice: bool, u: UserId)
    ensures u in EligibleSet(r, workspace, focusOnVoice) <==> CanRing(r, workspace, focusOnVoice, u)
  {
  }

  /** The pick can ring, and of all who can it was assigned least recently: never, or earliest, or first by id. */
  lemma PickMeans(r: Roster, workspace: WorkspaceId, focusOnVoice: bool, u: UserId)
    requires IsPick(r, workspace, focusOnVoice, u)
    ensures CanRing(r, workspace, focusOnVoice, u)
    ensures forall v :: CanRing(r, workspace, focusOnVoice, v) && v != u ==>
              var mine, theirs := r.presence[u].lastAssigned, r.presence[v].lastAssigned;
              && (mine.Some? ==> theirs.Some? && mine.value <= theirs.value)
              && (mine == theirs ==> u < v)
  {
    forall v | CanRing(r, workspace, focusOnVoice, v) && v != u
      ensures v in EligibleSet(r, workspace, focusOnVoice) && Before(r, u, v)
    {
      EligibleMeans(r, workspace, focusOnVoice, v);
    }
  }

  /** A stamp is the time of the pick, and all that changes. */
  lemma StampMeans(r: Roster, u: UserId, now: int)
    requires u in r.presence
    ensures var r' := Stamp(r, u, now);
            && r'.identities == r.identities && r'.presence.Keys == r.presence.Keys
            && r'.presence[u] == Presence(r.presence[u].available, r.presence[u].onVoiceCall, Some(now))
            && forall v :: v in r.presence && v != u ==> r'.presence[v] == r.presence[v]
  {
  }

  class RoutingDesk {
    var roster: Roster

    constructor (r: Roster)
      ensures roster == r
    {
      roster := r;
    }

    /** `select_agent_for_voice`; without a policy agents on a call are not excluded. */
    method SelectAgentForVoice(focusPolicy: Option<bool>, workspace: WorkspaceId, now: int)
      returns (agent: Option<UserId>)
      modifies this
      ensures var focus := focusPolicy == Some(true);
              && (agent.None? <==> EligibleSet(old(roster), workspace, focus) == {})
              && (agent.None? ==> roster == old(roster))
              && (agent.Some? ==> IsPick(old(roster), workspace, focus, agent.value) &&
                                  roster == Stamp(old(roster), agent.value, now))
      // by what is stored: nobody can ring, or the agent can
      ensures var r, focus := old(roster), focusPolicy == Some(true);
              agent.None? <==> forall u :: !CanRing(r, workspace, focus, u)
      ensures agent.Some? ==>
                && agent.value in old(roster).presence && agent.value in old(roster).identities
                && old(roster).presence[agent.value].available
                && old(roster).identities[agent.value].active
                && old(roster).identities[agent.value].workspace == workspace
                && (focusPolicy == Some(true) ==> !old(roster).presence[agent.value].onVoiceCall)
    {
      ghost var focus := focusPolicy == Some(true);
      forall u ensures u in EligibleSet(roster, workspace, focus) <==> CanRing(roster, workspace, focus, u) {
        EligibleMeans(roster, workspace, focus, u);
      }
      var excludeOnVoiceCall := focusPolicy.Some? && focusPolicy.value;
      var candidates := EligibleSet(roster, workspace, excludeOnVoiceCall);
      if candidates == {} {
        return None;
      }
      ghost var least := LeastExists(roster, candidates);
      var u :| u in candidates && forall v :: v in candidates && v != u ==> Before(roster, u, v);
      roster := Stamp(roster, u, now);
      return Some(u);
    }
  }

  // ---------------------------------------------------------------- no starvation

  /**
   What happens to the roster over time: selections for some workspace, and edits of anything but
   the stamps (agents come, go, take calls, get or lose identities).
   */
  datatype Step =
    | Select(workspace: WorkspaceId, focusOnVoice: bool, now: int, pick: Option<UserId>)
    | Edit(roster: Roster)

  ghost predicate SameStamps(r: Roster, r': Roster) {
    && r'.presence.Keys == r.presence.Keys
    && forall u :: u in r.presence ==> r'.presence[u].lastAssigned == r.presence[u].lastAssigned
  }

  ghost predicate Enabled(r: Roster, step: Step) {
    match step
    case Select(w, focus, now, pick) =>
      && ClockAhead(r, now)
      && (pick.None? <==> EligibleSet(r, w, focus) == {})
      && (pick.Some? ==> IsPick(r, w, focus, pick.value))
    case Edit(r') => SameStamps(r, r')
  }

  function After(r: Roster, step: Step): Roster
    requires step.Select? && step.pick.Some? ==> step.pick.value in r.presence
  {
    match step
    case Select(_, _, now, pick) => if pick.Some? then Stamp(r, pick.value, now) else r
    case Edit(r') => r'
  }

  ghost predicate Execution(run: seq<Roster>, steps: seq<Step>) {
    && |run| == |steps| + 1
    && forall i :: 0 <= i < |steps| ==> Enabled(run[i], steps[i]) && run[i + 1] == After(run[i], steps[i])
  }

  /** x keeps its identity in `workspace` and is eligible whenever that workspace selects. */
  ghost predicate StaysEligible(run: seq<Roster>, steps: seq<Step>, workspace: WorkspaceId, x: UserId)
    requires Execution(run, steps)
  {
    forall i :: 0 <= i < |steps| && steps[i].Select? ==>
      && x in run[i].identities && run[i].identities[x].workspace == workspace
      && (steps[i].workspace == workspace ==> Eligible(run[i], workspace, steps[i].focusOnVoice, x))
  }

  function Selections(steps: seq<Step>, workspace: WorkspaceId): nat {
    if steps == [] then 0
    else Selections(steps[1..], workspace) + if steps[0].Select? && steps[0].workspace == workspace then 1 else 0
  }

  ghost predicate Picked(steps: seq<Step>, x: UserId) {
    exists i :: 0 <= i < |steps| && steps[i].Select? && steps[i].pick == Some(x)
  }

  /** The agents that come before x. */
  function Ahead(r: Roster, x: UserId): set<UserId>
    requires x in r.presence
  {
    set u | u in r.presence && Before(r, u, x)
  }

  /** A step that does not pick x puts nobody new ahead of x, and a selection for x's workspace takes one away. */
  lemma StepShortensQueue(r: Roster, step: Step, workspace: WorkspaceId, x: UserId)
    requires Enabled(r, step) && x in r.presence
    requires step.Select? ==> step.pick != Some(x)
    requires step.Select? && step.workspace == workspace ==> Eligible(r, workspace, step.focusOnVoice, x)
    ensures var r' := After(r, step);
            && r'.presence.Keys == r.presence.Keys
            && Ahead(r', x) <= Ahead(r, x)
            && (step.Select? && step.workspace == workspace ==> |Ahead(r', x)| < |Ahead(r, x)|)
  {
    var r' := After(r, step);
    if step.Select? && step.workspace == workspace {
      assert x in EligibleSet(r, workspace, step.focusOnVoice);
      var y := step.pick.value;
      assert Before(r, y, x);
      assert y in Ahead(r, x) && y !in Ahead(r', x);
      assert Ahead(r', x) <= Ahead(r, x) - {y};
      SubsetIsNoLarger(Ahead(r', x), Ahead(r, x) - {y});
    }
  }

  lemma {:induction false} QueueBoundsWait(run: seq<Roster>, steps: seq<Step>, workspace: WorkspaceId, x: UserId)
    requires Execution(run, steps) && StaysEligible(run, steps, workspace, x)
    requires x in run[0].presence && !Picked(steps, x)
    ensures Selections(steps, workspace) <= |Ahead(run[0], x)|
    decreases |steps|
  {
    if steps != [] {
      StepShortensQueue(run[0], steps[0], workspace, x);
      SubsetIsNoLarger(Ahead(run[1], x), Ahead(run[0], x));
      var run', steps' := run[1..], steps[1..];
      assert Execution(run', steps') by {
        forall i | 0 <= i < |steps'| ensures Enabled(run'[i], steps'[i]) && run'[i + 1] == After(run'[i], steps'[i]) {
          assert run'[i] == run[i + 1] && steps'[i] == steps[i + 1];
        }
      }
      assert StaysEligible(run', steps', workspace, x) by {
        forall i | 0 <= i < |steps'| && steps'[i].Select?
          ensures x in run'[i].identities && run'[i].identities[x].workspace == workspace
          ensures steps'[i].workspace == workspace ==> Eligible(run'[i], workspace, steps'[i].focusOnVoice, x)
        {
          assert run'[i] == run[i + 1] && steps'[i] == steps[i + 1];
        }
      }
      QueueBoundsWait(run', steps', workspace, x);
    }
  }

  lemma QueueIsShort(r: Roster, x: UserId)
    requires x in r.presence
    ensures |Ahead(r, x)| < |r.presence|
  {
    assert x !in Ahead(r, x);
    SubsetIsNoLarger(Ahead(r, x) + {x}, r.presence.Keys);
  }

  /**
   Nobody starves: an agent who stays eligible is picked within as many selections for the workspace
   as there are presence rows, whatever happens to the other agents in between.
   */
  lemma NoStarvation(run: seq<Roster>, steps: seq<Step>, workspace: WorkspaceId, x: UserId)
    requires Execution(run, steps) && StaysEligible(run, steps, workspace, x)
    requires x in run[0].presence
    requires Selections(steps, workspace) >= |run[0].presence|
    ensures Picked(steps, x)
  {
    QueueIsShort(run[0], x);
    if !Picked(steps, x) {
      QueueBoundsWait(run, steps, workspace, x);
    }
  }

  // ---------------------------------------------------------------- round robin

  /** Consecutive picks of one workspace with nothing else going on. */
  ghost predicate Rounds(run: seq<Roster>, nows: seq<int>, picks: seq<UserId>, workspace: WorkspaceId, focus: bool) {
    && |run| == |picks| + 1 && |nows| == |picks|
    && forall i :: 0 <= i < |picks| ==>
         ClockAhead(run[i], nows[i]) && IsPick(run[i], workspace, focus, picks[i]) &&
         run[i + 1] == Stamp(run[i], picks[i], nows[i])
  }

  lemma {:induction false} EligibilityIsFixed(
    run: seq<Roster>, nows: seq<int>, picks: seq<UserId>, workspace: WorkspaceId, focus: bool, i: nat)
    requires Rounds(run, nows, picks, workspace, focus) && i < |run|
    ensures run[i].presence.Keys == run[0].presence.Keys && run[i].identities == run[0].identities
    ensures EligibleSet(run[i], workspace, focus) == EligibleSet(run[0], workspace, focus)
  {
    if i > 0 {
      EligibilityIsFixed(run, nows, picks, workspace, focus, i - 1);
      forall u ensures Eligible(run[i], workspace, focus, u) == Eligible(run[i - 1], workspace, focus, u) {
      }
    }
  }

  /** An agent who was not picked since keeps the stamp it had. */
  lemma {:induction false} UnpickedKeepsStamp(
    run: seq<Roster>, nows: seq<int>, picks: seq<UserId>, workspace: WorkspaceId, focus: bool, i: nat,
    j: nat, z: UserId)
    requires Rounds(run, nows, picks, workspace, focus) && i <= j < |run|
    requires z in run[i].presence && z !in picks[i..j]
    ensures z in run[j].presence && run[j].presence[z].lastAssigned == run[i].presence[z].lastAssigned
    decreases j
  {
    if i < j {
      assert picks[i..j] == picks[i..j - 1] + [picks[j - 1]];
      UnpickedKeepsStamp(run, nows, picks, workspace, focus, i, j - 1, z);
      assert run[j] == Stamp(run[j - 1], picks[j - 1], nows[j - 1]);
    }
  }

  /** Until an agent is picked again, every other eligible agent is picked. */
  lemma OthersComeFirst(
    run: seq<Roster>, nows: seq<int>, picks: seq<UserId>, workspace: WorkspaceId, focus: bool, i: nat,
    j: nat, z: UserId)
    requires Rounds(run, nows, picks, workspace, focus) && i < j < |picks| && picks[i] == picks[j]
    requires picks[i] !in picks[i + 1..j]
    requires z in EligibleSet(run[0], workspace, focus) && z != picks[i]
    ensures z in picks[i + 1..j]
  {
    EligibilityIsFixed(run, nows, picks, workspace, focus, i);
    EligibilityIsFixed(run, nows, picks, workspace, focus, j);
    assert run[i + 1] == Stamp(run[i], picks[i], nows[i]);
    assert z in EligibleSet(run[j], workspace, focus) && Before(run[j], picks[j], z);
    UnpickedKeepsStamp(run, nows, picks, workspace, focus, i + 1, j, picks[i]);
    if z !in picks[i + 1..j] {
      UnpickedKeepsStamp(run, nows, picks, workspace, focus, i + 1, j, z);
    }
  }

  /** Two picks of one agent lie at least as far apart as there are eligible agents. */
  lemma {:induction false} SamePicksAreFarApart(
    run: seq<Roster>, nows: seq<int>, picks: seq<UserId>, workspace: WorkspaceId, focus: bool, i: nat, j: nat)
    requires Rounds(run, nows, picks, workspace, focus) && i < j < |picks| && picks[i] == picks[j]
    ensures j - i >= |EligibleSet(run[0], workspace, focus)|
    decreases j - i
  {
    var e, y, between := EligibleSet(run[0], workspace, focus), picks[i], picks[i + 1..j];
    if k :| 0 <= k < |between| && between[k] == y {
      SamePicksAreFarApart(run, nows, picks, workspace, focus, i, i + 1 + k);
    } else {
      forall z | z in e - {y} ensures z in Elements(between) {
        OthersComeFirst(run, nows, picks, workspace, focus, i, j, z);
      }
      SubsetIsNoLarger(e - {y}, Elements(between));
      ElementsAreFew(between);
    }
  }

  lemma PicksAreEligible(
    run: seq<Roster>, nows: seq<int>, picks: seq<UserId>, workspace: WorkspaceId, focus: bool, from: nat, to: nat)
    requires Rounds(run, nows, picks, workspace, focus) && from <= to <= |picks|
    ensures Elements(picks[from..to]) <= EligibleSet(run[0], workspace, focus)
  {
    forall x | x in picks[from..to] ensures x in EligibleSet(run[0], workspace, focus) {
      var a :| from <= a < to && picks[a] == x;
      EligibilityIsFixed(run, nows, picks, workspace, focus, a);
      assert x in EligibleSet(run[a], workspace, focus);
    }
  }

  lemma PicksDiffer(
    run: seq<Roster>, nows: seq<int>, picks: seq<UserId>, workspace: WorkspaceId, focus: bool, from: nat, to: nat)
    requires Rounds(run, nows, picks, workspace, focus) && from <= to <= |picks|
    requires to - from <= |EligibleSet(run[0], workspace, focus)|
    ensures NoDups(picks[from..to])
  {
    forall a, b | from <= a < b < to ensures picks[a] != picks[b] {
      if picks[a] == picks[b] {
        SamePicksAreFarApart(run, nows, picks, workspace, focus, a, b);
      }
    }
  }

  /** Any n consecutive picks from n eligible agents are n different agents: every one of them, once. */
  lemma RoundRobin(
    run: seq<Roster>, nows: seq<int>, picks: seq<UserId>, workspace: WorkspaceId, focus: bool, from: nat)
    requires Rounds(run, nows, picks, workspace, focus)
    requires from + |EligibleSet(run[0], workspace, focus)| <= |picks|
    ensures var window := picks[from..from + |EligibleSet(run[0], workspace, focus)|];
            NoDups(window) && Elements(window) == EligibleSet(run[0], workspace, focus)
  {
    var e := EligibleSet(run[0], workspace, focus);
    var window := picks[from..from + |e|];
    PicksDiffer(run, nows, picks, workspace, focus, from, from + |e|);
    ElementsAreFew(window);
    PicksAreEligible(run, nows, picks, workspace, focus, from, from + |e|);
    SubsetIsNoLarger(Elements(window), e);
  }
}
