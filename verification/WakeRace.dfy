/**
 Workers that wake one waiting run. The query for due runs takes no row lock, so a worker may pick up a
 run that another one has picked up and not committed yet; each of them executes the wait node again,
 writes its row and sets the next wake.
 */
module WakeRace {
  import LookThenInsert

  type WorkerId = nat

  /** A worker serves a wake it saw due: it has selected the run, or executed the node. */
  datatype Pc = Idle | Selected(wake: int) | Executed(wake: int)

  /** `served` lists, for each row the wait node wrote, the wake it was written for. */
  datatype System = System(wakeAt: int, served: seq<int>, clock: int, workers: map<WorkerId, Pc>)

  /** Every step is taken at a time; `next` is the wake an execution computes, some hours after its clock. */
  datatype Step =
    | Select(w: WorkerId, now: int)
    | Execute(w: WorkerId, now: int)
    | Commit(w: WorkerId, now: int, next: int)
    | Crash(w: WorkerId, now: int)

  ghost predicate Enabled(x: System, step: Step) {
    && step.w in x.workers && x.clock <= step.now
    && match step
       case Select(w, now) => x.workers[w].Idle? && x.wakeAt <= now
       case Execute(w, _) => x.workers[w].Selected?
       case Commit(w, now, next) => x.workers[w].Executed? && next > now
       case Crash(_, _) => true
  }

  function After(x: System, step: Step): System
    requires step.w in x.workers && (step.Execute? ==> x.workers[step.w].Selected?)
    requires step.Commit? ==> x.workers[step.w].Executed?
  {
    match step
    case Select(w, now) => x.(workers := x.workers[w := Selected(x.wakeAt)], clock := now)
    case Execute(w, now) => x.(workers := x.workers[w := Executed(x.workers[w].wake)], clock := now)
    case Commit(w, now, next) => System(next, x.served + [x.workers[w].wake], now, x.workers[w := Idle])
    case Crash(w, now) => x.(workers := x.workers[w := Idle], clock := now)
  }

  ghost predicate Execution(run: seq<System>, steps: seq<Step>) {
    && |run| == |steps| + 1
    && Inv(run[0])
    && forall i :: 0 <= i < |steps| ==> Enabled(run[i], steps[i]) && run[i + 1] == After(run[i], steps[i])
  }

  /** What was or is being served was due by now, and the wake that stands was never served. */
  ghost predicate Inv(x: System) {
    && x.wakeAt !in x.served
    && (forall s :: s in x.served ==> s <= x.clock)
    && forall w :: w in x.workers && !x.workers[w].Idle? ==> x.workers[w].wake <= x.clock
  }

  lemma StepKeepsInv(x: System, step: Step)
    requires Inv(x) && Enabled(x, step)
    ensures Inv(After(x, step))
  {
    if step.Commit? {
      var x' := After(x, step);
      assert forall s :: s in x'.served ==> s in x.served || s == x.workers[step.w].wake;
    }
  }

  lemma {:induction false} AlwaysInv(run: seq<System>, steps: seq<Step>, i: nat)
    requires Execution(run, steps) && i < |run|
    ensures Inv(run[i])
  {
    if i > 0 {
      AlwaysInv(run, steps, i - 1);
      StepKeepsInv(run[i - 1], steps[i - 1]);
    }
  }

  // ---------------------------------------------------------------- waking is a look without a lock

  function Place(pc: Pc): LookThenInsert.Pc<int> {
    match pc
    case Idle => LookThenInsert.Idle
    case Selected(k) => LookThenInsert.Missed(k)
    case Executed(k) => LookThenInsert.Written(k)
  }

  /** The keys are wakes, and a wake has a row for every time it was served. */
  function View(x: System): LookThenInsert.System<int> {
    LookThenInsert.System(x.served, map w | w in x.workers :: Place(x.workers[w]))
  }

  function ViewStep(x: System, step: Step): LookThenInsert.Step<int> {
    match step
    case Select(w, _) => LookThenInsert.Look(w, x.wakeAt)
    case Execute(w, _) => LookThenInsert.Write(w)
    case Commit(w, _, _) => LookThenInsert.Commit(w)
    case Crash(w, _) => LookThenInsert.Abort(w)
  }

  lemma StepIsLookThenInsert(x: System, step: Step)
    requires Inv(x) && Enabled(x, step)
    ensures LookThenInsert.Enabled(View(x), ViewStep(x, step))
    ensures View(After(x, step)) == LookThenInsert.After(View(x), ViewStep(x, step))
  {
  }

  function ViewRun(run: seq<System>): (r: seq<LookThenInsert.System<int>>)
    ensures |r| == |run| && forall i :: 0 <= i < |r| ==> r[i] == View(run[i])
  {
    seq(|run|, i requires 0 <= i < |run| => View(run[i]))
  }

  function ViewSteps(run: seq<System>, steps: seq<Step>): (r: seq<LookThenInsert.Step<int>>)
    requires |steps| < |run|
    ensures |r| == |steps| && forall i :: 0 <= i < |r| ==> r[i] == ViewStep(run[i], steps[i])
  {
    seq(|steps|, i requires 0 <= i < |steps| => ViewStep(run[i], steps[i]))
  }

  /** A worker selects the run for this wake while another one is between its selection and its commit. */
  ghost predicate Overlaps(x: System, step: Step, wake: int) {
    step.Select? && x.wakeAt == wake && exists v :: v in x.workers && !x.workers[v].Idle? && x.workers[v].wake == wake
  }

  /**
   Where nobody crashes and all who selected have committed, a wake is served twice or more, with a
   waiting row each time, exactly if one worker selected the run while another was serving that wake.
   */
  lemma ServedTwiceIff(run: seq<System>, steps: seq<Step>, wake: int)
    requires Execution(run, steps) && run[0].served == []
    requires forall w :: w in run[0].workers ==> run[0].workers[w].Idle?
    requires forall w :: w in run[|steps|].workers ==> run[|steps|].workers[w].Idle?
    requires forall i :: 0 <= i < |steps| ==> !steps[i].Crash?
    ensures multiset(run[|steps|].served)[wake] >= 2 <==>
            exists i :: 0 <= i < |steps| && Overlaps(run[i], steps[i], wake)
  {
    var r, s := ViewRun(run), ViewSteps(run, steps);
    forall i | 0 <= i < |s|
      ensures LookThenInsert.Enabled(r[i], s[i]) && r[i + 1] == LookThenInsert.After(r[i], s[i])
      ensures LookThenInsert.Overlaps(r[i], s[i], wake) <==> Overlaps(run[i], steps[i], wake)
    {
      AlwaysInv(run, steps, i);
      StepIsLookThenInsert(run[i], steps[i]);
      OverlapIsOverlap(run[i], steps[i], wake);
    }
    assert LookThenInsert.InFlight(r[0], wake) == {} && LookThenInsert.InFlight(r[|s|], wake) == {};
    LookThenInsert.SecondRowIff(r, s, wake);
    if i :| 0 <= i < |steps| && Overlaps(run[i], steps[i], wake) {
      assert LookThenInsert.Overlaps(r[i], s[i], wake);
    }
  }

  lemma OverlapIsOverlap(x: System, step: Step, wake: int)
    requires Enabled(x, step)
    ensures LookThenInsert.Overlaps(View(x), ViewStep(x, step), wake) <==> Overlaps(x, step, wake)
  {
    var flights := LookThenInsert.InFlight(View(x), wake);
    if v :| v in x.workers && !x.workers[v].Idle? && x.workers[v].wake == wake {
      assert v in flights;
    }
  }

  /** Two workers that select a due run before either commits write two waiting rows for one wake. */
  lemma TwoWaitingRows(x: System, v: WorkerId, w: WorkerId, now: int, next: int)
    returns (steps: seq<Step>, run: seq<System>)
    requires Inv(x) && v in x.workers && w in x.workers && v != w && x.workers[v].Idle? && x.workers[w].Idle?
    requires x.clock <= now && x.wakeAt <= now < next
    ensures Execution(run, steps) && run[0] == x
    ensures run[|steps|].served == x.served + [x.wakeAt, x.wakeAt]
  {
    steps := [Select(v, now), Select(w, now), Execute(v, now), Execute(w, now),
              Commit(v, now, next), Commit(w, now, next)];
    var x1 := After(x, steps[0]);
    var x2 := After(x1, steps[1]);
    var x3 := After(x2, steps[2]);
    var x4 := After(x3, steps[3]);
    var x5 := After(x4, steps[4]);
    run := [x, x1, x2, x3, x4, x5, After(x5, steps[5])];
  }
}
