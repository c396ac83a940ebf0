/**
 The check-then-insert protocol without a unique key behind it: a handler looks for the row of a key,
 and writes and commits one if it found none. What others have not committed yet is invisible to it.

 Keys are the provider ids of inbound messages, and the email addresses and phone numbers by which
 contacts are looked up: the tables have no constraint on either.
 */
module LookThenInsert {
  type WorkerId = nat

  /** Looked in vain, and written but not yet committed. */
  datatype Pc<K> = Idle | Missed(k: K) | Written(k: K)

  /** `rows` are the keys of the committed rows. */
  datatype System<K(==)> = System(rows: seq<K>, workers: map<WorkerId, Pc<K>>)

  datatype Step<K> = Look(w: WorkerId, k: K) | Write(w: WorkerId) | Commit(w: WorkerId) | Abort(w: WorkerId)

  predicate Enabled<K>(x: System<K>, step: Step<K>) {
    && step.w in x.workers
    && match step
       case Look(w, _) => x.workers[w].Idle?
       case Write(w) => x.workers[w].Missed?
       case Commit(w) => x.workers[w].Written?
       case Abort(_) => true
  }

  function After<K(==)>(x: System<K>, step: Step<K>): System<K>
    requires Enabled(x, step)
  {
    match step
    case Look(w, k) => if k in x.rows then x else x.(workers := x.workers[w := Missed(k)])
    case Write(w) => x.(workers := x.workers[w := Written(x.workers[w].k)])
    case Commit(w) => System(x.rows + [x.workers[w].k], x.workers[w := Idle])
    case Abort(w) => x.(workers := x.workers[w := Idle])
  }

  ghost predicate Execution<K>(run: seq<System<K>>, steps: seq<Step<K>>) {
    && |run| == |steps| + 1
    && forall i :: 0 <= i < |steps| ==> Enabled(run[i], steps[i]) && run[i + 1] == After(run[i], steps[i])
  }

  // ---------------------------------------------------------------- rows now and rows to come

  function Count<K(==)>(x: System<K>, k: K): nat {
    multiset(x.rows)[k]
  }

  /** Between a look that found nothing and its commit. */
  predicate Between<K(==)>(pc: Pc<K>, k: K) {
    pc == Missed(k) || pc == Written(k)
  }

  function InFlight<K(==)>(x: System<K>, k: K): set<WorkerId> {
    set w | w in x.workers && Between(x.workers[w], k)
  }

  /** The rows the key has, and those it gets if everybody in flight commits. */
  function Due<K(==)>(x: System<K>, k: K): nat {
    Count(x, k) + |InFlight(x, k)|
  }

  /** A delivery of the key looks while another one is between its look and its commit. */
  ghost predicate Overlaps<K>(x: System<K>, step: Step<K>, k: K) {
    step.Look? && step.k == k && InFlight(x, k) != {}
  }

  ghost predicate GivesUp<K>(x: System<K>, step: Step<K>, k: K)
    requires Enabled(x, step)
  {
    step.Abort? && step.w in InFlight(x, k)
  }

  /** A worker's place changes; others' do not. */
  lemma PlaceChanges<K>(x: System<K>, x': System<K>, w: WorkerId, k: K)
    requires w in x.workers && w in x'.workers && x'.workers == x.workers[w := x'.workers[w]]
    ensures |InFlight(x', k)| - |InFlight(x, k)| ==
              (if Between(x'.workers[w], k) then 1 else 0) - (if Between(x.workers[w], k) then 1 else 0)
  {
    var others := InFlight(x, k) - {w};
    assert InFlight(x, k) == if Between(x.workers[w], k) then others + {w} else others;
    assert InFlight(x', k) == if Between(x'.workers[w], k) then others + {w} else others;
  }

  /** What one step does to the rows due. */
  lemma StepAndDue<K>(x: System<K>, step: Step<K>, k: K)
    requires Enabled(x, step)
    ensures var x' := After(x, step);
            && x.rows <= x'.rows
            && Due(x', k) == Due(x, k) + (if step.Look? && step.k == k && k !in x.rows then 1 else 0)
                                       - (if GivesUp(x, step, k) then 1 else 0)
  {
    PlaceChanges(x, After(x, step), step.w, k);
  }

  lemma {:induction false} RowsAreKept<K>(run: seq<System<K>>, steps: seq<Step<K>>, i: nat, j: nat, k: K)
    requires Execution(run, steps) && i <= j < |run|
    ensures run[i].rows <= run[j].rows && Count(run[i], k) <= Count(run[j], k)
    decreases j - i
  {
    if i < j {
      RowsAreKept(run, steps, i, j - 1, k);
      StepAndDue(run[j - 1], steps[j - 1], k);
      var rows, rows' := run[j - 1].rows, run[j].rows;
      assert rows' == rows + rows'[|rows|..];
    }
  }

  ghost predicate NeverOverlaps<K>(run: seq<System<K>>, steps: seq<Step<K>>, k: K, n: nat)
    requires Execution(run, steps) && n <= |steps|
  {
    forall i :: 0 <= i < n ==> !Overlaps(run[i], steps[i], k)
  }

  /** Without an overlap a key never has two rows, whoever gives up. */
  lemma {:induction false} NoOverlapKeepsOne<K>(run: seq<System<K>>, steps: seq<Step<K>>, k: K, n: nat)
    requires Execution(run, steps) && n <= |steps| && NeverOverlaps(run, steps, k, n)
    requires Due(run[0], k) <= 1
    ensures Due(run[n], k) <= 1 && Count(run[n], k) <= 1
  {
    if n > 0 {
      NoOverlapKeepsOne(run, steps, k, n - 1);
      StepAndDue(run[n - 1], steps[n - 1], k);
      assert !Overlaps(run[n - 1], steps[n - 1], k);
    }
  }

  /** If nobody gives up, an overlap makes two rows due for good. */
  lemma {:induction false} OverlapIsDue<K>(run: seq<System<K>>, steps: seq<Step<K>>, k: K, i: nat, n: nat)
    requires Execution(run, steps) && i < n <= |steps| && Overlaps(run[i], steps[i], k)
    requires forall j :: 0 <= j < |steps| ==> !GivesUp(run[j], steps[j], k)
    ensures Due(run[n], k) >= 2
    decreases n
  {
    StepAndDue(run[n - 1], steps[n - 1], k);
    assert !GivesUp(run[n - 1], steps[n - 1], k);
    if i < n - 1 {
      OverlapIsDue(run, steps, k, i, n - 1);
    } else {
      assert |InFlight(run[i], k)| > 0;
    }
  }

  /**
   Among the runs in which every delivery of a key that looked has committed in the end, the key has
   two rows or more exactly if one delivery looked while another was between its look and its commit.
   */
  lemma SecondRowIff<K>(run: seq<System<K>>, steps: seq<Step<K>>, k: K)
    requires Execution(run, steps)
    requires Count(run[0], k) <= 1 && InFlight(run[0], k) == {} && InFlight(run[|steps|], k) == {}
    requires forall j :: 0 <= j < |steps| ==> !GivesUp(run[j], steps[j], k)
    ensures Count(run[|steps|], k) >= 2 <==> exists i :: 0 <= i < |steps| && Overlaps(run[i], steps[i], k)
  {
    if i :| 0 <= i < |steps| && Overlaps(run[i], steps[i], k) {
      OverlapIsDue(run, steps, k, i, |steps|);
    } else {
      NoOverlapKeepsOne(run, steps, k, |steps|);
    }
  }

  // ---------------------------------------------------------------- what the deliveries under way can come to

  /** One delivery in flight carries on to its commit. */
  lemma Finish<K>(x: System<K>, w: WorkerId, k: K) returns (steps: seq<Step<K>>, run: seq<System<K>>)
    requires w in InFlight(x, k)
    ensures Execution(run, steps) && run[0] == x && NoLooks(steps)
    ensures run[|steps|] == System(x.rows + [k], x.workers[w := Idle])
  {
    if x.workers[w].Missed? {
      var x1 := After(x, Write(w));
      steps, run := [Write(w), Commit(w)], [x, x1, After(x1, Commit(w))];
    } else {
      steps, run := [Commit(w)], [x, After(x, Commit(w))];
    }
  }

  ghost predicate NoLooks<K>(steps: seq<Step<K>>) {
    forall i :: 0 <= i < |steps| ==> !steps[i].Look?
  }

  lemma Append<K>(run: seq<System<K>>, steps: seq<Step<K>>, run': seq<System<K>>, steps': seq<Step<K>>)
    requires Execution(run, steps) && Execution(run', steps') && run[|steps|] == run'[0]
    ensures Execution(run + run'[1..], steps + steps')
    ensures (run + run'[1..])[|steps| + |steps'|] == run'[|steps'|]
  {
    var all, allSteps := run + run'[1..], steps + steps';
    forall i | 0 <= i < |allSteps| ensures Enabled(all[i], allSteps[i]) && all[i + 1] == After(all[i], allSteps[i]) {
      if i < |steps| {
        assert all[i] == run[i] && all[i + 1] == run[i + 1];
      } else {
        assert all[i] == run'[i - |steps|] && all[i + 1] == run'[i - |steps| + 1];
      }
    }
  }

  /** Everybody in flight carries on. */
  lemma {:induction false} FinishAll<K>(x: System<K>, k: K) returns (steps: seq<Step<K>>, run: seq<System<K>>)
    ensures Execution(run, steps) && run[0] == x && NoLooks(steps)
    ensures Count(run[|steps|], k) == Due(x, k)
    decreases |InFlight(x, k)|
  {
    if InFlight(x, k) == {} {
      steps, run := [], [x];
    } else {
      var w :| w in InFlight(x, k);
      var steps1, run1 := Finish(x, w, k);
      var x' := run1[|steps1|];
      assert InFlight(x, k) == InFlight(x', k) + {w} && w !in InFlight(x', k);
      var steps2, run2 := FinishAll(x', k);
      Append(run1, steps1, run2, steps2);
      steps, run := steps1 + steps2, run1 + run2[1..];
    }
  }

  /** However the deliveries now under way go on, the key keeps at most one row. */
  ghost predicate KeepsOne<K(!new)>(x: System<K>, k: K) {
    forall run: seq<System<K>>, steps: seq<Step<K>>, i: nat ::
      Execution(run, steps) && run[0] == x && NoLooks(steps) && i < |run| ==> Count(run[i], k) <= 1
  }

  /** In every interleaving exactly if at most one row is there or in flight. */
  lemma KeepsOneIff<K(!new)>(x: System<K>, k: K)
    ensures KeepsOne(x, k) <==> Due(x, k) <= 1
  {
    if Due(x, k) <= 1 {
      forall run: seq<System<K>>, steps: seq<Step<K>>, i: nat
        | Execution(run, steps) && run[0] == x && NoLooks(steps) && i < |run|
        ensures Count(run[i], k) <= 1
      {
        NoOverlapKeepsOne(run, steps, k, i);
      }
    } else {
      var steps, run := FinishAll(x, k);
      assert Count(run[|steps|], k) > 1;
    }
  }

  // ---------------------------------------------------------------- two rows

  function TwoRowSteps<K>(k: K): seq<Step<K>> {
    [Look(0, k), Look(1, k), Write(0), Commit(0), Write(1), Commit(1)]
  }

  function TwoRowRun<K>(k: K): seq<System<K>> {
    [System([], map[0 := Idle, 1 := Idle]),
     System([], map[0 := Missed(k), 1 := Idle]),
     System([], map[0 := Missed(k), 1 := Missed(k)]),
     System([], map[0 := Written(k), 1 := Missed(k)]),
     System([k], map[0 := Idle, 1 := Missed(k)]),
     System([k], map[0 := Idle, 1 := Written(k)]),
     System([k, k], map[0 := Idle, 1 := Idle])]
  }

  /** Two deliveries look, then both commit. */
  lemma TwoRowsHappen<K>(k: K)
    ensures Execution(TwoRowRun(k), TwoRowSteps(k)) && Count(TwoRowRun(k)[6], k) == 2
  {
    var run, steps := TwoRowRun(k), TwoRowSteps(k);
    forall i | 0 <= i < |steps| ensures Enabled(run[i], steps[i]) && run[i + 1] == After(run[i], steps[i]) {
      if i == 0 {
      } else if i == 1 {
      } else if i == 2 {
      } else if i == 3 {
      } else if i == 4 {
      } else {
      }
    }
  }
}
