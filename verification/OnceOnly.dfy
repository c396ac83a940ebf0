/**
 The insert-if-absent protocol three handlers share: look for the row of a key, insert it inside a
 savepoint, and fall back to the existing row when the unique constraint refuses the insert. The
 database lets an insert of a key wait while another open transaction holds that key.

 Keys are calls by (workspace, provider, provider call id), call.ended events by call, transcripts by
 call. Whatever else is written inside the savepoint (the interaction beside a transcript) is `side`.
 */
module OnceOnly {
  import opened Basics

  type WorkerId = nat

  datatype Pc<K> = Idle | Looking(k: K) | Inserting(k: K) | Open(k: K, inserted: bool)

  /** `served` are the keys some handler has committed for. */
  datatype System<K(==)> = System(rows: seq<K>, side: seq<K>, workers: map<WorkerId, Pc<K>>, served: set<K>)

  datatype Step<K> = Start(w: WorkerId, k: K) | Look(w: WorkerId) | Insert(w: WorkerId)
    | Commit(w: WorkerId) | Abort(w: WorkerId)

  ghost predicate Enabled<K>(x: System<K>, step: Step<K>) {
    && step.w in x.workers
    && var pc := x.workers[step.w];
       match step
       case Start(_, _) => pc.Idle?
       case Look(_) => pc.Looking?
       case Insert(w) => pc.Inserting? && forall v :: v in x.workers && v != w ==> x.workers[v] != Open(pc.k, true)
       case Commit(_) => pc.Open?
       case Abort(_) => true
  }

  ghost function After<K>(x: System<K>, step: Step<K>): System<K>
    requires Enabled(x, step)
  {
    var pc := x.workers[step.w];
    match step
    case Start(w, k) => x.(workers := x.workers[w := Looking(k)])
    case Look(w) => x.(workers := x.workers[w := if pc.k in x.rows then Open(pc.k, false) else Inserting(pc.k)])
    case Insert(w) => x.(workers := x.workers[w := Open(pc.k, pc.k !in x.rows)])
    case Commit(w) =>
      var added := if pc.inserted then [pc.k] else [];
      System(x.rows + added, x.side + added, x.workers[w := Idle], x.served + {pc.k})
    case Abort(w) => x.(workers := x.workers[w := Idle])
  }

  ghost predicate Inv<K>(x: System<K>) {
    && NoDups(x.rows)
    && x.side == x.rows
    && (forall k :: k in x.served ==> k in x.rows)
    && (forall w :: w in x.workers && x.workers[w].Open? ==> (x.workers[w].inserted <==> x.workers[w].k !in x.rows))
    && (forall v, w :: v in x.workers && w in x.workers && v != w && x.workers[v].Open? && x.workers[v].inserted ==>
                         x.workers[v] != x.workers[w])
  }

  lemma StepKeepsInv<K>(x: System<K>, step: Step<K>)
    requires Inv(x) && Enabled(x, step)
    ensures Inv(After(x, step))
    ensures x.rows <= After(x, step).rows
  {
    var x' := After(x, step);
    if step.Commit? {
      var pc := x.workers[step.w];
      assert forall k :: k in x'.rows <==> k in x.rows || (pc.inserted && k == pc.k);
      forall w | w in x'.workers && x'.workers[w].Open?
        ensures x'.workers[w].inserted <==> x'.workers[w].k !in x'.rows
      {
        assert x'.workers[w] == x.workers[w];
      }
    }
  }

  ghost predicate Execution<K>(run: seq<System<K>>, steps: seq<Step<K>>) {
    && |run| == |steps| + 1
    && Inv(run[0])
    && forall i :: 0 <= i < |steps| ==> Enabled(run[i], steps[i]) && run[i + 1] == After(run[i], steps[i])
  }

  lemma {:induction false} Reachable<K>(run: seq<System<K>>, steps: seq<Step<K>>, i: nat)
    requires Execution(run, steps) && i < |run|
    ensures Inv(run[i])
  {
    if i > 0 {
      Reachable(run, steps, i - 1);
      StepKeepsInv(run[i - 1], steps[i - 1]);
    }
  }

  lemma {:induction false} CountNoDups<K>(s: seq<K>, k: K)
    requires NoDups(s)
    ensures multiset(s)[k] == if k in s then 1 else 0
  {
    if s != [] {
      var init, last := s[..|s| - 1], s[|s| - 1];
      assert s == init + [last];
      CountNoDups(init, k);
      assert forall i :: 0 <= i < |init| ==> init[i] == s[i] && s[i] != last;
    }
  }

  /**
   Once only, under every interleaving of checks, inserts, commits and rollbacks: a key never has two
   rows, it has exactly one as soon as any handler has committed for it, and the rows written beside
   it are as many.
   */
  lemma OnceOnlyAlways<K>(run: seq<System<K>>, steps: seq<Step<K>>, i: nat, k: K)
    requires Execution(run, steps) && i < |run|
    ensures multiset(run[i].rows)[k] <= 1
    ensures k in run[i].served ==> multiset(run[i].rows)[k] == 1
    ensures multiset(run[i].side)[k] == multiset(run[i].rows)[k]
  {
    Reachable(run, steps, i);
    CountNoDups(run[i].rows, k);
  }
}
