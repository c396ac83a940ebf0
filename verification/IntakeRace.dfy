/**
 Form submissions that overlap: each transaction queries the deals of its contact and pipeline, decides,
 and writes later. The partial unique index looks at every committed row, and an insert waits while
 another open transaction holds an open deal for the same contact and pipeline.
 */
module IntakeRace {
  import opened Basics
  import opened FormIntake

  type WorkerId = nat

  datatype Plan = Reuse(deal: Id) | Reopen(deal: Id) | Create

  /** A transaction has decided, or it has written an open deal, or linked itself to one that was there. */
  datatype Tx =
    | Idle
    | Planned(contact: Id, pipeline: Id, policy: string, plan: Plan)
    | Opened(deal: Id, row: Deal)
    | Linked(deal: Id)

  datatype System = System(deals: map<Id, Deal>, txs: map<WorkerId, Tx>)

  datatype Step =
    | Query(w: WorkerId, contact: Id, pipeline: Id, policy: string, plan: Plan)
    | Write(w: WorkerId, deal: Id, row: Deal)
    | Commit(w: WorkerId)
    | Abort(w: WorkerId)
    | Close(deal: Id, status: string)   // a deal is won or lost

  /** What `resolve_deal` decides on the deals it sees. */
  ghost predicate Decides(deals: map<Id, Deal>, contact: Id, pipeline: Id, policy: string, plan: Plan) {
    var open, all := OpenDealsOf(deals, contact, pipeline), DealsOf(deals, contact, pipeline);
    if open != {} && policy == REUSE_OPEN_DEAL then plan.Reuse? && plan.deal in open
    else if open == {} && all != {} && policy == REOPEN_LATEST then
      plan.Reopen? && plan.deal in all && forall e :: e in all ==> deals[e].createdAt <= deals[plan.deal].createdAt
    else plan == Create
  }

  predicate SamePair(d: Deal, contact: Id, pipeline: Id) {
    d.contact == contact && d.pipeline == pipeline
  }

  /** Another transaction holds an open deal of the pair that it has not committed. */
  ghost predicate Held(x: System, w: WorkerId, contact: Id, pipeline: Id) {
    exists v :: v in x.txs && v != w && x.txs[v].Opened? && SamePair(x.txs[v].row, contact, pipeline)
  }

  ghost predicate UnusedId(x: System, d: Id) {
    d !in x.deals && forall v :: v in x.txs && x.txs[v].Opened? ==> x.txs[v].deal != d
  }

  /** The row that is written is the one the plan calls for. */
  ghost predicate Fits(x: System, tx: Tx, d: Id, row: Deal)
    requires tx.Planned?
  {
    match tx.plan
    case Reuse(deal) => d == deal
    case Reopen(deal) => d == deal && d in x.deals && SamePair(x.deals[d], tx.contact, tx.pipeline) &&
                         SamePair(row, tx.contact, tx.pipeline) && row.status == OPEN
    case Create => UnusedId(x, d) && SamePair(row, tx.contact, tx.pipeline) && row.status == OPEN
  }

  ghost predicate Enabled(x: System, step: Step) {
    match step
    case Query(w, c, p, policy, plan) => w in x.txs && x.txs[w].Idle? && Decides(x.deals, c, p, policy, plan)
    case Write(w, d, row) =>
      w in x.txs && x.txs[w].Planned? && Fits(x, x.txs[w], d, row) &&
      (x.txs[w].plan.Reuse? || !Held(x, w, x.txs[w].contact, x.txs[w].pipeline))
    case Commit(w) => w in x.txs && (x.txs[w].Opened? || x.txs[w].Linked?)
    case Abort(w) => w in x.txs
    case Close(d, status) =>
      d in x.deals && status != OPEN && forall v :: v in x.txs && x.txs[v].Opened? ==> x.txs[v].deal != d
  }

  /** The index refuses the write: an open deal of the pair is committed that is not the one written. */
  ghost predicate Trips(x: System, step: Step)
    requires Enabled(x, step)
  {
    step.Write? && !x.txs[step.w].plan.Reuse? &&
    OpenDealsOf(x.deals, x.txs[step.w].contact, x.txs[step.w].pipeline) - {step.deal} != {}
  }

  ghost function After(x: System, step: Step): System
    requires Enabled(x, step)
  {
    match step
    case Query(w, c, p, policy, plan) => x.(txs := x.txs[w := Planned(c, p, policy, plan)])
    case Write(w, d, row) =>
      x.(txs := x.txs[w := if Trips(x, step) then Idle else if x.txs[w].plan.Reuse? then Linked(d) else Opened(d, row)])
    case Commit(w) =>
      System(if x.txs[w].Opened? then x.deals[x.txs[w].deal := x.txs[w].row] else x.deals, x.txs[w := Idle])
    case Abort(w) => x.(txs := x.txs[w := Idle])
    case Close(d, status) => x.(deals := x.deals[d := x.deals[d].(status := status)])
  }

  ghost predicate Execution(run: seq<System>, steps: seq<Step>) {
    && |run| == |steps| + 1
    && forall i :: 0 <= i < |steps| ==> Enabled(run[i], steps[i]) && run[i + 1] == After(run[i], steps[i])
  }

  // ---------------------------------------------------------------- the index holds

  /** An open deal that is about to be committed is the only one of its pair. */
  ghost predicate OpenedAlone(x: System, w: WorkerId)
    requires w in x.txs && x.txs[w].Opened?
  {
    var d, row := x.txs[w].deal, x.txs[w].row;
    && row.status == OPEN && OpenDealsOf(x.deals, row.contact, row.pipeline) <= {d}
    && (d in x.deals ==> SamePair(x.deals[d], row.contact, row.pipeline))
    && !Held(x, w, row.contact, row.pipeline)
    && forall v :: v in x.txs && v != w && x.txs[v].Opened? ==> x.txs[v].deal != d
  }

  ghost predicate Inv(x: System) {
    && IndexHolds(x.deals)
    && forall w :: w in x.txs && x.txs[w].Opened? ==> OpenedAlone(x, w)
  }

  lemma CommitKeepsInv(x: System, w: WorkerId)
    requires Inv(x) && Enabled(x, Commit(w)) && x.txs[w].Opened?
    ensures Inv(After(x, Commit(w)))
  {
    var x', d, row := After(x, Commit(w)), x.txs[w].deal, x.txs[w].row;
    assert OpenedAlone(x, w);
    forall e | e in x'.deals && e != d && x'.deals[e].status == OPEN
      ensures !SamePair(x'.deals[e], row.contact, row.pipeline) {
      assert SamePair(x.deals[e], row.contact, row.pipeline) ==> e in OpenDealsOf(x.deals, row.contact, row.pipeline);
    }
    forall v | v in x'.txs && x'.txs[v].Opened? ensures OpenedAlone(x', v) {
      assert OpenedAlone(x, v) && !SamePair(x.txs[v].row, row.contact, row.pipeline);
    }
  }

  lemma WriteKeepsInv(x: System, w: WorkerId, d: Id, row: Deal)
    requires Inv(x) && Enabled(x, Write(w, d, row))
    ensures Inv(After(x, Write(w, d, row)))
  {
    var x' := After(x, Write(w, d, row));
    forall v | v in x'.txs && x'.txs[v].Opened? ensures OpenedAlone(x', v) {
      if v != w {
        assert OpenedAlone(x, v);
        assert x'.txs[w].Opened? ==> !SamePair(x.txs[v].row, row.contact, row.pipeline);
      }
    }
  }

  lemma StepKeepsInv(x: System, step: Step)
    requires Inv(x) && Enabled(x, step)
    ensures Inv(After(x, step))
  {
    match step
    case Write(w, d, row) => WriteKeepsInv(x, w, d, row);
    case Commit(w) =>
      if x.txs[w].Opened? {
        CommitKeepsInv(x, w);
      } else {
        assert forall v :: v in x.txs && x.txs[v].Opened? ==> OpenedAlone(x, v);
      }
    case _ =>
      var x' := After(x, step);
      forall v | v in x'.txs && x'.txs[v].Opened? ensures OpenedAlone(x', v) {
        assert OpenedAlone(x, v);
      }
  }

  /** Whatever overlaps, the committed deals never hold two open ones for a contact and pipeline. */
  lemma {:induction false} AlwaysOneOpenDeal(run: seq<System>, steps: seq<Step>, i: nat)
    requires Execution(run, steps) && Inv(run[0]) && i < |run|
    ensures Inv(run[i]) && forall c, p :: |OpenDealsOf(run[i].deals, c, p)| <= 1
  {
    if i > 0 {
      AlwaysOneOpenDeal(run, steps, i - 1);
      StepKeepsInv(run[i - 1], steps[i - 1]);
    }
    forall c, p ensures |OpenDealsOf(run[i].deals, c, p)| <= 1 {
      IndexMeansOne(run[i].deals, c, p);
    }
  }

  // ---------------------------------------------------------------- when a submission trips

  /** Step k commits the open deal e of the pair. */
  ghost predicate CommitsOpen(run: seq<System>, steps: seq<Step>, k: nat, e: Id, contact: Id, pipeline: Id)
    requires Execution(run, steps) && k < |steps|
  {
    steps[k].Commit? && run[k].txs[steps[k].w].Opened? && run[k].txs[steps[k].w].deal == e &&
    SamePair(run[k].txs[steps[k].w].row, contact, pipeline)
  }

  lemma {:induction false} SomebodyOpenedIt(
    run: seq<System>, steps: seq<Step>, i: nat, j: nat, e: Id, contact: Id, pipeline: Id)
    requires Execution(run, steps) && i <= j < |run|
    requires e !in OpenDealsOf(run[i].deals, contact, pipeline) && e in OpenDealsOf(run[j].deals, contact, pipeline)
    ensures exists k :: i <= k < j && CommitsOpen(run, steps, k, e, contact, pipeline)
    decreases j - i
  {
    if i < j {
      if e in OpenDealsOf(run[j - 1].deals, contact, pipeline) {
        SomebodyOpenedIt(run, steps, i, j - 1, e, contact, pipeline);
      } else {
        assert run[j] == After(run[j - 1], steps[j - 1]);
        assert CommitsOpen(run, steps, j - 1, e, contact, pipeline);
      }
    }
  }

  /** Worker w queries at step i, writes at step j, and does nothing in between. */
  ghost predicate Submits(run: seq<System>, steps: seq<Step>, i: nat, j: nat)
    requires Execution(run, steps)
  {
    && i < j < |steps| && steps[i].Query? && steps[j].Write? && steps[j].w == steps[i].w
    && forall k :: i < k <= j ==>
         steps[i].w in run[k].txs &&
         run[k].txs[steps[i].w] == Planned(steps[i].contact, steps[i].pipeline, steps[i].policy, steps[i].plan)
  }

  /** Deal e is open at the write, and was so at the query or was committed since. */
  ghost predicate InTheWay(run: seq<System>, steps: seq<Step>, i: nat, j: nat, e: Id)
    requires Execution(run, steps) && Submits(run, steps, i, j)
  {
    var (c, p) := (steps[i].contact, steps[i].pipeline);
    && e != steps[j].deal && e in OpenDealsOf(run[j].deals, c, p)
    && (e in OpenDealsOf(run[i].deals, c, p) || exists k :: i < k < j && CommitsOpen(run, steps, k, e, c, p))
  }

  /**
   A submission trips the index exactly if it opens a deal while another deal of the contact and
   pipeline is open: one it saw when it queried, or one that somebody committed since.
   */
  lemma TripsWhen(run: seq<System>, steps: seq<Step>, i: nat, j: nat)
    requires Execution(run, steps) && Submits(run, steps, i, j)
    ensures Trips(run[j], steps[j]) <==> !steps[i].plan.Reuse? && exists e :: InTheWay(run, steps, i, j, e)
  {
    var c, p := steps[i].contact, steps[i].pipeline;
    assert run[j].txs[steps[j].w] == Planned(c, p, steps[i].policy, steps[i].plan);
    if Trips(run[j], steps[j]) {
      var e :| e in OpenDealsOf(run[j].deals, c, p) - {steps[j].deal};
      if e !in OpenDealsOf(run[i].deals, c, p) {
        SomebodyOpenedIt(run, steps, i, j, e, c, p);
        var k :| i <= k < j && CommitsOpen(run, steps, k, e, c, p);
        assert i < k;
      }
      assert InTheWay(run, steps, i, j, e);
    } else if e :| InTheWay(run, steps, i, j, e) {
      assert e in OpenDealsOf(run[j].deals, c, p) - {steps[j].deal};
    }
  }

  /**
   Under reuse_open_deal a submission trips the index exactly if it found no open deal, and between
   its query and its write another transaction committed one that is still open: overlapping, it is
   not safe; undisturbed, it is.
   */
  lemma ReuseTripsIff(run: seq<System>, steps: seq<Step>, i: nat, j: nat)
    requires Execution(run, steps) && Submits(run, steps, i, j) && steps[i].policy == REUSE_OPEN_DEAL
    ensures var (c, p) := (steps[i].contact, steps[i].pipeline);
            Trips(run[j], steps[j]) <==>
              OpenDealsOf(run[i].deals, c, p) == {} &&
              exists k, e :: i < k < j && CommitsOpen(run, steps, k, e, c, p) && e in OpenDealsOf(run[j].deals, c, p)
  {
    var c, p := steps[i].contact, steps[i].pipeline;
    TripsWhen(run, steps, i, j);
    assert Decides(run[i].deals, c, p, REUSE_OPEN_DEAL, steps[i].plan);
    assert Fits(run[j], run[j].txs[steps[i].w], steps[j].deal, steps[j].row);
    if Trips(run[j], steps[j]) {
      var e :| InTheWay(run, steps, i, j, e);
    } else if k, e :| i < k < j && CommitsOpen(run, steps, k, e, c, p) && e in OpenDealsOf(run[j].deals, c, p) {
      assert OpenDealsOf(run[i].deals, c, p) == {} ==> InTheWay(run, steps, i, j, e);
    }
  }

  /** Two submissions of one contact that both query before either writes: the second trips. */
  lemma OverlapTrips(x: System, v: WorkerId, w: WorkerId, a: Id, b: Id, row: Deal)
    returns (steps: seq<Step>, run: seq<System>)
    requires v in x.txs && w in x.txs && v != w && x.txs[v].Idle? && x.txs[w].Idle?
    requires forall u :: u in x.txs ==> !x.txs[u].Opened?
    requires OpenDealsOf(x.deals, row.contact, row.pipeline) == {} && row.status == OPEN
    requires a !in x.deals && b !in x.deals && a != b
    ensures |steps| == 5 && Execution(run, steps) && run[0] == x
    ensures steps[0] == Query(v, row.contact, row.pipeline, REUSE_OPEN_DEAL, Create)
    ensures steps[1] == Query(w, row.contact, row.pipeline, REUSE_OPEN_DEAL, Create)
    ensures steps[4] == Write(w, b, row) && Trips(run[4], steps[4])
  {
    var c, p := row.contact, row.pipeline;
    var s0, s1 := Query(v, c, p, REUSE_OPEN_DEAL, Create), Query(w, c, p, REUSE_OPEN_DEAL, Create);
    var x1 := After(x, s0);
    var x2 := After(x1, s1);
    var x3 := After(x2, Write(v, a, row));
    assert x3.txs[v] == Opened(a, row);
    var x4 := After(x3, Commit(v));
    assert a in OpenDealsOf(x4.deals, c, p) && x4.txs[w] == Planned(c, p, REUSE_OPEN_DEAL, Create);
    assert Enabled(x4, Write(w, b, row));
    steps := [s0, s1, Write(v, a, row), Commit(v), Write(w, b, row)];
    run := [x, x1, x2, x3, x4, After(x4, Write(w, b, row))];
  }

  /** Undisturbed, query, write and commit do to the deals what `ResolveDeal` does. */
  lemma UndisturbedResolves(x: System, w: WorkerId, contact: Id, pipeline: Id, entryStage: Id, policy: string, now: int,
                            r: Option<(Id, Action)>, after: map<Id, Deal>)
    returns (plan: Plan, write: Step)
    requires w in x.txs && x.txs[w].Idle? && forall u :: u in x.txs ==> !x.txs[u].Opened?
    requires IndexHolds(x.deals) && ResolveStep(x.deals, contact, pipeline, entryStage, policy, now, r, after)
    ensures Enabled(x, Query(w, contact, pipeline, policy, plan))
    ensures var x1 := After(x, Query(w, contact, pipeline, policy, plan));
            write.Write? && write.w == w && (r.Some? ==> Enabled(x1, write) && !Trips(x1, write))
    ensures var x1 := After(x, Query(w, contact, pipeline, policy, plan));
            r.Some? ==> Enabled(After(x1, write), Commit(w)) && After(After(x1, write), Commit(w)).deals == after
    ensures var x1 := After(x, Query(w, contact, pipeline, policy, plan));
            r.None? ==> forall d, row :: Enabled(x1, Write(w, d, row)) ==> Trips(x1, Write(w, d, row))
  {
    if r.Some? {
      var (d, action) := r.value;
      plan := if action == Reused then Reuse(d) else if action == Reopened then Reopen(d) else Create;
      write := Write(w, d, after[d]);
      if action != Reused {
        assert d in OpenDealsOf(after, contact, pipeline);
      } else {
        var e :| e in OpenDealsOf(x.deals, contact, pipeline);
        assert OpenDealsOf(x.deals, contact, pipeline) == {d};
      }
    } else {
      plan, write := Create, Write(w, 0, Deal(0, 0, 0, "", 0, 0, None, None));
      var e :| e in OpenDealsOf(x.deals, contact, pipeline);
    }
  }
}
