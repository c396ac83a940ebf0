/**
 Lifecycle callbacks that overlap on one call. Each loads the call without a lock, writes the columns it
 changed at its commit, and decides on the call.ended event by the recording URL it knows: its own, or
 the one it read. `CallLifecycle` has the callbacks one after the other, `OnceOnly` the racing inserts.
 */
module CallRace {
  import opened Basics
  import opened CallLifecycle

  type HandlerId = nat

  /** A handler with the call as it read it; `ends` says whether its callback ends the call. */
  datatype Flight = Flight(seen: Call, cb: Callback, ends: bool)

  /** `ended` says whether the call has its call.ended event; the unique key keeps a second one out. */
  datatype System = System(row: Call, ended: bool, flights: map<HandlerId, Flight>)

  datatype Step = Read(h: HandlerId, cb: Callback) | Commit(h: HandlerId) | Abort(h: HandlerId)

  type ParseInt = string -> Option<int>

  function Merged(stored: Call, seen: Call, wanted: Call): Call {
    stored.(status := Column(stored.status, seen.status, wanted.status),
            duration := Column(stored.duration, seen.duration, wanted.duration),
            recordingUrl := Column(stored.recordingUrl, seen.recordingUrl, wanted.recordingUrl))
  }

  /** Having read r and wanting w, a commit writes the columns that differ and leaves the rest of the stored row. */
  lemma MergeMeans(db: Call, r: Call, w: Call)
    ensures var row := Merged(db, r, w);
            && row.status == (if w.status == r.status then db.status else w.status)
            && row.duration == (if w.duration == r.duration then db.duration else w.duration)
            && row.recordingUrl == (if w.recordingUrl == r.recordingUrl then db.recordingUrl else w.recordingUrl)
            && row == db.(status := row.status, duration := row.duration, recordingUrl := row.recordingUrl)
  {
  }

  predicate Ends(cb: Callback) {
    LifecycleEventType(cb.status) == Ended
  }

  /** The callback ends the call, and a recording URL is known to its handler. */
  predicate Enqueues(f: Flight) {
    f.ends && (f.cb.recordingUrl.Some? || f.seen.recordingUrl.Some?)
  }

  ghost predicate Enabled(x: System, step: Step) {
    if step.Read? then step.h !in x.flights else step.h in x.flights
  }

  function After(x: System, step: Step, parse: ParseInt): System
    requires !step.Read? ==> step.h in x.flights
  {
    match step
    case Read(h, cb) => x.(flights := x.flights[h := Flight(x.row, cb, Ends(cb))])
    case Commit(h) =>
      var f := x.flights[h];
      System(Merged(x.row, f.seen, UpdatedCall(f.seen, f.cb, parse)), x.ended || Enqueues(f), x.flights - {h})
    case Abort(h) => x.(flights := x.flights - {h})
  }

  ghost predicate Execution(run: seq<System>, steps: seq<Step>, parse: ParseInt) {
    && |run| == |steps| + 1
    && run[0].flights == map[]
    && forall i :: 0 <= i < |steps| ==> Enabled(run[i], steps[i]) && run[i + 1] == After(run[i], steps[i], parse)
  }

  /** With nothing in between, a read and a commit are the callback of `CallLifecycle`. */
  lemma UndisturbedIsCallback(d: Desk, id: CallId, x: System, h: HandlerId, cb: Callback, parse: ParseInt)
    requires id in d.calls && x.row == d.calls[id] && (x.ended <==> id in d.endedEvents) && h !in x.flights
    ensures var after, x' := AfterCallback(d, id, cb, None, parse),
              After(After(x, Read(h, cb), parse), Commit(h), parse);
            x'.row == after.calls[id] && (x'.ended <==> id in after.endedEvents)
  {
  }

  // ---------------------------------------------------------------- the event

  ghost predicate EnqueuesAt(run: seq<System>, steps: seq<Step>, parse: ParseInt, k: nat)
    requires Execution(run, steps, parse) && k < |steps|
  {
    steps[k].Commit? && Enabled(run[k], steps[k]) && Enqueues(run[k].flights[steps[k].h])
  }

  /** The event is there exactly if some handler that ended the call knew a recording URL. */
  lemma {:induction false} EventIff(run: seq<System>, steps: seq<Step>, parse: ParseInt, n: nat)
    requires Execution(run, steps, parse) && !run[0].ended && n <= |steps|
    ensures run[n].ended <==> exists k :: 0 <= k < n && EnqueuesAt(run, steps, parse, k)
  {
    if n > 0 {
      EventIff(run, steps, parse, n - 1);
      assert Enabled(run[n - 1], steps[n - 1]);
      assert run[n].ended <==> run[n - 1].ended || EnqueuesAt(run, steps, parse, n - 1);
    }
  }

  // ---------------------------------------------------------------- the recording

  /** Step k commits a recording URL. */
  ghost predicate SetsUrlAt(run: seq<System>, steps: seq<Step>, parse: ParseInt, k: nat)
    requires Execution(run, steps, parse) && k < |steps|
  {
    steps[k].Commit? && Enabled(run[k], steps[k]) && run[k].flights[steps[k].h].cb.recordingUrl.Some?
  }

  lemma UrlStep(x: System, step: Step, parse: ParseInt)
    requires Enabled(x, step)
    ensures x.row.recordingUrl.Some? ==> After(x, step, parse).row.recordingUrl.Some?
    ensures x.row.recordingUrl.None? && After(x, step, parse).row.recordingUrl.Some? ==>
              step.Commit? && x.flights[step.h].cb.recordingUrl.Some?
    ensures step.Commit? && x.flights[step.h].cb.recordingUrl.Some? && x.flights[step.h].seen.recordingUrl.None? ==>
              After(x, step, parse).row.recordingUrl.Some?
  {
  }

  lemma {:induction false} UrlStays(run: seq<System>, steps: seq<Step>, parse: ParseInt, i: nat, j: nat)
    requires Execution(run, steps, parse) && i <= j < |run| && run[i].row.recordingUrl.Some?
    ensures run[j].row.recordingUrl.Some?
    decreases j - i
  {
    if i < j {
      UrlStays(run, steps, parse, i, j - 1);
      UrlStep(run[j - 1], steps[j - 1], parse);
    }
  }

  lemma {:induction false} SomebodySetUrl(run: seq<System>, steps: seq<Step>, parse: ParseInt, i: nat, j: nat)
    requires Execution(run, steps, parse) && i <= j < |run|
    requires run[i].row.recordingUrl.None? && run[j].row.recordingUrl.Some?
    ensures exists k :: i <= k < j && SetsUrlAt(run, steps, parse, k)
    decreases j - i
  {
    UrlStep(run[j - 1], steps[j - 1], parse);
    if run[j - 1].row.recordingUrl.Some? {
      SomebodySetUrl(run, steps, parse, i, j - 1);
    } else {
      assert SetsUrlAt(run, steps, parse, j - 1);
    }
  }

  /** What a handler read without a URL, it read before anybody had committed one. */
  lemma {:induction false} FlightWasRead(run: seq<System>, steps: seq<Step>, parse: ParseInt, j: nat, h: HandlerId)
    returns (i: nat)
    requires Execution(run, steps, parse) && j < |run| && h in run[j].flights
    ensures i < j && steps[i].Read? && steps[i].h == h
    ensures forall k :: i < k <= j ==>
              h in run[k].flights && run[k].flights[h] == Flight(run[i].row, steps[i].cb, Ends(steps[i].cb))
  {
    assert run[j] == After(run[j - 1], steps[j - 1], parse);
    if steps[j - 1].Read? && steps[j - 1].h == h {
      i := j - 1;
    } else {
      i := FlightWasRead(run, steps, parse, j - 1, h);
    }
  }

  /** Step i reads for the commit at step j. */
  ghost predicate Spans(run: seq<System>, steps: seq<Step>, parse: ParseInt, i: nat, j: nat)
    requires Execution(run, steps, parse)
  {
    && i < j < |steps| && steps[i].Read? && steps[j].Commit? && steps[i].h == steps[j].h
    && forall k :: i < k <= j ==>
         steps[i].h in run[k].flights &&
         run[k].flights[steps[i].h] == Flight(run[i].row, steps[i].cb, Ends(steps[i].cb))
  }

  /** A callback that ends the call is committed, and the call has a recording URL then. */
  ghost predicate CompletesAt(run: seq<System>, steps: seq<Step>, parse: ParseInt, j: nat)
    requires Execution(run, steps, parse) && j < |steps|
  {
    && steps[j].Commit? && Enabled(run[j], steps[j])
    && run[j].flights[steps[j].h].ends && run[j + 1].row.recordingUrl.Some?
  }

  /** The ending callback brings no URL, and read the call before somebody else committed the first one. */
  ghost predicate EndOverlapsUrl(run: seq<System>, steps: seq<Step>, parse: ParseInt, i: nat, j: nat)
    requires Execution(run, steps, parse)
  {
    && Spans(run, steps, parse, i, j)
    && Ends(steps[i].cb) && steps[i].cb.recordingUrl.None?
    && run[i].row.recordingUrl.None? && exists k :: i < k < j && SetsUrlAt(run, steps, parse, k)
  }

  /** A completing commit enqueues nothing exactly if it overlaps with the first recording in this way. */
  lemma MissIff(run: seq<System>, steps: seq<Step>, parse: ParseInt, j: nat)
    requires Execution(run, steps, parse) && j < |steps|
    ensures CompletesAt(run, steps, parse, j) && !EnqueuesAt(run, steps, parse, j) <==>
            exists i: nat :: EndOverlapsUrl(run, steps, parse, i, j)
  {
    if CompletesAt(run, steps, parse, j) && !EnqueuesAt(run, steps, parse, j) {
      var i := FlightWasRead(run, steps, parse, j, steps[j].h);
      UrlStep(run[j], steps[j], parse);
      SomebodySetUrl(run, steps, parse, i, j);
      var k :| i <= k < j && SetsUrlAt(run, steps, parse, k);
      assert i < k;
      assert EndOverlapsUrl(run, steps, parse, i, j);
    } else if i: nat :| EndOverlapsUrl(run, steps, parse, i, j) {
      var k :| i < k < j && SetsUrlAt(run, steps, parse, k);
      SetUrlIsThere(run, steps, parse, k);
      UrlStays(run, steps, parse, k + 1, j + 1);
    }
  }

  /** A handler that brings a URL leaves one, and one that read a URL leaves that or another. */
  lemma SetUrlIsThere(run: seq<System>, steps: seq<Step>, parse: ParseInt, k: nat)
    requires Execution(run, steps, parse) && k < |steps| && SetsUrlAt(run, steps, parse, k)
    ensures run[k + 1].row.recordingUrl.Some?
  {
    var i := FlightWasRead(run, steps, parse, k, steps[k].h);
    if run[i].row.recordingUrl.Some? {
      UrlStays(run, steps, parse, i, k + 1);
    }
  }

  /**
   With overlapping callbacks: a call that was ended while it had a recording URL is left without its
   event exactly if every callback that ended it so brought no URL and read the call before the first
   one was committed.
   */
  lemma CompletedWithoutEventIff(run: seq<System>, steps: seq<Step>, parse: ParseInt)
    requires Execution(run, steps, parse) && !run[0].ended
    requires exists j :: 0 <= j < |steps| && CompletesAt(run, steps, parse, j)
    ensures !run[|steps|].ended <==>
            forall j :: 0 <= j < |steps| && CompletesAt(run, steps, parse, j) ==>
              exists i: nat :: EndOverlapsUrl(run, steps, parse, i, j)
  {
    EventIff(run, steps, parse, |steps|);
    forall j | 0 <= j < |steps|
      ensures CompletesAt(run, steps, parse, j) && !EnqueuesAt(run, steps, parse, j) <==>
              exists i: nat :: EndOverlapsUrl(run, steps, parse, i, j)
    {
      MissIff(run, steps, parse, j);
    }
    forall k | 0 <= k < |steps| && EnqueuesAt(run, steps, parse, k) ensures CompletesAt(run, steps, parse, k) {
      EnqueuedIsCompleted(run, steps, parse, k);
    }
  }

  lemma EnqueuedIsCompleted(run: seq<System>, steps: seq<Step>, parse: ParseInt, k: nat)
    requires Execution(run, steps, parse) && k < |steps| && EnqueuesAt(run, steps, parse, k)
    ensures CompletesAt(run, steps, parse, k)
  {
    var i := FlightWasRead(run, steps, parse, k, steps[k].h);
    if run[k].flights[steps[k].h].cb.recordingUrl.Some? {
      SetUrlIsThere(run, steps, parse, k);
    } else {
      UrlStays(run, steps, parse, i, k + 1);
    }
  }

  /**
   An ending and a recording URL that arrive together: both handlers have read the call without a URL;
   whichever way round they commit, it ends with a URL and without its event.
   */
  lemma EndAndUrlTogether(x: System, v: HandlerId, w: HandlerId, parse: ParseInt)
    requires v in x.flights && w in x.flights && v != w && !x.ended
    requires x.flights[v].ends && x.flights[v].cb.recordingUrl.None? && x.flights[v].seen.recordingUrl.None?
    requires !x.flights[w].ends && x.flights[w].cb.recordingUrl.Some? && x.flights[w].seen.recordingUrl.None?
    ensures var y := After(After(x, Commit(w), parse), Commit(v), parse); !y.ended && y.row.recordingUrl.Some?
    ensures var y := After(After(x, Commit(v), parse), Commit(w), parse); !y.ended && y.row.recordingUrl.Some?
  {
    UrlStep(x, Commit(w), parse);
    UrlStep(After(x, Commit(w), parse), Commit(v), parse);
    UrlStep(After(x, Commit(v), parse), Commit(w), parse);
  }
}
