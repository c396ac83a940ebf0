/**
 What happens to a call after it was routed: lifecycle callbacks from the provider, the call.ended
 event they may enqueue, and its transcription by a worker. Another transaction may win a race for
 the same key exactly between a handler's check and its insert.
 */
module CallLifecycle {
  import opened Basics
  import opened OnceOnly
  import opened Text

  type CallId = nat
  type UserId = nat

  datatype EventType = Answered | Ended | Ringing | Updated

  datatype Call = Call(status: string, duration: Option<int>, recordingUrl: Option<string>, agent: Option<UserId>)

  /** The fields of a lifecycle callback; a missing or empty parameter is None. */
  datatype Callback = Callback(status: Option<string>, duration: Option<string>, recordingUrl: Option<string>)

  // ---------------------------------------------------------------- status words

  function LifecycleEventType(status: Option<string>): EventType {
    var word := if status.Some? then Lower(Strip(status.value)) else "";
    if word in ["in-progress", "in_progress", "answered"] then Answered
    else if word in ["completed", "busy", "no-answer", "no_answer", "failed", "canceled", "cancelled"] then Ended
    else if word in ["ringing", "queued", "initiated"] then Ringing
    else Updated
  }

  // ---------------------------------------------------------------- the tables

  /** Rows are listed by the call they belong to; `onCall` are the presence rows' flags. */
  datatype Desk = Desk(calls: map<CallId, Call>, endedEvents: seq<CallId>, transcripts: seq<CallId>,
                       interactions: seq<CallId>, onCall: map<UserId, bool>)

  ghost predicate ValidDesk(d: Desk) {
    NoDups(d.endedEvents) && NoDups(d.transcripts) && d.interactions == d.transcripts
  }

  /** The call row after a callback; `parse` is Python's int() on a string. */
  function UpdatedCall(c: Call, cb: Callback, parse: string -> Option<int>): Call {
    var c1 := if cb.status.Some? then c.(status := Lower(cb.status.value)) else c;
    var seconds := if cb.duration.Some? then parse(cb.duration.value) else None;
    var c2 := if seconds.Some? then c1.(duration := seconds) else c1;
    if cb.recordingUrl.Some? then c2.(recordingUrl := cb.recordingUrl) else c2
  }

  /** Whether handling this callback must leave a call.ended event behind. */
  predicate Completes(d: Desk, id: CallId, cb: Callback) {
    && id in d.calls
    && LifecycleEventType(cb.status) == Ended
    && (cb.recordingUrl.Some? || d.calls[id].recordingUrl.Some?)
  }

  function AddOnce(rows: seq<CallId>, id: CallId): seq<CallId> {
    if id in rows then rows else rows + [id]
  }

  function AfterCallback(d: Desk, id: CallId, cb: Callback, assignee: Option<UserId>, parse: string -> Option<int>)
    : Desk {
    if id !in d.calls then d
    else
      var kind := LifecycleEventType(cb.status);
      var call := UpdatedCall(d.calls[id], cb, parse);
      var agent := if call.agent.Some? then call.agent else assignee;
      d.(calls := d.calls[id := call],
         onCall := if agent.Some? && agent.value in d.onCall && kind in {Answered, Ended}
                   then d.onCall[agent.value := kind == Answered] else d.onCall,
         endedEvents := if Completes(d, id, cb) then AddOnce(d.endedEvents, id) else d.endedEvents)
  }

  /** `raced`: another worker committed the transcript first, so this one does not touch the call. */
  function AfterTranscription(d: Desk, id: CallId, raced: bool): Desk {
    if id !in d.calls || d.calls[id].recordingUrl.None? || id in d.transcripts then d
    else
      d.(transcripts := d.transcripts + [id], interactions := d.interactions + [id],
         calls := if raced then d.calls else d.calls[id := d.calls[id].(status := "completed")])
  }

  // ---------------------------------------------------------------- what it means for the rows

  /** The status words, in any case and with blanks around them; everything else is an update. */
  lemma WordsMean(status: Option<string>, word: string)
    requires word == if status.None? then "" else Lower(Strip(status.value))
    ensures LifecycleEventType(status) == Answered <==>
              word == "in-progress" || word == "in_progress" || word == "answered"
    ensures LifecycleEventType(status) == Ended <==>
              word == "completed" || word == "busy" || word == "no-answer" || word == "no_answer" ||
              word == "failed" || word == "canceled" || word == "cancelled"
    ensures LifecycleEventType(status) == Ringing <==> word == "ringing" || word == "queued" || word == "initiated"
  {
  }

  /** The row takes what the callback brings and keeps the rest; no other call changes, and no unknown call counts. */
  lemma RowMeans(d: Desk, id: CallId, cb: Callback, assignee: Option<UserId>, parse: string -> Option<int>)
    ensures var after := AfterCallback(d, id, cb, assignee, parse);
            && (id !in d.calls ==> after == d)
            && (id in d.calls ==>
                  && after.calls == d.calls[id := after.calls[id]]
                  && after.calls[id].agent == d.calls[id].agent
                  && after.calls[id].status ==
                       (if cb.status.Some? then Lower(cb.status.value) else d.calls[id].status)
                  && after.calls[id].duration ==
                       (if cb.duration.Some? && parse(cb.duration.value).Some? then parse(cb.duration.value)
                        else d.calls[id].duration)
                  && after.calls[id].recordingUrl ==
                       if cb.recordingUrl.Some? then cb.recordingUrl else d.calls[id].recordingUrl)
            && after.transcripts == d.transcripts && after.interactions == d.interactions
  {
  }

  /**
   An answered call puts its agent on the phone and an ended one takes the agent off it, the ticket's
   assignee where the call has no agent; any other callback, and anybody else's flag, is left alone.
   */
  lemma FlagMeans(d: Desk, id: CallId, cb: Callback, assignee: Option<UserId>, parse: string -> Option<int>, u: UserId)
    requires id in d.calls && u in d.onCall
    ensures var after, kind := AfterCallback(d, id, cb, assignee, parse), LifecycleEventType(cb.status);
            var theirs := if d.calls[id].agent.Some? then d.calls[id].agent == Some(u) else assignee == Some(u);
            && after.onCall.Keys == d.onCall.Keys
            && after.onCall[u] == if theirs && kind == Answered then true
                                  else if theirs && kind == Ended then false
                                  else d.onCall[u]
  {
  }

  /** The event is there afterwards if it was, or if the call ended and a recording URL is known by now. */
  lemma EventMeans(d: Desk, id: CallId, cb: Callback, assignee: Option<UserId>, parse: string -> Option<int>)
    requires id in d.calls
    ensures var after := AfterCallback(d, id, cb, assignee, parse);
            && (id in after.endedEvents <==>
                  id in d.endedEvents ||
                  (LifecycleEventType(cb.status) == Ended && after.calls[id].recordingUrl.Some?))
            && after.endedEvents == d.endedEvents + if id in after.endedEvents && id !in d.endedEvents then [id] else []
  {
  }

  /** Transcribing adds to both tables, once, and only for a call with a recording; the winner completes the call. */
  lemma TranscriptionMeans(d: Desk, id: CallId, raced: bool)
    ensures var after := AfterTranscription(d, id, raced);
            var adds := id in d.calls && d.calls[id].recordingUrl.Some? && id !in d.transcripts;
            && after.transcripts == d.transcripts + (if adds then [id] else [])
            && after.interactions == d.interactions + (if adds then [id] else [])
            && after.calls == (if adds && !raced then d.calls[id := d.calls[id].(status := "completed")] else d.calls)
            && after.endedEvents == d.endedEvents && after.onCall == d.onCall
  {
  }

  class CallDesk {
    var calls: map<CallId, Call>
    var endedEvents: seq<CallId>
    var transcripts: seq<CallId>
    var interactions: seq<CallId>
    var onCall: map<UserId, bool>

    constructor (d: Desk)
      ensures Tables() == d
    {
      calls, endedEvents, transcripts, interactions, onCall :=
        d.calls, d.endedEvents, d.transcripts, d.interactions, d.onCall;
    }

    function Tables(): Desk
      reads this
    {
      Desk(calls, endedEvents, transcripts, interactions, onCall)
    }

    /** `raced`: another handler commits the event of this call between the check and the insert. */
    method EnqueueCallEnded(id: CallId, raced: bool)
      modifies this`endedEvents
      ensures endedEvents == AddOnce(old(endedEvents), id)
    {
      if id in endedEvents {
        return;
      }
      if raced {
        endedEvents := endedEvents + [id];
      }
      var savepoint := |endedEvents|;
      var violation := id in endedEvents;
      endedEvents := endedEvents + [id];
      if violation {
        endedEvents := endedEvents[..savepoint];
      }
    }

    /** The fields a callback carries are stored; a duration that is no number is passed over. */
    method UpdateCallRow(id: CallId, cb: Callback, parse: string -> Option<int>)
      requires id in calls
      modifies this`calls
      ensures calls == old(calls)[id := UpdatedCall(old(calls)[id], cb, parse)]
    {
      var call := calls[id];
      if cb.status.Some? {
        call := call.(status := Lower(cb.status.value));
      }
      if cb.duration.Some? {
        var seconds := parse(cb.duration.value);
        if seconds.Some? {
          call := call.(duration := seconds);
        }
      }
      if cb.recordingUrl.Some? {
        call := call.(recordingUrl := cb.recordingUrl);
      }
      calls := calls[id := call];
    }

    /** The lifecycle webhook; None answers 404 for an unknown call. */
    method ExotelCallEvent(id: CallId, cb: Callback, assignee: Option<UserId>,
                           parse: string -> Option<int>, raced: bool)
      returns (r: Option<EventType>)
      modifies this
      ensures Tables() == AfterCallback(old(Tables()), id, cb, assignee, parse)
      ensures r == if id in old(calls) then Some(LifecycleEventType(cb.status)) else None
    {
      if id !in calls {
        return None;
      }
      var kind := LifecycleEventType(cb.status);
      UpdateCallRow(id, cb, parse);
      var call := calls[id];
      var agent := if call.agent.Some? then call.agent else assignee;
      if agent.Some? && (kind == Answered || kind == Ended) && agent.value in onCall {
        onCall := onCall[agent.value := kind == Answered];
      }
      if kind == Ended && call.recordingUrl.Some? {
        EnqueueCallEnded(id, raced);
      }
      return Some(kind);
    }

    /** `raced`: another worker commits transcript and interaction between the check and the insert. */
    method TranscribeCall(id: CallId, raced: bool) returns (transcribed: bool)
      modifies this
      ensures Tables() == AfterTranscription(old(Tables()), id, raced)
      ensures transcribed <==> id in old(calls) && old(calls)[id].recordingUrl.Some?
    {
      if id !in calls || calls[id].recordingUrl.None? {
        return false;
      }
      if id in transcripts {
        return true;
      }
      if raced {
        transcripts, interactions := transcripts + [id], interactions + [id];
      }
      var transcriptsBefore, interactionsBefore := |transcripts|, |interactions|;
      var violation := id in transcripts;
      transcripts := transcripts + [id];
      interactions := interactions + [id];
      if violation {
        transcripts, interactions := transcripts[..transcriptsBefore], interactions[..interactionsBefore];
        return true;
      }
      calls := calls[id := calls[id].(status := "completed")];
      return true;
    }
  }

  // ---------------------------------------------------------------- any sequence of callbacks and retries

  datatype Job =
    | Hook(id: CallId, cb: Callback, assignee: Option<UserId>)
    | Transcription(id: CallId, raced: bool)

  function AfterJob(d: Desk, job: Job, parse: string -> Option<int>): Desk {
    match job
    case Hook(id, cb, assignee) => AfterCallback(d, id, cb, assignee, parse)
    case Transcription(id, raced) => AfterTranscription(d, id, raced)
  }

  function AfterJobs(d: Desk, jobs: seq<Job>, parse: string -> Option<int>): Desk {
    if jobs == [] then d else AfterJob(AfterJobs(d, jobs[..|jobs| - 1], parse), jobs[|jobs| - 1], parse)
  }

  /** Some ended callback of the call was handled while a recording URL was known. */
  ghost predicate EverCompleted(d: Desk, jobs: seq<Job>, parse: string -> Option<int>, id: CallId) {
    exists i :: 0 <= i < |jobs| && jobs[i].Hook? && jobs[i].id == id &&
                Completes(AfterJobs(d, jobs[..i], parse), id, jobs[i].cb)
  }

  predicate JobCompletes(d: Desk, job: Job, id: CallId) {
    job.Hook? && job.id == id && Completes(d, id, job.cb)
  }

  lemma EverCompletedStep(d: Desk, jobs: seq<Job>, parse: string -> Option<int>, id: CallId)
    requires jobs != []
    ensures var init, last := jobs[..|jobs| - 1], jobs[|jobs| - 1];
            EverCompleted(d, jobs, parse, id) <==>
              EverCompleted(d, init, parse, id) || JobCompletes(AfterJobs(d, init, parse), last, id)
  {
    var init, last := jobs[..|jobs| - 1], jobs[|jobs| - 1];
    assert forall i :: 0 <= i < |init| ==> init[i] == jobs[i] && jobs[..i] == init[..i];
    if JobCompletes(AfterJobs(d, init, parse), last, id) {
      assert Completes(AfterJobs(d, jobs[..|jobs| - 1], parse), id, jobs[|jobs| - 1].cb);
    }
  }

  lemma JobStep(d: Desk, job: Job, parse: string -> Option<int>, id: CallId)
    requires ValidDesk(d)
    ensures ValidDesk(AfterJob(d, job, parse))
    ensures id in AfterJob(d, job, parse).endedEvents <==> id in d.endedEvents || JobCompletes(d, job, id)
  {
  }

  lemma {:induction false} JobsKeepTables(d: Desk, jobs: seq<Job>, parse: string -> Option<int>, id: CallId)
    requires ValidDesk(d)
    ensures ValidDesk(AfterJobs(d, jobs, parse))
    ensures id in AfterJobs(d, jobs, parse).endedEvents <==> id in d.endedEvents || EverCompleted(d, jobs, parse, id)
  {
    if jobs != [] {
      var init, last := jobs[..|jobs| - 1], jobs[|jobs| - 1];
      JobsKeepTables(d, init, parse, id);
      JobStep(AfterJobs(d, init, parse), last, parse, id);
      EverCompletedStep(d, jobs, parse, id);
    }
  }

  /**
   Call completion is once-only: whatever callbacks, races and worker retries, a call has one
   call.ended event exactly when it was completed at some point and none otherwise, at most one
   transcript, and as many transcript interactions as transcripts.
   */
  lemma CompletionIsOnceOnly(d: Desk, jobs: seq<Job>, parse: string -> Option<int>, id: CallId)
    requires ValidDesk(d) && id !in d.endedEvents
    ensures var after := AfterJobs(d, jobs, parse);
            && multiset(after.endedEvents)[id] == (if EverCompleted(d, jobs, parse, id) then 1 else 0)
            && multiset(after.transcripts)[id] <= 1
            && multiset(after.interactions)[id] == multiset(after.transcripts)[id]
  {
    JobsKeepTables(d, jobs, parse, id);
    CountNoDups(AfterJobs(d, jobs, parse).endedEvents, id);
    CountNoDups(AfterJobs(d, jobs, parse).transcripts, id);
  }

  /** Delivering a callback twice in a row is the same as delivering it once. */
  lemma CallbackIsIdempotent(d: Desk, id: CallId, cb: Callback, assignee: Option<UserId>, parse: string -> Option<int>)
    ensures var once := AfterCallback(d, id, cb, assignee, parse);
            AfterCallback(once, id, cb, assignee, parse) == once
  {
    if id in d.calls {
      var once := AfterCallback(d, id, cb, assignee, parse);
      var twice := AfterCallback(once, id, cb, assignee, parse);
      assert twice.calls == once.calls;
      assert twice.onCall == once.onCall;
      assert Completes(d, id, cb) <==> Completes(once, id, cb);
    }
  }
}
