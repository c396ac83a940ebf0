/**
 Polling one mailbox from several worker processes. The row `email_poll_state` carries the claim
 (status "running", taken by a conditional UPDATE that is committed at once) and the UID watermark.
 A worker keeps the watermark it read before its claim, however old that is by then; every ingested
 message is committed on its own.
 */
module EmailPoll {
  import opened Basics
  import opened Mailbox

  datatype PollStatus = Resting | Running | Error

  datatype PollRow = PollRow(lastUid: nat, status: PollStatus, lastPolledAt: Option<int>)

  type ProviderId = Option<string>

  // ---------------------------------------------------------------- ingesting

  /** The provider ids of the message table after one fetched message went through the ingest loop. */
  function Ingest(table: seq<ProviderId>, m: Mail): seq<ProviderId> {
    if m.fromOwn then table                                     // our own copy, looped back
    else if !m.resolves then table                              // ValueError, logged
    else if m.messageId.Some? && m.messageId in table then table // duplicate
    else table + [m.messageId]
  }

  function IngestAll(table: seq<ProviderId>, mails: seq<Mail>): seq<ProviderId>
    decreases |mails|
  {
    if mails == [] then table else IngestAll(Ingest(table, mails[0]), mails[1..])
  }

  /** The message adds a row: it is inbound, and its Message-ID, if any, neither stored nor earlier in the fetch. */
  ghost predicate Adds(table: seq<ProviderId>, mails: seq<Mail>, i: nat)
    requires i < |mails|
  {
    && !mails[i].fromOwn && mails[i].resolves
    && (mails[i].messageId.Some? ==>
          && mails[i].messageId !in table
          && forall j :: 0 <= j < i && mails[j].messageId == mails[i].messageId ==>
               mails[j].fromOwn || !mails[j].resolves)
  }

  ghost function Adding(table: seq<ProviderId>, mails: seq<Mail>): set<nat> {
    set i: nat | i < |mails| && Adds(table, mails, i)
  }

  lemma IngestAllLast(table: seq<ProviderId>, mails: seq<Mail>)
    requires mails != []
    ensures IngestAll(table, mails) == Ingest(IngestAll(table, mails[..|mails| - 1]), mails[|mails| - 1])
  {
    var init, last := mails[..|mails| - 1], mails[|mails| - 1];
    assert mails == init + [last];
    IngestAllExtends(table, init, [last]);
  }

  /** What the table holds after a fetch: what it held, and the Message-IDs of the inbound messages. */
  lemma {:induction false} IngestedIds(table: seq<ProviderId>, mails: seq<Mail>, id: ProviderId)
    ensures id in IngestAll(table, mails) <==>
            id in table ||
            exists j :: 0 <= j < |mails| && mails[j].messageId == id && !mails[j].fromOwn && mails[j].resolves
  {
    if mails != [] {
      var n := |mails| - 1;
      IngestAllLast(table, mails);
      IngestedIds(table, mails[..n], id);
      assert forall j :: 0 <= j < n ==> mails[..n][j] == mails[j];
    }
  }

  lemma AddingLast(table: seq<ProviderId>, mails: seq<Mail>)
    requires mails != []
    ensures var n := |mails| - 1;
            |Adding(table, mails)| == |Adding(table, mails[..n])| + if Adds(table, mails, n) then 1 else 0
  {
    var n := |mails| - 1;
    assert forall i: nat :: i < n ==> Adds(table, mails[..n], i) == Adds(table, mails, i);
    assert Adding(table, mails) == Adding(table, mails[..n]) + if Adds(table, mails, n) then {n} else {};
  }

  /** A fetch adds exactly one row for every message that adds one. */
  lemma {:induction false} IngestedCount(table: seq<ProviderId>, mails: seq<Mail>)
    ensures |IngestAll(table, mails)| == |table| + |Adding(table, mails)|
  {
    if mails != [] {
      var n := |mails| - 1;
      var init := mails[..n];
      IngestAllLast(table, mails);
      IngestedCount(table, init);
      IngestedIds(table, init, mails[n].messageId);
      AddingLast(table, mails);
      assert |IngestAll(table, mails)| == |IngestAll(table, init)| + if Adds(table, mails, n) then 1 else 0 by {
        assert forall j :: 0 <= j < n ==> init[j] == mails[j];
      }
    }
  }

  lemma {:induction false} IngestAllExtends(table: seq<ProviderId>, mails: seq<Mail>, more: seq<Mail>)
    ensures IngestAll(table, mails + more) == IngestAll(IngestAll(table, mails), more)
    ensures table <= IngestAll(table, mails)
    decreases |mails|
  {
    if mails == [] {
      assert mails + more == more;
    } else {
      assert (mails + more)[1..] == mails[1..] + more;
      IngestAllExtends(Ingest(table, mails[0]), mails[1..], more);
    }
  }

  /** A Message-ID names at most one row. */
  ghost predicate Deduplicated(table: seq<ProviderId>) {
    forall i, j :: 0 <= i < j < |table| && table[i].Some? ==> table[i] != table[j]
  }

  lemma {:induction false} DeduplicatedCount(table: seq<ProviderId>, id: ProviderId)
    requires Deduplicated(table) && id.Some?
    ensures multiset(table)[id] == if id in table then 1 else 0
  {
    if table != [] {
      var init, last := table[..|table| - 1], table[|table| - 1];
      assert table == init + [last];
      DeduplicatedCount(init, id);
      assert forall i :: 0 <= i < |init| ==> init[i] == table[i] && (table[i] == id ==> last != id);
    }
  }

  /** A message that must end up in the table: fetchable, foreign, deliverable, with a Message-ID. */
  predicate Eligible(m: Mail) {
    m.hasRaw && !m.fromOwn && m.resolves && m.messageId.Some?
  }

  lemma IngestKeepsTable(table: seq<ProviderId>, m: Mail)
    requires Deduplicated(table)
    ensures Deduplicated(Ingest(table, m))
    ensures forall p :: p in table ==> p in Ingest(table, m)
    ensures Eligible(m) ==> m.messageId in Ingest(table, m)
  {
    var after := Ingest(table, m);
    if after != table {
      assert after[|table|] == m.messageId;
      assert forall i :: 0 <= i < |table| ==> after[i] == table[i] && table[i] in table;
    }
  }

  /** The watermark a fetch above `since` reports. */
  function Watermark(mails: seq<Mail>, since: nat): nat {
    if mails == [] then since
    else
      var w, m := Watermark(mails[..|mails| - 1], since), mails[|mails| - 1];
      if m.hasRaw && m.uid > w then m.uid else w
  }

  lemma {:induction false} WatermarkIsTheWatermark(mails: seq<Mail>, since: nat)
    ensures IsWatermark(mails, since, Watermark(mails, since))
  {
    if mails != [] {
      var init, last := mails[..|mails| - 1], mails[|mails| - 1];
      WatermarkIsTheWatermark(init, since);
      assert mails == init + [last];
      assert last in mails;
    }
  }

  function Baseline(b: Box): nat {
    if b.uidNext == 0 then 0 else b.uidNext - 1
  }

  /** What a worker that read watermark `since` fetches: zero asks for a baseline. */
  function Fetched(b: Box, since: nat): (seq<Mail>, nat) {
    if since == 0 then ([], Baseline(b)) else (NewMails(b.mails, since), Watermark(b.mails, since))
  }

  // ---------------------------------------------------------------- one poll, undisturbed

  /** Whether the account is due: not running, and never polled or polled long enough ago. */
  predicate Due(row: PollRow, now: int, interval: int) {
    row.status != Running && (row.lastPolledAt.Some? ==> now - row.lastPolledAt.value >= interval)
  }

  /** A held row is left alone, and so is one whose interval has not passed; every other one is polled. */
  lemma DueMeans(row: PollRow, now: int, interval: int)
    ensures row.status == Running ==> !Due(row, now, interval)
    ensures row.status != Running && row.lastPolledAt.None? ==> Due(row, now, interval)
    ensures row.status != Running && row.lastPolledAt.Some? ==>
              (Due(row, now, interval) <==> row.lastPolledAt.value + interval <= now)
  {
  }

  class EmailAccount {
    var row: Option<PollRow>
    var messages: seq<ProviderId>

    constructor ()
      ensures row == None && messages == []
    {
      row, messages := None, [];
    }

    /** The part of `ingest_inbound_message` the poller sees: resolve, drop a duplicate, or add a row. */
    method IngestMessage(m: Mail) returns (added: bool)
      requires !m.fromOwn
      modifies this`messages
      ensures messages == Ingest(old(messages), m)
      ensures |messages| == |old(messages)| + if added then 1 else 0
    {
      if !m.resolves || (m.messageId.Some? && m.messageId in messages) {
        return false;
      }
      messages := messages + [m.messageId];
      return true;
    }

    /**
     `poll_one_email_account` without interference: `started`, `finished` are clock readings,
     `configured` and `fetchFails` what the provider does.
     */
    method PollOnce(b: Box, started: int, finished: int, interval: int, configured: bool, fetchFails: bool)
      returns (ingested: nat)
      requires ValidBox(b)
      modifies this
      ensures old(row).Some? && !Due(old(row).value, started, interval) ==>
                row == old(row) && messages == old(messages) && ingested == 0
      ensures (old(row).Some? ==> Due(old(row).value, started, interval)) && (!configured || fetchFails) ==>
                var since := if old(row).Some? then old(row).value.lastUid else 0;
                row == Some(PollRow(since, Error, Some(started))) && messages == old(messages) && ingested == 0
      ensures (old(row).Some? ==> Due(old(row).value, started, interval)) && configured && !fetchFails ==>
                var since := if old(row).Some? then old(row).value.lastUid else 0;
                var (mails, watermark) := Fetched(b, since);
                && row == Some(PollRow(watermark, Resting, Some(finished)))
                && messages == IngestAll(old(messages), mails)
                && ingested == |messages| - |old(messages)|
                && ingested == |Adding(old(messages), if since == 0 then [] else NewMails(b.mails, since))|
    {
      if row.None? {
        row := Some(PollRow(0, Resting, None));
      } else if row.value.status == Running {
        return 0;
      } else if row.value.lastPolledAt.Some? && started - row.value.lastPolledAt.value < interval {
        return 0;
      }
      row := Some(row.value.(status := Running));
      if !configured || fetchFails {
        row := Some(row.value.(status := Error, lastPolledAt := Some(started)));
        return 0;
      }
      var since := if row.value.lastUid > 0 then Some(row.value.lastUid) else None;
      var fetched, watermark := FetchNewMessages(b, since);
      if since.Some? {
        WatermarkIsTheWatermark(b.mails, since.value);
        WatermarkIsUnique(b.mails, since.value, watermark, Watermark(b.mails, since.value));
      }
      ingested := 0;
      for i := 0 to |fetched|
        invariant row.Some?
        invariant messages == IngestAll(old(messages), fetched[..i])
        invariant ingested == |messages| - |old(messages)|
      {
        assert fetched[..i + 1] == fetched[..i] + [fetched[i]];
        IngestAllExtends(old(messages), fetched[..i], [fetched[i]]);
        if fetched[i].fromOwn {
          continue;
        }
        var added := IngestMessage(fetched[i]);
        if added {
          ingested := ingested + 1;
        }
      }
      assert fetched[..|fetched|] == fetched;
      IngestedCount(old(messages), fetched);
      row := Some(PollRow(watermark, Resting, Some(finished)));
    }
  }
}
