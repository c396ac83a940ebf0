/**
 One IMAP mailbox and the fetch of everything above a UID watermark. UIDs ascend strictly in the
 order of arrival and every new message gets at least the announced UIDNEXT (section 2.3.1.1 of
 RFC 3501).
 */
module Mailbox {
  import opened Basics

  /**
   A stored message: `hasRaw` says whether a fetch returns its RFC822 bytes, `messageId` is its
   Message-ID if it has one, `fromOwn` whether it was sent from the account's own address and
   `resolves` whether an active channel account is found for it.
   */
  datatype Mail = Mail(uid: nat, hasRaw: bool, messageId: Option<string>, fromOwn: bool, resolves: bool)

  datatype Box = Box(mails: seq<Mail>, uidNext: nat)

  ghost predicate ValidBox(b: Box) {
    && (forall i :: 0 <= i < |b.mails| ==> 0 < b.mails[i].uid < b.uidNext)
    && (forall i, j :: 0 <= i < j < |b.mails| ==> b.mails[i].uid < b.mails[j].uid)
  }

  // ---------------------------------------------------------------- server side

  /**
   The server's answer to `UID SEARCH UID lo:*`. The star is the largest UID in the mailbox and a
   range may be given backwards, so a `lo` beyond it still yields that one message (section 6.4.8
   of RFC 3501).
   */
  function SearchFrom(mails: seq<Mail>, lo: nat): seq<Mail> {
    if mails == [] then []
    else
      var last := mails[|mails| - 1];
      if lo > last.uid then [last] else Above(mails, lo)
  }

  function Above(mails: seq<Mail>, lo: nat): seq<Mail> {
    if mails == [] then []
    else
      var m := mails[|mails| - 1];
      if m.uid >= lo then Above(mails[..|mails| - 1], lo) + [m] else Above(mails[..|mails| - 1], lo)
  }

  /** An ordinary range finds exactly the messages at or above it, whether their bytes can be fetched or not. */
  lemma {:induction false} AboveMembers(mails: seq<Mail>, lo: nat)
    ensures forall m :: m in Above(mails, lo) <==> m in mails && m.uid >= lo
  {
    if mails != [] {
      var init, last := mails[..|mails| - 1], mails[|mails| - 1];
      AboveMembers(init, lo);
      assert mails == init + [last];
    }
  }

  // ---------------------------------------------------------------- what a fetch must return

  /** The fetchable messages above `since`, in arrival order. */
  function NewMails(mails: seq<Mail>, since: nat): seq<Mail> {
    if mails == [] then []
    else
      var m := mails[|mails| - 1];
      var r := NewMails(mails[..|mails| - 1], since);
      if m.uid > since && m.hasRaw then r + [m] else r
  }

  lemma {:induction false} NewMailsMembers(mails: seq<Mail>, since: nat)
    ensures forall m :: m in NewMails(mails, since) <==> m in mails && m.uid > since && m.hasRaw
  {
    if mails != [] {
      var init, last := mails[..|mails| - 1], mails[|mails| - 1];
      NewMailsMembers(init, since);
      assert mails == init + [last];
    }
  }

  /** They come in the order of their arrival, each once. */
  lemma {:induction false} NewMailsAscend(mails: seq<Mail>, since: nat)
    requires forall i, j :: 0 <= i < j < |mails| ==> mails[i].uid < mails[j].uid
    ensures forall i, j :: 0 <= i < j < |NewMails(mails, since)| ==>
              NewMails(mails, since)[i].uid < NewMails(mails, since)[j].uid
  {
    if mails != [] {
      var init, last := mails[..|mails| - 1], mails[|mails| - 1];
      NewMailsAscend(init, since);
      NewMailsMembers(init, since);
      var before := NewMails(init, since);
      forall i | 0 <= i < |before| ensures before[i].uid < last.uid {
        assert before[i] in init;
      }
    }
  }

  ghost predicate IsWatermark(mails: seq<Mail>, since: nat, w: nat) {
    && since <= w
    && (forall m :: m in mails && m.uid > since && m.hasRaw ==> m.uid <= w)
    && (w == since || exists m :: m in mails && m.hasRaw && m.uid == w)
  }

  lemma WatermarkIsUnique(mails: seq<Mail>, since: nat, v: nat, w: nat)
    requires IsWatermark(mails, since, v) && IsWatermark(mails, since, w)
    ensures v == w
  {
  }

  lemma {:induction false} NewMailsOfAbove(mails: seq<Mail>, since: nat)
    ensures NewMails(Above(mails, since + 1), since) == NewMails(mails, since)
  {
    if mails != [] {
      var init, m := mails[..|mails| - 1], mails[|mails| - 1];
      NewMailsOfAbove(init, since);
      var a := Above(init, since + 1);
      if m.uid >= since + 1 {
        assert (a + [m])[..|a|] == a;
      }
    }
  }

  /** The client's filter `u > since` undoes the server's wrap-around. */
  lemma FilterUndoesWrapAround(b: Box, since: nat)
    requires ValidBox(b)
    ensures NewMails(SearchFrom(b.mails, since + 1), since) == NewMails(b.mails, since)
  {
    NewMailsOfAbove(b.mails, since);
    if b.mails != [] && since + 1 > b.mails[|b.mails| - 1].uid {
      NothingNew(b.mails, since);
      var last := b.mails[|b.mails| - 1];
      assert NewMails([last], since) == [] by {
        assert [last][..0] == [];
      }
    }
  }

  lemma {:induction false} NothingNew(mails: seq<Mail>, since: nat)
    requires forall i :: 0 <= i < |mails| ==> mails[i].uid <= since
    ensures NewMails(mails, since) == []
  {
    if mails != [] {
      NothingNew(mails[..|mails| - 1], since);
    }
  }

  /** Without that filter every poll of a mailbox with nothing new would deliver its last message again. */
  lemma UnfilteredSearchRepeats(b: Box, since: nat)
    requires ValidBox(b) && b.mails != [] && b.mails[|b.mails| - 1].uid <= since
    ensures SearchFrom(b.mails, since + 1) == [b.mails[|b.mails| - 1]] && NewMails(b.mails, since) == []
  {
    NothingNew(b.mails, since);
  }

  /** `_fetch_new_messages_sync`; None asks for a baseline. */
  method FetchNewMessages(b: Box, since: Option<nat>) returns (messages: seq<Mail>, watermark: nat)
    requires ValidBox(b)
    ensures since.None? ==> messages == [] && watermark == (if b.uidNext == 0 then 0 else b.uidNext - 1)
    ensures since.Some? ==> messages == NewMails(b.mails, since.value) && IsWatermark(b.mails, since.value, watermark)
  {
    if since.None? {
      return [], if b.uidNext >= 1 then b.uidNext - 1 else 0;
    }
    var found := SearchFrom(b.mails, since.value + 1);
    FilterUndoesWrapAround(b, since.value);
    messages, watermark := [], since.value;
    for i := 0 to |found|
      invariant messages == NewMails(found[..i], since.value)
      invariant watermark >= since.value
      invariant forall m :: m in messages ==> m.uid <= watermark
      invariant watermark == since.value || exists m :: m in messages && m.uid == watermark
    {
      assert found[..i + 1][..i] == found[..i];
      if found[i].uid > since.value && found[i].hasRaw {
        messages := messages + [found[i]];
        watermark := if found[i].uid > watermark then found[i].uid else watermark;
        assert found[i] in messages;
      }
    }
    assert found[..|found|] == found;
    NewMailsMembers(b.mails, since.value);
  }
}
