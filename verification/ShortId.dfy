/**
 Ticket display ids: `YYMMDD-` and a random six-digit suffix, checked before the insert, and guarded
 by the unique constraint of the database inside a savepoint.
 */
module ShortId {
  import opened Basics
  import opened SubjectToken

  const MAX_ATTEMPTS := 10
  const INSERT_RETRY_ATTEMPTS := 3
  const SUFFIX_DIGITS := 6
  const SUFFIX_MAX := 1_000_000

  // ---------------------------------------------------------------- the format

  function DigitChar(d: nat): (c: char)
    requires d < 10
    ensures IsDigit(c)
  {
    '0' + d as char
  }

  /** The decimal digits of n, zero-padded to `width`. */
  function Padded(n: nat, width: nat): (s: string)
    ensures |s| == width
    ensures forall i :: 0 <= i < |s| ==> IsDigit(s[i])
    decreases width
  {
    if width == 0 then "" else Padded(n / 10, width - 1) + [DigitChar(n % 10)]
  }

  function ValueOf(s: string): int {
    if s == "" then 0 else ValueOf(s[..|s| - 1]) * 10 + (s[|s| - 1] as int - '0' as int)
  }

  function Power10(n: nat): nat {
    if n == 0 then 1 else 10 * Power10(n - 1)
  }

  lemma {:induction false} PaddedRoundTrip(n: nat, width: nat)
    requires n < Power10(width)
    ensures ValueOf(Padded(n, width)) == n
    decreases width
  {
    if width > 0 {
      PaddedRoundTrip(n / 10, width - 1);
      var s := Padded(n, width);
      assert s[..|s| - 1] == Padded(n / 10, width - 1);
    }
  }

  /** A six-digit date, as strftime("%y%m%d") prints it. */
  predicate IsDatePrefix(p: string) {
    |p| == 6 && forall i :: 0 <= i < 6 ==> IsDigit(p[i])
  }

  function Candidate(prefix: string, suffix: nat): string {
    prefix + "-" + Padded(suffix, SUFFIX_DIGITS)
  }

  /** YYMMDD-NNNNNN. */
  predicate IsGenerated(id: string) {
    IsShortId(id) && |id| == 13
  }

  lemma SixDigits(n: nat)
    requires n < 1_000_000
    ensures ValueOf(Padded(n, 6)) == n
  {
    assert Power10(1) == 10 && Power10(2) == 100 && Power10(3) == 1000;
    assert Power10(4) == 10000 && Power10(5) == 100000 && Power10(6) == 1000000;
    PaddedRoundTrip(n, 6);
  }

  /** Every candidate has the documented form, and distinct draws of one day give distinct ids. */
  lemma CandidateForm(prefix: string, m: nat, n: nat)
    requires IsDatePrefix(prefix) && m < SUFFIX_MAX && n < SUFFIX_MAX
    ensures IsGenerated(Candidate(prefix, n))
    ensures Candidate(prefix, m) == Candidate(prefix, n) <==> m == n
  {
    SixDigits(m);
    SixDigits(n);
    assert Candidate(prefix, m)[7..] == Padded(m, SUFFIX_DIGITS);
    assert Candidate(prefix, n)[7..] == Padded(n, SUFFIX_DIGITS);
  }

  // ---------------------------------------------------------------- the table and the session

  type TicketId = nat

  /** Work a session has pending: a new ticket with its short id, or anything else. */
  datatype Work = NewTicket(ticket: TicketId, shortId: string) | Other(tag: int)

  datatype Result = Inserted(shortId: string) | Exhausted | RacedOut

  /** The short ids of the tickets among some pending work. */
  function Reserved(work: seq<Work>): set<string> {
    set w | w in work && w.NewTicket? :: w.shortId
  }

  ghost predicate DistinctIds(rows: map<TicketId, string>) {
    forall a, b :: a in rows && b in rows && a != b ==> rows[a] != rows[b]
  }

  ghost predicate WellFormed(rows: map<TicketId, string>) {
    forall t :: t in rows ==> IsGenerated(rows[t])
  }

  /** Tickets that others are about to commit; they draw their ids in the same way. */
  ghost predicate Drawn(others: seq<(TicketId, string)>) {
    forall i :: 0 <= i < |others| ==> IsGenerated(others[i].1)
  }

  /** Another transaction commits a ticket; the unique constraint turns a taken id away. */
  function CommitOther(rows: map<TicketId, string>, held: set<string>, ticket: TicketId, id: string)
    : map<TicketId, string>
  {
    if ticket in rows || id in rows.Values || id in held then rows else rows[ticket := id]
  }

  /** Others commit any number of tickets, one after the other. */
  function CommitOthers(rows: map<TicketId, string>, held: set<string>, others: seq<(TicketId, string)>)
    : map<TicketId, string>
    decreases |others|
  {
    if others == [] then rows
    else CommitOthers(CommitOther(rows, held, others[0].0, others[0].1), held, others[1..])
  }

  /** `rows` extends `before`, keeps ids distinct and well formed, and takes none that is held. */
  ghost predicate GrownFrom(before: map<TicketId, string>, rows: map<TicketId, string>, held: set<string>) {
    && (forall t :: t in before ==> t in rows && rows[t] == before[t])
    && (DistinctIds(before) ==> DistinctIds(rows))
    && (WellFormed(before) ==> WellFormed(rows))
    && (before.Values !! held ==> rows.Values !! held)
  }

  lemma {:induction false} CommitOthersGrow(rows: map<TicketId, string>, held: set<string>,
    others: seq<(TicketId, string)>)
    requires Drawn(others)
    ensures GrownFrom(rows, CommitOthers(rows, held, others), held)
    decreases |others|
  {
    if others != [] {
      var next := CommitOther(rows, held, others[0].0, others[0].1);
      CommitOthersGrow(next, held, others[1..]);
      assert forall t :: t in rows ==> rows[t] in rows.Values;
      assert forall v :: v in next.Values ==> v in rows.Values || v == others[0].1;
    }
  }

  lemma GrownTransitive(a: map<TicketId, string>, b: map<TicketId, string>, c: map<TicketId, string>, held: set<string>)
    requires GrownFrom(a, b, held) && GrownFrom(b, c, held)
    ensures GrownFrom(a, c, held)
    ensures a.Values <= c.Values
  {
    forall v | v in a.Values ensures v in c.Values {
      var t :| t in a && a[t] == v;
      assert c[t] == v;
    }
  }

  // ---------------------------------------------------------------- how an insertion ends

  /** The random stream, the date prefixes of the three rounds, and what others commit during each. */
  datatype World = World(prefix: nat -> string, draws: nat -> nat, others: nat -> seq<(TicketId, string)>)

  ghost predicate Plausible(e: World) {
    && (forall k :: IsDatePrefix(e.prefix(k)) && Drawn(e.others(k)))
    && forall k :: e.draws(k) < SUFFIX_MAX
  }

  /** The ids of ten draws from position `at` of the stream. */
  function Window(prefix: string, draws: nat -> nat, at: nat): (ids: seq<string>)
    ensures |ids| == MAX_ATTEMPTS
    ensures forall i :: 0 <= i < |ids| ==> ids[i] == Candidate(prefix, draws(at + i))
  {
    seq(MAX_ATTEMPTS, i requires 0 <= i < MAX_ATTEMPTS => Candidate(prefix, draws(at + i)))
  }

  /** The first free id. */
  function Pick(taken: set<string>, ids: seq<string>): (id: Option<string>)
    ensures id.Some? ==> id.value !in taken && id.value in ids
    ensures id.None? <==> forall i :: 0 <= i < |ids| ==> ids[i] in taken
  {
    if ids == [] then None else if ids[0] !in taken then Some(ids[0]) else Pick(taken, ids[1..])
  }

  /** The committed rows before round k. */
  function RowsAt(rows: map<TicketId, string>, held: set<string>, e: World, k: nat): map<TicketId, string> {
    if k == 0 then rows else CommitOthers(RowsAt(rows, held, e, k - 1), held, e.others(k - 1))
  }

  /** The id round k tries. */
  function Tried(rows: map<TicketId, string>, held: set<string>, e: World, k: nat): Option<string> {
    Pick(RowsAt(rows, held, e, k).Values + held, Window(e.prefix(k), e.draws, k * MAX_ATTEMPTS))
  }

  /**
   How round k ends: all ten draws are taken, or somebody commits the very id that was found free, or
   that id is inserted.
   */
  function Round(rows: map<TicketId, string>, held: set<string>, e: World, k: nat): Result {
    var id := Tried(rows, held, e, k);
    if id.None? then Exhausted
    else if id.value in RowsAt(rows, held, e, k + 1).Values then RacedOut
    else Inserted(id.value)
  }

  /** The first round that is not lost to a race decides. */
  function Decided(rounds: seq<Result>): Result {
    if rounds == [] then RacedOut
    else if rounds[0] == RacedOut then Decided(rounds[1..])
    else rounds[0]
  }

  function Rounds(rows: map<TicketId, string>, held: set<string>, e: World): seq<Result> {
    seq(INSERT_RETRY_ATTEMPTS, k requires 0 <= k < INSERT_RETRY_ATTEMPTS => Round(rows, held, e, k))
  }

  /** The insertion gives up over races exactly if every round is lost; otherwise it ends as the first other round. */
  lemma {:induction false} DecidedIff(rounds: seq<Result>, r: Result)
    ensures Decided(rounds) == RacedOut <==> forall k :: 0 <= k < |rounds| ==> rounds[k] == RacedOut
    ensures r != RacedOut ==>
              (Decided(rounds) == r <==>
               exists n :: 0 <= n < |rounds| && rounds[n] == r && forall m :: 0 <= m < n ==> rounds[m] == RacedOut)
  {
    if rounds != [] {
      var rest := rounds[1..];
      DecidedIff(rest, r);
      assert forall k :: 0 < k < |rounds| ==> rounds[k] == rest[k - 1];
      if n :| 0 <= n < |rest| && rest[n] == r && forall m :: 0 <= m < n ==> rest[m] == RacedOut {
        assert rounds[n + 1] == r;
      }
    }
  }

  /** Round k decides, unless it is lost to a race too. */
  lemma NextRound(rows: map<TicketId, string>, held: set<string>, e: World, k: nat)
    requires k < INSERT_RETRY_ATTEMPTS
    ensures var rounds, r := Rounds(rows, held, e), Round(rows, held, e, k);
            Decided(rounds[k..]) == if r == RacedOut then Decided(rounds[k + 1..]) else r
  {
    var rounds := Rounds(rows, held, e);
    assert rounds[k..][1..] == rounds[k + 1..];
  }

  /** What is decided from round k on. */
  function DecidedFrom(rows: map<TicketId, string>, held: set<string>, e: World, k: nat): Result
    requires k <= INSERT_RETRY_ATTEMPTS
  {
    Decided(Rounds(rows, held, e)[k..])
  }

  lemma AllRoundsDecide(rows: map<TicketId, string>, held: set<string>, e: World)
    ensures DecidedFrom(rows, held, e, 0) == Decided(Rounds(rows, held, e))
    ensures DecidedFrom(rows, held, e, INSERT_RETRY_ATTEMPTS) == RacedOut
  {
    assert Rounds(rows, held, e)[0..] == Rounds(rows, held, e);
  }

  // ---------------------------------------------------------------- what the rounds mean

  lemma GeneratedMeans(id: string)
    ensures IsGenerated(id) <==>
              |id| == 13 && id[6] == '-' && forall i :: 0 <= i < 13 && i != 6 ==> id[i] in "0123456789"
  {
    ShapeMeans(id);
  }

  /** What others commit takes effect in their order: the last of them meets what the others left. */
  lemma {:induction false} CommitsAppend(rows: map<TicketId, string>, held: set<string>,
                                         others: seq<(TicketId, string)>, last: (TicketId, string))
    ensures CommitOthers(rows, held, []) == rows
    ensures CommitOthers(rows, held, others + [last]) ==
              CommitOther(CommitOthers(rows, held, others), held, last.0, last.1)
    decreases |others|
  {
    if others == [] {
      assert [last][1..] == [];
    } else {
      CommitsAppend(CommitOther(rows, held, others[0].0, others[0].1), held, others[1..], last);
      assert (others + [last])[1..] == others[1..] + [last];
    }
  }

  /** The rows before a round are those before the last one, with what others committed during it. */
  lemma RowsAtMean(rows: map<TicketId, string>, held: set<string>, e: World, k: nat)
    ensures RowsAt(rows, held, e, 0) == rows
    ensures k > 0 ==> RowsAt(rows, held, e, k) == CommitOthers(RowsAt(rows, held, e, k - 1), held, e.others(k - 1))
  {
  }

  /** Ten ids of the day, each with the six digits of its draw. */
  lemma WindowMeans(prefix: string, draws: nat -> nat, at: nat, i: nat)
    requires IsDatePrefix(prefix) && draws(at + i) < 1_000_000 && i < 10
    ensures |Window(prefix, draws, at)| == 10
    ensures var id := Window(prefix, draws, at)[i];
            |id| == 13 && id[..6] == prefix && id[6] == '-' && ValueOf(id[7..]) == draws(at + i)
  {
    var n := draws(at + i);
    CandidateForm(prefix, n, n);
    SixDigits(n);
    assert Candidate(prefix, n)[..6] == prefix && Candidate(prefix, n)[7..] == Padded(n, 6);
  }

  /** The first id nobody has. */
  lemma {:induction false} PickIsFirst(taken: set<string>, ids: seq<string>, id: string)
    ensures Pick(taken, ids) == Some(id) <==>
              exists i :: 0 <= i < |ids| && ids[i] == id && id !in taken && forall j :: 0 <= j < i ==> ids[j] in taken
  {
    if ids != [] {
      var rest := ids[1..];
      PickIsFirst(taken, rest, id);
      assert forall i :: 0 < i < |ids| ==> ids[i] == rest[i - 1];
      if i :| 0 <= i < |rest| && rest[i] == id && id !in taken && forall j :: 0 <= j < i ==> rest[j] in taken {
        assert ids[i + 1] == id;
      }
    }
  }

  /** Another transaction's ticket is committed exactly if it is new and its id is free. */
  lemma CommitOtherMeans(rows: map<TicketId, string>, held: set<string>, ticket: TicketId, id: string)
    requires ticket !in rows
    ensures ticket in CommitOther(rows, held, ticket, id) <==>
              id !in held && forall t :: t in rows ==> rows[t] != id
    ensures CommitOther(rows, held, ticket, id) - {ticket} == rows
    ensures ticket in CommitOther(rows, held, ticket, id) ==> CommitOther(rows, held, ticket, id)[ticket] == id
  {
    assert forall t :: t in rows ==> rows[t] in rows.Values;
  }

  /** Round k draws ten ids from place 10k of the stream on, and tries the first that nobody has by then. */
  lemma TriedMeans(rows: map<TicketId, string>, held: set<string>, e: World, k: nat, at: nat,
                   taken: set<string>, ids: seq<string>)
    requires at == 10 * k && ids == Window(e.prefix(k), e.draws, at)
    requires taken == RowsAt(rows, held, e, k).Values + held
    ensures Tried(rows, held, e, k) == Pick(taken, ids)
  {
    assert k * MAX_ATTEMPTS == at;
  }

  /** There are three rounds; each gives up without a free id, and loses its id only to a commit of that id. */
  lemma RoundMeans(rows: map<TicketId, string>, held: set<string>, e: World, k: nat, after: map<TicketId, string>)
    requires k < 3 && after == RowsAt(rows, held, e, k + 1)
    ensures var rounds, id := Rounds(rows, held, e), Tried(rows, held, e, k);
            && |rounds| == 3
            && (id.None? ==> rounds[k] == Exhausted)
            && (id.Some? && id.value in after.Values ==> rounds[k] == RacedOut)
            && (id.Some? && id.value !in after.Values ==> rounds[k] == Inserted(id.value))
  {
  }

  class Session {
    var committed: map<TicketId, string>   // the rows other transactions have committed
    var work: seq<Work>                    // this transaction's pending rows, flushed or not

    /** Stored and reserved ids are pairwise distinct and well formed. */
    ghost predicate Valid()
      reads this
    {
      && DistinctIds(committed) && WellFormed(committed)
      && committed.Values !! Reserved(work)
      && (forall i :: 0 <= i < |work| && work[i].NewTicket? ==> IsGenerated(work[i].shortId))
      && forall i, j :: 0 <= i < j < |work| && work[i].NewTicket? && work[j].NewTicket? ==>
           work[i].shortId != work[j].shortId
    }

    constructor ()
      ensures Valid() && committed == map[] && work == []
    {
      committed, work := map[], [];
    }

    function Taken(): set<string>
      reads this
    {
      committed.Values + Reserved(work)
    }

    /** `draws` is the random stream, read from position `at`. */
    method GenerateTicketShortId(prefix: string, draws: nat -> nat, at: nat) returns (id: Option<string>)
      requires IsDatePrefix(prefix) && forall k :: draws(k) < SUFFIX_MAX
      ensures id == Pick(Taken(), Window(prefix, draws, at))
      ensures id.Some? ==> IsGenerated(id.value)
    {
      ghost var ids := Window(prefix, draws, at);
      assert ids[0..] == ids;
      for i := 0 to MAX_ATTEMPTS
        invariant Pick(Taken(), ids) == Pick(Taken(), ids[i..])
      {
        assert ids[i..][1..] == ids[i + 1..];
        var candidate := Candidate(prefix, draws(at + i));
        if candidate !in Taken() {
          CandidateForm(prefix, draws(at + i), draws(at + i));
          return Some(candidate);
        }
      }
      return None;
    }

    /** Other transactions commit tickets between this session's check and its insert. */
    method Interference(others: seq<(TicketId, string)>)
      requires Valid() && Drawn(others)
      modifies this`committed
      ensures Valid()
      ensures committed == CommitOthers(old(committed), Reserved(work), others)
    {
      CommitOthersGrow(committed, Reserved(work), others);
      committed := CommitOthers(committed, Reserved(work), others);
    }

    /** The insert inside its savepoint: a violation unwinds to the savepoint and nothing further. */
    method InsertInSavepoint(ticket: TicketId, id: string) returns (ok: bool)
      requires Valid() && IsGenerated(id)
      modifies this`work
      ensures ok == (id !in old(Taken()))
      ensures work == if ok then old(work) + [NewTicket(ticket, id)] else old(work)
      ensures Valid()
    {
      var savepoint := |work|;
      var conflict := id in Taken();
      work := work + [NewTicket(ticket, id)];
      if conflict {
        work := work[..savepoint];
        return false;
      }
      assert Reserved(work) == Reserved(old(work)) + {id};
      return true;
    }

    /** One round: pick a free id, let `others` commit meanwhile, insert. RacedOut asks for another round. */
    method TryInsert(ticket: TicketId, prefix: string, draws: nat -> nat, at: nat, others: seq<(TicketId, string)>)
      returns (r: Result)
      requires Valid() && IsDatePrefix(prefix) && Drawn(others) && forall k :: draws(k) < SUFFIX_MAX
      modifies this
      ensures Valid()
      ensures r == Exhausted <==> Pick(old(Taken()), Window(prefix, draws, at)).None?
      ensures r == Exhausted ==> committed == old(committed)
      ensures r != Exhausted ==>
                var id := Pick(old(Taken()), Window(prefix, draws, at)).value;
                && committed == CommitOthers(old(committed), Reserved(old(work)), others)
                && r == (if id in committed.Values then RacedOut else Inserted(id))
                && IsGenerated(id)
      ensures work == if r.Inserted? then old(work) + [NewTicket(ticket, r.shortId)] else old(work)
    {
      var id := GenerateTicketShortId(prefix, draws, at);
      if id.None? {
        return Exhausted;
      }
      Interference(others);
      var ok := InsertInSavepoint(ticket, id.value);
      return if ok then Inserted(id.value) else RacedOut;
    }

    /** Round k of the insertion: others have committed what they commit in the rounds before. */
    method RunRound(ticket: TicketId, e: World, k: nat, ghost rows: map<TicketId, string>) returns (r: Result)
      requires Valid() && Plausible(e) && committed == RowsAt(rows, Reserved(work), e, k)
      modifies this
      ensures Valid()
      ensures r == Round(rows, Reserved(old(work)), e, k)
      ensures committed == if r == Exhausted then old(committed) else RowsAt(rows, Reserved(old(work)), e, k + 1)
      ensures GrownFrom(old(committed), committed, Reserved(old(work)))
      ensures r.Inserted? ==> IsGenerated(r.shortId) && r.shortId !in old(Taken())
      ensures work == if r.Inserted? then old(work) + [NewTicket(ticket, r.shortId)] else old(work)
    {
      CommitOthersGrow(committed, Reserved(work), e.others(k));
      r := TryInsert(ticket, e.prefix(k), e.draws, k * MAX_ATTEMPTS, e.others(k));
    }

    /** `insert_ticket_with_short_id`. */
    method InsertTicketWithShortId(ticket: TicketId, e: World) returns (r: Result)
      requires Valid() && Plausible(e)
      modifies this
      ensures Valid()
      ensures GrownFrom(old(committed), committed, Reserved(old(work)))
      ensures r == Decided(Rounds(old(committed), Reserved(old(work)), e))
      // success adds exactly this ticket, under a well-formed id that nobody had; failure adds nothing
      ensures r.Inserted? ==> IsGenerated(r.shortId) && r.shortId !in old(Taken())
      ensures work == if r.Inserted? then old(work) + [NewTicket(ticket, r.shortId)] else old(work)
    {
      ghost var rows, held := committed, Reserved(work);
      AllRoundsDecide(rows, held, e);
      GrownTransitive(rows, rows, rows, held);
      for attempt := 0 to INSERT_RETRY_ATTEMPTS
        invariant Valid() && work == old(work) && committed == RowsAt(rows, held, e, attempt)
        invariant GrownFrom(rows, committed, held) && rows.Values <= committed.Values
        invariant DecidedFrom(rows, held, e, 0) == DecidedFrom(rows, held, e, attempt)
      {
        NextRound(rows, held, e, attempt);
        ghost var before := committed;
        r := RunRound(ticket, e, attempt, rows);
        GrownTransitive(rows, before, committed, held);
        if !r.RacedOut? {
          return;
        }
      }
      return RacedOut;
    }
  }

  /** In a valid session no two tickets, stored or pending, share an id, and every id has the documented form. */
  lemma ValidMeans(s: Session, a: TicketId, b: TicketId, i: nat, j: nat)
    requires s.Valid() && a in s.committed && b in s.committed && a != b
    requires i < j < |s.work| && s.work[i].NewTicket? && s.work[j].NewTicket?
    ensures s.committed[a] != s.committed[b]
    ensures s.work[i].shortId != s.work[j].shortId
    ensures s.committed[a] != s.work[i].shortId && s.committed[a] != s.work[j].shortId
    ensures IsGenerated(s.committed[a]) && IsGenerated(s.work[i].shortId) && IsGenerated(s.work[j].shortId)
  {
    assert s.work[i] in s.work && s.work[j] in s.work;
    assert s.committed[a] in s.committed.Values;
    assert s.work[i].shortId in Reserved(s.work) && s.work[j].shortId in Reserved(s.work);
  }
}
