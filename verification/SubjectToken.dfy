/**
 The ticket token in an email subject: `[#YYMMDD-NNNNNN]` is printed into outbound subjects by one
 part of the program and searched for in inbound subjects by another.
 */
module SubjectToken {
  import opened Basics

  predicate IsDigit(c: char) {
    '0' <= c <= '9'
  }

  /** The regular expression \d{6}-\d{4,6}, on all of s. */
  predicate IsShortId(s: string) {
    && 11 <= |s| <= 13
    && s[6] == '-'
    && forall i :: 0 <= i < |s| && i != 6 ==> IsDigit(s[i])
  }

  function Token(id: string): string {
    "[#" + id + "]"
  }

  // ---------------------------------------------------------------- searching

  /** The candidate with an id of n characters at position i. */
  predicate MatchesAt(s: string, i: nat, n: nat) {
    && i + n + 3 <= |s|
    && s[i] == '[' && s[i + 1] == '#' && s[i + 2 + n] == ']'
    && IsShortId(s[i + 2..i + 2 + n])
  }

  /** A regular expression match at position i: the suffix digits are tried greedily. */
  function MatchAt(s: string, i: nat): Option<string> {
    if MatchesAt(s, i, 13) then Some(s[i + 2..i + 15])
    else if MatchesAt(s, i, 12) then Some(s[i + 2..i + 14])
    else if MatchesAt(s, i, 11) then Some(s[i + 2..i + 13])
    else None
  }

  /** `re.search`: the leftmost match at or after i. */
  function SearchFrom(s: string, i: nat): Option<string>
    decreases |s| - i
  {
    if i >= |s| then None
    else if MatchAt(s, i).Some? then MatchAt(s, i)
    else SearchFrom(s, i + 1)
  }

  function Search(s: string): Option<string> {
    SearchFrom(s, 0)
  }

  // ---------------------------------------------------------------- what a search means

  /** The token of `id` stands at position i of s. */
  ghost predicate Occurs(s: string, i: nat, id: string) {
    IsShortId(id) && i + |id| + 3 <= |s| && s[i..i + |id| + 3] == Token(id)
  }

  /** What stands in a token: a bracket first, and never a space. */
  lemma OccursShape(s: string, i: nat, id: string)
    ensures Occurs(s, i, id) ==> s[i] == '['
    ensures Occurs(s, i, id) ==> forall k :: i <= k < i + |id| + 3 ==> s[k] != ' '
  {
    if Occurs(s, i, id) {
      var t := Token(id);
      assert forall k :: 0 <= k < |t| ==> t[k] != ' ' && s[i..i + |id| + 3][k] == s[i + k];
      forall k | i <= k < i + |id| + 3 ensures s[k] != ' ' {
        assert s[i..i + |id| + 3][k - i] == t[k - i];
      }
      assert t[0] == '[';
    }
  }

  ghost predicate NoTokenBefore(s: string, i: nat) {
    forall j: nat, id :: j < i ==> !Occurs(s, j, id)
  }

  lemma SliceOfSlice<T>(s: seq<T>, a: nat, b: nat, c: nat, d: nat)
    requires a <= b <= |s| && c <= d <= b - a
    ensures s[a..b][c..d] == s[a + c..a + d]
  {
    forall k | 0 <= k < d - c ensures s[a..b][c..d][k] == s[a + c..a + d][k] {
      assert s[a..b][c + k] == s[a + (c + k)];
    }
  }

  /** Inside a longer candidate there is a digit where a shorter one would need its bracket. */
  lemma LongerMatchHasDigit(s: string, i: nat, n: nat, longer: nat)
    requires MatchesAt(s, i, longer) && 11 <= n < longer
    ensures s[i + 2 + n] != ']'
  {
    assert s[i + 2..i + 2 + longer][n] == s[i + 2 + n];
  }

  lemma OccursIsMatch(s: string, i: nat, id: string)
    ensures MatchAt(s, i) == Some(id) <==> Occurs(s, i, id)
  {
    if Occurs(s, i, id) {
      var t := s[i..i + |id| + 3];
      assert t[0] == '[' && t[1] == '#' && t[|id| + 2] == ']';
      assert Token(id)[2..|id| + 2] == id;
      SliceOfSlice(s, i, i + |id| + 3, 2, |id| + 2);
      assert MatchesAt(s, i, |id|);
      forall n | |id| < n <= 13 ensures !MatchesAt(s, i, n) {
        if MatchesAt(s, i, n) {
          LongerMatchHasDigit(s, i, |id|, n);
        }
      }
    }
    if MatchAt(s, i) == Some(id) {
      assert MatchesAt(s, i, |id|);
      SliceOfSlice(s, i, i + |id| + 3, 2, |id| + 2);
      assert s[i..i + |id| + 3] == Token(id);
    }
  }

  lemma {:induction false} SearchFromMeans(s: string, i: nat, id: string)
    requires NoTokenBefore(s, i)
    ensures SearchFrom(s, i) == Some(id) <==> exists k: nat :: Occurs(s, k, id) && NoTokenBefore(s, k)
    ensures SearchFrom(s, i) == None <==> NoTokenBefore(s, |s|)
    decreases |s| - i
  {
    if i < |s| {
      forall x ensures MatchAt(s, i) == Some(x) <==> Occurs(s, i, x) {
        OccursIsMatch(s, i, x);
      }
      if MatchAt(s, i).Some? {
        var x := MatchAt(s, i).value;
        assert Occurs(s, i, x);
        forall k: nat | Occurs(s, k, id) && NoTokenBefore(s, k) ensures k == i {
          assert Occurs(s, i, x);
        }
      } else {
        assert NoTokenBefore(s, i + 1);
        SearchFromMeans(s, i + 1, id);
      }
    }
  }

  /** A search returns the id of the leftmost token, and nothing exactly when there is no token. */
  lemma SearchMeans(s: string, id: string)
    ensures Search(s) == Some(id) <==> exists k: nat :: Occurs(s, k, id) && NoTokenBefore(s, k)
    ensures Search(s) == None <==> NoTokenBefore(s, |s|)
  {
    SearchFromMeans(s, 0, id);
  }

  // ---------------------------------------------------------------- printing

  const DEFAULT_SUBJECT := "Support reply"

  predicate PartAt(s: string, part: string, i: nat) {
    i + |part| <= |s| && s[i..i + |part|] == part
  }

  predicate Contains(s: string, part: string) {
    exists i :: 0 <= i <= |s| && PartAt(s, part, i)
  }

  function BaseSubject(subject: Option<string>): string {
    if subject.None? || subject.value == "" then DEFAULT_SUBJECT else subject.value
  }

  /** The subject of an outbound email: the token is appended unless it is there already. */
  function OutboundSubject(subject: Option<string>, shortId: Option<string>): string {
    var base := BaseSubject(subject);
    if shortId.None? || shortId.value == "" || Contains(base, Token(shortId.value)) then base
    else base + " " + Token(shortId.value)
  }

  /** The shape of an id and of its token. */
  lemma ShapeMeans(s: string)
    ensures IsShortId(s) <==>
              && (|s| == 11 || |s| == 12 || |s| == 13)
              && s[6] == '-'
              && forall i :: 0 <= i < |s| && i != 6 ==> s[i] in "0123456789"
    ensures |Token(s)| == |s| + 3 && Token(s)[0] == '[' && Token(s)[1] == '#' && Token(s)[|s| + 2] == ']'
    ensures Token(s)[2..|s| + 2] == s
  {
    DigitMeans();
  }

  lemma DigitMeans()
    ensures forall c :: IsDigit(c) <==> c in "0123456789"
  {
    forall c ensures IsDigit(c) <==> c in "0123456789" {
      var digits := "0123456789";
      if IsDigit(c) {
        assert digits[c as int - '0' as int] == c;
      }
    }
  }

  lemma ContainsMeans(s: string, part: string)
    ensures Contains(s, part) <==> exists a: string, b: string :: s == a + part + b
  {
    if Contains(s, part) {
      var i :| 0 <= i <= |s| && PartAt(s, part, i);
      assert s == s[..i] + part + s[i + |part|..];
    }
    if a: string, b: string :| s == a + part + b {
      assert s[|a|..|a| + |part|] == part;
      assert PartAt(s, part, |a|);
    }
  }

  /** What is printed: the stored subject or "Support reply", and the token unless it is in there. */
  lemma OutboundMeans(subject: Option<string>, shortId: Option<string>)
    ensures var stored := if subject in {None, Some("")} then "Support reply" else subject.value;
            var printed := OutboundSubject(subject, shortId);
            && (shortId in {None, Some("")} ==> printed == stored)
            && (shortId !in {None, Some("")} ==>
                  var token := "[#" + shortId.value + "]";
                  printed == if exists a: string, b: string :: stored == a + token + b then stored
                             else stored + " " + token)
  {
    if shortId.Some? {
      ContainsMeans(BaseSubject(subject), Token(shortId.value));
    }
  }

  // ---------------------------------------------------------------- the round trip

  lemma OccursInTail(p: string, s: string, i: nat, id: string)
    ensures Occurs(p + s, |p| + i, id) <==> Occurs(s, i, id)
  {
    if i + |id| + 3 <= |s| {
      assert (p + s)[|p| + i..|p| + i + |id| + 3] == s[i..i + |id| + 3];
    }
  }

  /** A prefix without an opening bracket hides nothing and adds nothing. */
  lemma PrefixIsTransparent(p: string, s: string)
    requires '[' !in p
    ensures Search(p + s) == Search(s)
  {
    forall i: nat, id | i < |p| ensures !Occurs(p + s, i, id) {
      OccursShape(p + s, i, id);
      assert (p + s)[i] in p;
    }
    forall i: nat, id ensures Occurs(p + s, |p| + i, id) <==> Occurs(s, i, id) {
      OccursInTail(p, s, i, id);
    }
    if Search(s).Some? {
      var id := Search(s).value;
      SearchMeans(s, id);
      var k: nat :| Occurs(s, k, id) && NoTokenBefore(s, k);
      forall j: nat, x | j < |p| + k ensures !Occurs(p + s, j, x) {
        if j >= |p| {
          assert !Occurs(s, j - |p|, x);
        }
      }
      SearchMeans(p + s, id);
    } else {
      SearchMeans(s, "");
      forall j: nat, x | j < |p + s| ensures !Occurs(p + s, j, x) {
        if j >= |p| {
          assert !Occurs(s, j - |p|, x);
        }
      }
      SearchMeans(p + s, "");
    }
  }

  /** No token straddles the appended space: what occurs before the appended part lies in s. */
  lemma NoStraddle(s: string, t: string, i: nat, id: string)
    requires i < |s|
    ensures Occurs(s + " " + t, i, id) <==> Occurs(s, i, id)
  {
    var full := s + " " + t;
    if Occurs(s, i, id) {
      assert full[i..i + |id| + 3] == s[i..i + |id| + 3];
    }
    OccursShape(full, i, id);
    assert full[|s|] == ' ';
    if Occurs(full, i, id) {
      assert full[i..i + |id| + 3] == s[i..i + |id| + 3];
    }
  }

  /** Appending a token makes it found if and only if no other token stands before it. */
  lemma AppendedTokenIsFound(s: string, id: string)
    requires IsShortId(id)
    ensures Search(s + " " + Token(id)) == if Search(s).Some? then Search(s) else Some(id)
  {
    var full := s + " " + Token(id);
    forall i: nat, x | i < |s| ensures Occurs(full, i, x) <==> Occurs(s, i, x) {
      NoStraddle(s, Token(id), i, x);
    }
    if Search(s).Some? {
      var x := Search(s).value;
      SearchMeans(s, x);
      var k: nat :| Occurs(s, k, x) && NoTokenBefore(s, k);
      assert Occurs(full, k, x) && NoTokenBefore(full, k);
      SearchMeans(full, x);
    } else {
      SearchMeans(s, "");
      var k := |s| + 1;
      assert full[k..k + |id| + 3] == Token(id);
      assert Occurs(full, k, id);
      forall j: nat, x | j < k ensures !Occurs(full, j, x) {
        OccursShape(full, j, x);
        assert full[|s|] == ' ';
      }
      SearchMeans(full, id);
    }
  }

  /**
   The printed subject, behind any reply prefix without '[', leads the search back to the ticket's
   own id exactly when the stored subject does not already begin with the token of another ticket.
   */
  lemma TokenRoundTrip(subject: Option<string>, id: string, prefix: string)
    requires IsShortId(id) && '[' !in prefix
    ensures Search(prefix + OutboundSubject(subject, Some(id))) == Some(id) <==>
            Search(BaseSubject(subject)) in {None, Some(id)}
  {
    var base := BaseSubject(subject);
    PrefixIsTransparent(prefix, OutboundSubject(subject, Some(id)));
    if Contains(base, Token(id)) {
      var k :| 0 <= k <= |base| && PartAt(base, Token(id), k);
      assert Occurs(base, k, id);
      SearchMeans(base, id);
      assert !NoTokenBefore(base, |base|);
    } else {
      AppendedTokenIsFound(base, id);
    }
  }

  /** In particular for every subject whose only token, if any, is the ticket's own. */
  lemma OwnTokenRoundTrip(subject: Option<string>, id: string, prefix: string)
    requires IsShortId(id) && '[' !in prefix
    requires forall i: nat, x :: Occurs(BaseSubject(subject), i, x) ==> x == id
    ensures Search(prefix + OutboundSubject(subject, Some(id))) == Some(id)
  {
    var base := BaseSubject(subject);
    if Search(base).Some? {
      SearchMeans(base, Search(base).value);
    }
    TokenRoundTrip(subject, id, prefix);
  }
}
