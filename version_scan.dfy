/** Dedicated scanners for the version patterns the detectors search for.
    Each detector's regular expression is a fixed literal followed by one
    capture group; Go's `FindStringSubmatch` reports the capture of the
    leftmost position where the whole pattern matches. `FirstMatch` does
    that leftmost search for any literal and any recognizer of the capture:
      - `TripleAt` recognizes `(\d+\.\d+\.\d+)` (greedy, ASCII digits);
      - `QuotedAt` recognizes `(.+?)"` (shortest non-empty text, no line
        break, up to the next double quote). */
module VersionScan {
  import opened Wrappers
  import opened Text

  /** `t` occurs in `s` starting at index `i`. */
  predicate OccursAt(s: string, i: nat, t: string) {
    i + |t| <= |s| && s[i..i + |t|] == t
  }

  /** The end of the run of digits that starts at index `i`. */
  function DigitRunEnd(s: string, i: nat): (j: nat)
    requires i <= |s|
    ensures i <= j <= |s|
    ensures forall k | i <= k < j :: IsDigit(s[k])
    ensures j < |s| ==> !IsDigit(s[j])
    decreases |s| - i
  {
    if i == |s| || !IsDigit(s[i]) then i else DigitRunEnd(s, i + 1)
  }

  /** `t` is three non-empty digit groups joined by dots at `d1` and `d2`. */
  predicate TripleSplit(t: string, d1: nat, d2: nat) {
    && 0 < d1 && d1 + 1 < d2 && d2 + 1 < |t|
    && t[d1] == '.' && t[d2] == '.'
    && forall k | 0 <= k < |t| && k != d1 && k != d2 :: IsDigit(t[k])
  }

  /** A version triple `X.Y.Z` of decimal numbers. */
  ghost predicate IsVersionTriple(t: string) {
    exists d1: nat, d2: nat :: TripleSplit(t, d1, d2)
  }

  /** What `(\d+\.\d+\.\d+)` captures when matched at index `i`: a version
      triple found there whose last group is not followed by another digit
      (the greedy `\d+` takes the whole run). */
  function TripleAt(s: string, i: nat): (r: Option<string>)
    ensures r.Some? ==>
      && OccursAt(s, i, r.value)
      && IsVersionTriple(r.value)
      && (i + |r.value| == |s| || !IsDigit(s[i + |r.value|]))
  {
    if i > |s| then None
    else
      var a := DigitRunEnd(s, i);
      if a == i || a == |s| || s[a] != '.' then None
      else
        var b := DigitRunEnd(s, a + 1);
        if b == a + 1 || b == |s| || s[b] != '.' then None
        else
          var c := DigitRunEnd(s, b + 1);
          if c == b + 1 then None
          else
            assert TripleSplit(s[i..c], a - i, b - i);
            Some(s[i..c])
  }

  /** Every version triple that ends a digit run is found by `TripleAt`. */
  lemma TripleAtComplete(s: string, i: nat, t: string, d1: nat, d2: nat)
    requires OccursAt(s, i, t) && TripleSplit(t, d1, d2)
    requires i + |t| == |s| || !IsDigit(s[i + |t|])
    ensures TripleAt(s, i) == Some(t)
  {
    assert forall k | 0 <= k < |t| :: s[i + k] == t[k];
    assert DigitRunEnd(s, i) == i + d1;
    assert DigitRunEnd(s, i + d1 + 1) == i + d2;
    assert DigitRunEnd(s, i + d2 + 1) == i + |t|;
  }

  /** What `(.+?)"` captures when matched at index `i`: the text from `i` to
      the nearest double quote after it, holding at least one character and
      no line break. */
  function QuotedAt(s: string, i: nat): (r: Option<string>)
    ensures r.Some? ==>
      && |r.value| >= 1
      && OccursAt(s, i, r.value)
      && i + |r.value| < |s| && s[i + |r.value|] == '"'
      && '\n' !in r.value
      && '"' !in r.value[1..]
    ensures r.None? ==>
      forall j | i < j < |s| && s[j] == '"' :: '\n' in s[i..j]
  {
    if i >= |s| then None
    else
      match CloseQuote(s, i, i)
      case None => None
      case Some(j) =>
        assert s[i..j][1..] == s[i + 1..j];
        Some(s[i..j])
  }

  /** The index of the first double quote after `i`, scanning from `k`, as
      long as no line break comes first. */
  function CloseQuote(s: string, i: nat, k: nat): (r: Option<nat>)
    requires i <= k <= |s|
    requires forall m | i <= m < k :: s[m] != '\n'
    requires forall m | i < m < k :: s[m] != '"'
    ensures r.Some? ==>
      && i < r.value < |s| && s[r.value] == '"'
      && (forall m | i <= m < r.value :: s[m] != '\n')
      && (forall m | i < m < r.value :: s[m] != '"')
    ensures r.None? ==>
      forall j | i < j < |s| && s[j] == '"' :: '\n' in s[i..j]
    decreases |s| - k
  {
    if k == |s| then None
    else if k > i && s[k] == '"' then Some(k)
    else if s[k] == '\n' then
      assert forall j | k < j < |s| :: s[i..j][k - i] == '\n';
      None
    else CloseQuote(s, i, k + 1)
  }

  /** The literal `pre` followed, at index `p`, by a capture `at` recognizes. */
  function MatchAt(s: string, pre: string, at: (string, nat) -> Option<string>, p: nat): Option<string> {
    if OccursAt(s, p, pre) then at(s, p + |pre|) else None
  }

  /** `p` is the leftmost index where the pattern matches. */
  ghost predicate LeftmostMatch(s: string, pre: string, at: (string, nat) -> Option<string>, p: nat) {
    && p <= |s|
    && MatchAt(s, pre, at, p).Some?
    && forall q | 0 <= q < p :: MatchAt(s, pre, at, q).None?
  }

  /** The first index at or after `p` where the pattern matches, or `|s| + 1`. */
  function FirstMatchIndex(s: string, pre: string, at: (string, nat) -> Option<string>, p: nat): (q: nat)
    requires p <= |s| + 1
    ensures p <= q <= |s| + 1
    ensures q <= |s| ==> MatchAt(s, pre, at, q).Some?
    ensures forall m | p <= m < q :: MatchAt(s, pre, at, m).None?
    decreases |s| + 1 - p
  {
    if p == |s| + 1 || MatchAt(s, pre, at, p).Some? then p
    else FirstMatchIndex(s, pre, at, p + 1)
  }

  /** `FindStringSubmatch(s)[1]` for the pattern `pre` + capture: the capture
      at the leftmost matching index, or nothing when no index matches. */
  function FirstMatch(s: string, pre: string, at: (string, nat) -> Option<string>): (r: Option<string>)
    ensures r.Some? ==> exists p :: LeftmostMatch(s, pre, at, p) && r == MatchAt(s, pre, at, p)
    ensures r.None? <==> forall p | 0 <= p <= |s| :: MatchAt(s, pre, at, p).None?
  {
    var q := FirstMatchIndex(s, pre, at, 0);
    if q <= |s| then
      assert LeftmostMatch(s, pre, at, q);
      MatchAt(s, pre, at, q)
    else None
  }

  /** The pattern cannot match anywhere when `s` lacks a character of `pre`. */
  lemma NoMatchWithout(s: string, pre: string, at: (string, nat) -> Option<string>, k: nat)
    requires k < |pre| && pre[k] !in s
    ensures FirstMatch(s, pre, at) == None
  {
    forall p | 0 <= p <= |s|
      ensures MatchAt(s, pre, at, p).None?
    {
      if p + |pre| <= |s| {
        assert s[p..p + |pre|][k] == s[p + k];
        assert s[p + k] in s;
      }
    }
  }

  /** The pattern does not match when the only index holding the first
      character of `pre` is one where it does not match. */
  lemma NoMatchBut(s: string, pre: string, at: (string, nat) -> Option<string>, p: nat)
    requires pre != []
    requires forall q | 0 <= q < |s| && q != p :: s[q] != pre[0]
    requires MatchAt(s, pre, at, p).None?
    ensures FirstMatch(s, pre, at) == None
  {
    forall q | 0 <= q <= |s| && q != p
      ensures MatchAt(s, pre, at, q).None?
    {
      if q + |pre| <= |s| {
        assert s[q..q + |pre|][0] == s[q];
      }
    }
  }

  /** A match at `p` is the leftmost one when the first character of `pre`
      does not occur before `p`. */
  lemma FirstMatchIs(s: string, pre: string, at: (string, nat) -> Option<string>, p: nat)
    requires pre != [] && p <= |s|
    requires MatchAt(s, pre, at, p).Some?
    requires forall q | 0 <= q < p :: s[q] != pre[0]
    ensures FirstMatch(s, pre, at) == MatchAt(s, pre, at, p)
  {
    forall q | 0 <= q < p
      ensures MatchAt(s, pre, at, q).None?
    {
      if q + |pre| <= |s| {
        assert s[q..q + |pre|][0] == s[q];
      }
    }
    var r := FirstMatch(s, pre, at);
    assert r.Some?;
    var p' :| LeftmostMatch(s, pre, at, p') && r == MatchAt(s, pre, at, p');
    assert p' == p;
  }

  /** The leftmost match is the one `FirstMatch` reports. */
  lemma FirstMatchOfLeftmost(s: string, pre: string, at: (string, nat) -> Option<string>, p: nat)
    requires LeftmostMatch(s, pre, at, p)
    ensures FirstMatch(s, pre, at) == MatchAt(s, pre, at, p)
  {
    var r := FirstMatch(s, pre, at);
    assert r.Some?;
    var p': nat :| LeftmostMatch(s, pre, at, p') && r == MatchAt(s, pre, at, p');
    assert p' == p;
  }

  /** A version triple starts with a digit. */
  lemma TripleStartsWithDigit(t: string)
    requires IsVersionTriple(t)
    ensures t != [] && IsDigit(t[0])
  {
    var d1: nat, d2: nat :| TripleSplit(t, d1, d2);
    assert t[0] == t[0];
  }

  /** The triple that the pattern `pre(\d+\.\d+\.\d+)` captures in `s`: the
      capture at the leftmost index where `pre` is followed by a version
      triple, which is then found right after that occurrence of `pre`. */
  function FirstTripleAfter(s: string, pre: string): (r: Option<string>)
    ensures r.Some? ==> IsVersionTriple(r.value)
  {
    FirstMatch(s, pre, TripleAt)
  }

  /** `pre` does not start inside `lead` in the text `lead + pre`: the
      occurrence of `pre` right after `lead` is its first. */
  predicate NotBefore(lead: string, pre: string) {
    forall q | 0 <= q < |lead| :: !OccursAt(lead + pre, q, pre)
  }

  /** `pre` cannot start inside a `lead` that lacks its first character. */
  lemma NotBeforeWithout(lead: string, pre: string)
    requires pre != [] && pre[0] !in lead
    ensures NotBefore(lead, pre)
  {
    var h := lead + pre;
    forall q | 0 <= q < |lead|
      ensures !OccursAt(h, q, pre)
    {
      assert h[q..q + |pre|][0] == lead[q];
    }
  }

  /** Character `i` or character `j` of `pre` is not where it would be if
      `pre` started at index `q` of `h`. */
  predicate MissesAt(h: string, q: nat, pre: string, i: nat, j: nat)
    requires i < |pre| && j < |pre|
  {
    q + |pre| <= |h| ==> h[q + i] != pre[i] || h[q + j] != pre[j]
  }

  /** `pre` cannot start inside `lead` when, at every index of `lead`, one
      of two chosen characters of `pre` is missing. */
  lemma NotBeforeByTwo(lead: string, pre: string, i: nat, j: nat)
    requires i < |pre| && j < |pre|
    requires forall q | 0 <= q < |lead| :: MissesAt(lead + pre, q, pre, i, j)
    ensures NotBefore(lead, pre)
  {
    var h := lead + pre;
    forall q | 0 <= q < |lead|
      ensures !OccursAt(h, q, pre)
    {
      assert MissesAt(h, q, pre, i, j);
      assert h[q..q + |pre|][i] == h[q + i];
      assert h[q..q + |pre|][j] == h[q + j];
    }
  }

  /** The capture right after the first occurrence of `pre` is what the
      pattern captures, when `pre` occurs nowhere earlier. */
  lemma MatchAfterLead(lead: string, pre: string, tail: string, at: (string, nat) -> Option<string>)
    requires NotBefore(lead, pre)
    requires at(lead + pre + tail, |lead| + |pre|).Some?
    ensures FirstMatch(lead + pre + tail, pre, at) == at(lead + pre + tail, |lead| + |pre|)
  {
    var s := lead + pre + tail;
    assert s[|lead|..|lead| + |pre|] == pre;
    EarlierPrefixes(lead, pre, tail, at);
    assert LeftmostMatch(s, pre, at, |lead|);
    FirstMatchOfLeftmost(s, pre, at, |lead|);
  }

  /** The triple right after the first occurrence of `pre` is what the
      pattern `pre(\d+\.\d+\.\d+)` captures, when `pre` occurs nowhere earlier. */
  lemma TripleAfterIn(s: string, lead: string, pre: string, t: string, rest: string, d1: nat, d2: nat)
    requires NotBefore(lead, pre)
    requires TripleSplit(t, d1, d2)
    requires rest == [] || !IsDigit(rest[0])
    requires s == lead + pre + (t + rest)
    ensures FirstTripleAfter(s, pre) == Some(t)
  {
    TripleAfterLead(lead + pre, t, rest, d1, d2);
    MatchAfterLead(lead, pre, t + rest, TripleAt);
  }

  /** The triple that starts right after `h` is read whole. */
  lemma TripleAfterLead(h: string, t: string, rest: string, d1: nat, d2: nat)
    requires TripleSplit(t, d1, d2)
    requires rest == [] || !IsDigit(rest[0])
    ensures TripleAt(h + (t + rest), |h|) == Some(t)
  {
    var s := h + (t + rest);
    assert s[|h|..|h| + |t|] == t;
    assert rest != [] ==> s[|h| + |t|] == rest[0];
    TripleAtComplete(s, |h|, t, d1, d2);
  }

  /** The text right after the first occurrence of `pre` and up to the next
      quote is what the pattern `pre(.+?)"` captures, when `pre` occurs
      nowhere earlier. */
  lemma QuotedAfterIn(s: string, lead: string, pre: string, t: string, tail: string)
    requires NotBefore(lead, pre)
    requires |t| >= 1 && '\n' !in t && '"' !in t[1..]
    requires HasPrefix(tail, t + "\"")
    requires s == lead + pre + tail
    ensures FirstMatch(s, pre, QuotedAt) == Some(t)
  {
    QuotedAfterLead(lead + pre, t, tail);
    MatchAfterLead(lead, pre, tail, QuotedAt);
  }

  /** The quoted text that starts right after `h` is read up to its quote. */
  lemma QuotedAfterLead(h: string, t: string, tail: string)
    requires |t| >= 1 && '\n' !in t && '"' !in t[1..]
    requires HasPrefix(tail, t + "\"")
    ensures QuotedAt(h + tail, |h|) == Some(t)
  {
    var s := h + tail;
    var i := |h|;
    assert forall k | 0 <= k <= |t| :: s[i + k] == (t + "\"")[k];
    assert s[i + |t|] == '"';
    assert forall m | i < m < i + |t| :: s[m] == t[1..][m - i - 1];
    CloseQuoteReaches(s, i, i, i + |t|);
    assert s[i..i + |t|] == t;
  }

  /** `CloseQuote` scanning from `k` reaches the quote at `j`. */
  lemma {:induction false} CloseQuoteReaches(s: string, i: nat, k: nat, j: nat)
    requires i <= k <= j < |s| && s[j] == '"' && i < j
    requires forall m | i <= m < j :: s[m] != '\n'
    requires forall m | i < m < j :: s[m] != '"'
    ensures CloseQuote(s, i, k) == Some(j)
    decreases j - k
  {
    if k < j {
      CloseQuoteReaches(s, i, k + 1, j);
    }
  }

  /** No match starts inside `lead` when `pre` does not occur there. */
  lemma EarlierPrefixes(lead: string, pre: string, tail: string, at: (string, nat) -> Option<string>)
    requires NotBefore(lead, pre)
    ensures forall q | 0 <= q < |lead| :: MatchAt(lead + pre + tail, pre, at, q).None?
  {
    var s := lead + pre + tail;
    var h := lead + pre;
    assert s[..|h|] == h;
    forall q | 0 <= q < |lead|
      ensures !OccursAt(s, q, pre)
    {
      assert !OccursAt(h, q, pre);
      assert s[q..q + |pre|] == h[q..q + |pre|];
    }
  }
}
