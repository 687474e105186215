/** The few pieces of Go's `strings` package that the core relies on,
    written out over `seq<char>`: `TrimSpace`, `TrimPrefix`, `Fields`, and
    the first element of `Split(s, sep)` for a one-character separator.
    White space is what Go's `unicode.IsSpace` accepts. */
module Text {

  /** A decimal digit, as the regular-expression class `\d` (ASCII only). */
  predicate IsDigit(c: char) {
    '0' <= c <= '9'
  }

  /** Go's `unicode.IsSpace`: the ASCII white-space characters, NEL,
      NO-BREAK SPACE and the Unicode space separators. */
  predicate IsSpace(c: char) {
    || c == ' ' || c == '\t' || c == '\n' || c == '\r'
    || c == '\U{000B}' || c == '\U{000C}' || c == '\U{0085}' || c == '\U{00A0}'
    || c == '\U{1680}' || ('\U{2000}' <= c <= '\U{200A}')
    || c == '\U{2028}' || c == '\U{2029}' || c == '\U{202F}' || c == '\U{205F}'
    || c == '\U{3000}'
  }

  predicate AllSpace(s: string) {
    forall k | 0 <= k < |s| :: IsSpace(s[k])
  }

  predicate HasPrefix(s: string, p: string) {
    |p| <= |s| && s[..|p|] == p
  }

  /** `strings.TrimPrefix`: removes one leading copy of `p`, if there is one. */
  function TrimPrefix(s: string, p: string): (r: string)
    ensures HasPrefix(s, p) ==> p + r == s
    ensures !HasPrefix(s, p) ==> r == s
  {
    if HasPrefix(s, p) then
      assert s == s[..|p|] + s[|p|..];
      s[|p|..]
    else s
  }

  /** Removing a prefix that is there leaves what follows it. */
  lemma TrimPrefixOfPrefixed(p: string, x: string)
    ensures TrimPrefix(p + x, p) == x
  {
    assert (p + x)[..|p|] == p;
    assert (p + x)[|p|..] == x;
  }

  /** The first index at or after `i` that does not hold white space. */
  function SkipSpaces(s: string, i: nat): (j: nat)
    requires i <= |s|
    ensures i <= j <= |s|
    ensures forall k | i <= k < j :: IsSpace(s[k])
    ensures j < |s| ==> !IsSpace(s[j])
    decreases |s| - i
  {
    if i == |s| || !IsSpace(s[i]) then i else SkipSpaces(s, i + 1)
  }

  /** The end of `s[lo..j]` once its trailing white space is dropped. */
  function TrailingStart(s: string, lo: nat, j: nat): (b: nat)
    requires lo <= j <= |s|
    ensures lo <= b <= j
    ensures forall k | b <= k < j :: IsSpace(s[k])
    ensures b > lo ==> !IsSpace(s[b - 1])
    decreases j
  {
    if j == lo || !IsSpace(s[j - 1]) then j else TrailingStart(s, lo, j - 1)
  }

  /** `strings.TrimSpace`. The result is the part of `s` that starts at its
      first non-space character and ends after its last one; everything cut
      away on either side is white space. */
  function TrimSpace(s: string): (r: string)
    ensures |r| <= |s|
    ensures var a := SkipSpaces(s, 0);
      && a + |r| <= |s|
      && r == s[a..a + |r|]
      && AllSpace(s[..a])
      && AllSpace(s[a + |r|..])
    ensures r != [] ==> !IsSpace(r[0]) && !IsSpace(r[|r| - 1])
    ensures r == [] <==> AllSpace(s)
  {
    var a := SkipSpaces(s, 0);
    var b := TrailingStart(s, a, |s|);
    assert a < |s| ==> b > a;
    s[a..b]
  }

  /** A string with no leading or trailing white space is its own trim. */
  lemma TrimSpaceOfTrimmed(s: string)
    requires s != [] && !IsSpace(s[0]) && !IsSpace(s[|s| - 1])
    ensures TrimSpace(s) == s
  {
    assert SkipSpaces(s, 0) == 0;
    assert TrailingStart(s, 0, |s|) == |s|;
  }

  /** Trimming removes exactly the white space around a trimmed core. */
  lemma TrimSpaceOfPadded(u: string, r: string, w: string)
    requires AllSpace(u) && AllSpace(w)
    requires r != [] ==> !IsSpace(r[0]) && !IsSpace(r[|r| - 1])
    ensures TrimSpace(u + r + w) == r
  {
    var s := u + r + w;
    assert forall k | 0 <= k < |u| :: s[k] == u[k];
    assert forall k | 0 <= k < |r| :: s[|u| + k] == r[k];
    assert forall k | 0 <= k < |w| :: s[|u| + |r| + k] == w[k];
    if r == [] {
      assert forall k | 0 <= k < |s| :: IsSpace(s[k]) by {
        forall k | 0 <= k < |s|
          ensures IsSpace(s[k])
        {
          if k < |u| {
            assert s[k] == u[k];
          } else {
            assert s[k] == w[k - |u|];
          }
        }
      }
    } else {
      var a := SkipSpaces(s, 0);
      assert !IsSpace(s[|u|]);
      assert a == |u|;
      var b := TrailingStart(s, a, |s|);
      assert !IsSpace(s[|u| + |r| - 1]);
      assert forall k | |u| + |r| <= k < |s| :: IsSpace(s[k]) by {
        forall k | |u| + |r| <= k < |s|
          ensures IsSpace(s[k])
        {
          assert s[k] == w[k - |u| - |r|];
        }
      }
      assert b == |u| + |r|;
      assert s[a..b] == r;
    }
  }

  /** `strings.Split(s, [c])[0]`: the text before the first `c`, or all of
      `s` when it holds no `c`. */
  function UpToFirst(s: string, c: char): (r: string)
    ensures HasPrefix(s, r)
    ensures c !in r
    ensures |r| < |s| ==> s[|r|] == c
  {
    if s == [] then []
    else if s[0] == c then []
    else [s[0]] + UpToFirst(s[1..], c)
  }

  /** A field of `strings.Fields`: non-empty, without white space. */
  predicate IsField(w: string) {
    w != [] && forall k | 0 <= k < |w| :: !IsSpace(w[k])
  }

  /** `s` without its leading white space. */
  function DropSpaces(s: string): (r: string)
    ensures |r| <= |s|
    ensures r != [] ==> !IsSpace(r[0])
  {
    if s != [] && IsSpace(s[0]) then
      DropSpaces(s[1..])
    else s
  }

  /** What `DropSpaces` removes is white space, and what it keeps is the
      rest of `s`. */
  lemma {:induction false} DropSpacesSplits(s: string)
    ensures var r := DropSpaces(s);
      r == s[|s| - |r|..] && AllSpace(s[..|s| - |r|])
  {
    if s != [] && IsSpace(s[0]) {
      DropSpacesSplits(s[1..]);
      var r := DropSpaces(s[1..]);
      assert s[1..][..|s| - 1 - |r|] == s[1..|s| - |r|];
    }
  }

  /** The leading run of non-space characters of `s`. */
  function Word(s: string): (w: string)
    ensures HasPrefix(s, w)
    ensures forall k | 0 <= k < |w| :: !IsSpace(w[k])
    ensures |w| < |s| ==> IsSpace(s[|w|])
    ensures s != [] && !IsSpace(s[0]) ==> w != []
  {
    if s == [] || IsSpace(s[0]) then []
    else [s[0]] + Word(s[1..])
  }

  /** `strings.Fields`: the maximal runs of non-space characters, in order. */
  function Fields(s: string): (fs: seq<string>)
    ensures forall k | 0 <= k < |fs| :: IsField(fs[k])
    ensures fs == [] <==> AllSpace(s)
    decreases |s|
  {
    DropSpacesSplits(s);
    var t := DropSpaces(s);
    if t == [] then []
    else
      var w := Word(t);
      [w] + Fields(t[|w|..])
  }

  /** The words joined by single spaces, the inverse of `Fields`. */
  function JoinSpaced(fs: seq<string>): string {
    if fs == [] then ""
    else if |fs| == 1 then fs[0]
    else fs[0] + " " + JoinSpaced(fs[1..])
  }

  /** A field followed by nothing or by white space is the leading word. */
  lemma {:induction false} WordOfField(f: string, t: string)
    requires IsField(f)
    requires t == [] || IsSpace(t[0])
    ensures Word(f + t) == f
  {
    var s := f + t;
    assert s[0] == f[0];
    if |f| == 1 {
      assert s[1..] == t;
    } else {
      assert s[1..] == f[1..] + t;
      WordOfField(f[1..], t);
    }
  }

  /** A field followed by nothing or by white space is read off first. */
  lemma FieldsOfLeadingField(f: string, t: string)
    requires IsField(f)
    requires t == [] || IsSpace(t[0])
    ensures Fields(f + t) == [f] + Fields(t)
  {
    var s := f + t;
    assert s[0] == f[0];
    assert DropSpaces(s) == s;
    WordOfField(f, t);
    assert s[|f|..] == t;
  }

  /** Leading white space does not change the fields. */
  lemma FieldsOfLeadingSpace(t: string)
    ensures Fields(" " + t) == Fields(t)
  {
    assert (" " + t)[1..] == t;
    assert DropSpaces(" " + t) == DropSpaces(t);
  }

  /** A field, a space and more text: the field, then the fields of the rest. */
  lemma FieldsOfJoinStep(f: string, rest: string)
    requires IsField(f)
    ensures Fields(f + " " + rest) == [f] + Fields(rest)
  {
    assert f + " " + rest == f + (" " + rest);
    FieldsOfLeadingField(f, " " + rest);
    FieldsOfLeadingSpace(rest);
  }

  /** Leading white space, however long, does not change the fields. */
  lemma {:induction false} FieldsOfSpaces(u: string, t: string)
    requires AllSpace(u)
    ensures Fields(u + t) == Fields(t)
  {
    if u != [] {
      assert (u + t)[0] == u[0] && IsSpace(u[0]);
      assert (u + t)[1..] == u[1..] + t;
      FieldsOfSpaces(u[1..], t);
      assert DropSpaces(u + t) == DropSpaces(u[1..] + t);
      assert Fields(u + t) == Fields(u[1..] + t);
    } else {
      assert u + t == t;
    }
  }

  /** The words `fs` with the white space `gaps` around and between them:
      `gaps[0] + fs[0] + gaps[1] + ... + fs[n-1] + gaps[n]`. */
  function Interleave(fs: seq<string>, gaps: seq<string>): string
    requires |gaps| == |fs| + 1
  {
    if fs == [] then gaps[0]
    else gaps[0] + fs[0] + Interleave(fs[1..], gaps[1..])
  }

  /** Runs of white space that may separate words: the outer two may be
      empty, the inner ones may not. */
  predicate SpaceGaps(gaps: seq<string>) {
    && (forall i | 0 <= i < |gaps| :: AllSpace(gaps[i]))
    && (forall i | 0 < i < |gaps| - 1 :: gaps[i] != [])
  }

  /** Text that starts with a run of white space, non-empty when words
      follow, is empty or starts with white space. */
  lemma InterleaveStart(fs: seq<string>, gaps: seq<string>)
    requires |gaps| == |fs| + 1
    requires AllSpace(gaps[0]) && (fs != [] ==> gaps[0] != [])
    ensures var t := Interleave(fs, gaps); t == [] || IsSpace(t[0])
  {
    if fs != [] {
      assert Interleave(fs, gaps)[0] == gaps[0][0];
    }
  }

  /** Dropping the first run leaves gaps that may still separate words. */
  lemma SpaceGapsTail(gaps: seq<string>)
    requires |gaps| > 1 && SpaceGaps(gaps)
    ensures SpaceGaps(gaps[1..])
  {
    var inner := gaps[1..];
    assert forall i | 0 <= i < |inner| :: inner[i] == gaps[i + 1];
  }

  /** White space, a word, then text that is empty or starts with white
      space: the word, then the words of that text. */
  lemma FieldsOfGapAndField(g: string, f: string, t: string)
    requires AllSpace(g) && IsField(f)
    requires t == [] || IsSpace(t[0])
    ensures Fields(g + f + t) == [f] + Fields(t)
  {
    FieldsOfLeadingField(f, t);
    assert g + f + t == g + (f + t);
    FieldsOfSpaces(g, f + t);
  }

  /** `strings.Fields` splits on any run of white space: words separated by
      non-empty white space, with any white space before and after, are
      read back exactly. */
  lemma {:induction false} FieldsOfInterleave(fs: seq<string>, gaps: seq<string>)
    requires |gaps| == |fs| + 1 && SpaceGaps(gaps)
    requires forall k | 0 <= k < |fs| :: IsField(fs[k])
    ensures Fields(Interleave(fs, gaps)) == fs
  {
    if fs != [] {
      var rest := fs[1..];
      assert forall k | 0 <= k < |rest| :: rest[k] == fs[k + 1];
      SpaceGapsTail(gaps);
      FieldsOfInterleave(rest, gaps[1..]);
      InterleaveStart(rest, gaps[1..]);
      FieldsOfGapAndField(gaps[0], fs[0], Interleave(rest, gaps[1..]));
      assert fs == [fs[0]] + rest;
    }
  }

  /** Round trip: splitting single-space-joined fields gives the fields back. */
  lemma {:induction false} FieldsOfJoin(fs: seq<string>)
    requires forall k | 0 <= k < |fs| :: IsField(fs[k])
    ensures Fields(JoinSpaced(fs)) == fs
  {
    if |fs| == 1 {
      FieldsOfLeadingField(fs[0], "");
      assert fs[0] + "" == fs[0];
    } else if |fs| > 1 {
      var tail := fs[1..];
      assert forall k | 0 <= k < |tail| :: tail[k] == fs[k + 1];
      FieldsOfJoin(tail);
      FieldsOfJoinStep(fs[0], JoinSpaced(tail));
      assert fs == [fs[0]] + tail;
    }
  }
}
