/** String operations with the JavaScript semantics the audit code relies on:
    `trim`, `\s`, `\b`, `toLowerCase` (ASCII part), `includes`, `endsWith`,
    `split(/\s+/)` and the decimal rendering of integers in template strings.
    A `char` is one Unicode scalar value, so `|s|` agrees with JavaScript's `length` (which
    counts UTF-16 code units) only for text inside the Basic Multilingual Plane. */
module Text {

  /** JavaScript WhiteSpace and LineTerminator: exactly what `\s` matches and `trim` strips. */
  predicate IsSpace(c: char) {
    || c == '\t' || c == '\n' || c == '\U{000B}' || c == '\U{000C}' || c == '\r' || c == ' '
    || c == '\U{00A0}' || c == '\U{1680}' || ('\U{2000}' <= c <= '\U{200A}')
    || c == '\U{2028}' || c == '\U{2029}' || c == '\U{202F}' || c == '\U{205F}'
    || c == '\U{3000}' || c == '\U{FEFF}'
  }

  predicate AllSpace(s: string) {
    forall i | 0 <= i < |s| :: IsSpace(s[i])
  }

  /** No leading and no trailing whitespace. */
  predicate IsTrimmed(s: string) {
    s == [] || (!IsSpace(s[0]) && !IsSpace(s[|s| - 1]))
  }

  /** `s` without its leading whitespace. */
  function TrimStart(s: string): (r: string)
    ensures |r| <= |s|
  {
    if s != [] && IsSpace(s[0]) then TrimStart(s[1..]) else s
  }

  /** What `TrimStart` removes is a whitespace prefix, and what it keeps does not start with
      whitespace. */
  lemma {:induction false} TrimStartSpec(s: string)
    ensures var r := TrimStart(s);
      && r == s[|s| - |r|..] && AllSpace(s[..|s| - |r|]) && (r == [] || !IsSpace(r[0]))
    decreases |s|
  {
    if s != [] && IsSpace(s[0]) {
      var r := TrimStart(s[1..]);
      TrimStartSpec(s[1..]);
      assert s[..|s| - |r|] == [s[0]] + s[1..][..|s| - 1 - |r|];
    }
  }

  /** `s` without its trailing whitespace. */
  function TrimEnd(s: string): (r: string)
    ensures |r| <= |s|
  {
    if s != [] && IsSpace(s[|s| - 1]) then TrimEnd(s[..|s| - 1]) else s
  }

  /** What `TrimEnd` removes is a whitespace suffix, and what it keeps does not end with
      whitespace. */
  lemma {:induction false} TrimEndSpec(s: string)
    ensures var r := TrimEnd(s);
      && r == s[..|r|] && AllSpace(s[|r|..]) && (r == [] || !IsSpace(r[|r| - 1]))
    decreases |s|
  {
    if s != [] && IsSpace(s[|s| - 1]) {
      var r := TrimEnd(s[..|s| - 1]);
      TrimEndSpec(s[..|s| - 1]);
      assert s[|r|..] == s[..|s| - 1][|r|..] + [s[|s| - 1]];
    }
  }

  /** `String.prototype.trim`: `s` without its maximal leading and trailing whitespace runs. */
  function Trim(s: string): (r: string)
    ensures |r| <= |s| && IsTrimmed(r)
  {
    var t := TrimStart(s);
    TrimStartSpec(s);
    var r := TrimEnd(t);
    TrimEndSpec(t);
    r
  }

  /** Trimming leaves nothing exactly when there is nothing but whitespace. */
  lemma TrimEmpty(s: string)
    ensures Trim(s) == [] <==> AllSpace(s)
  {
    var t := TrimStart(s);
    TrimStartSpec(s);
    var r := TrimEnd(t);
    TrimEndSpec(t);
    assert r == [] ==> s == s[..|s| - |t|] + t[|r|..];
  }

  /** Trimming removes whitespace at the two ends and nothing else: the result is the infix of
      `s` starting at `a` with only whitespace around it. */
  lemma TrimRemovesOnlyEnds(s: string) returns (a: nat)
    ensures a + |Trim(s)| <= |s| && Trim(s) == s[a..a + |Trim(s)|]
    ensures AllSpace(s[..a]) && AllSpace(s[a + |Trim(s)|..])
  {
    var t := TrimStart(s);
    TrimStartSpec(s);
    var r := TrimEnd(t);
    TrimEndSpec(t);
    assert Trim(s) == r;
    a := |s| - |t|;
    assert t == s[a..];
    assert r == t[..|r|];
    SliceOfSuffix(s, a, |r|);
  }

  /** The first `n` characters of the suffix of `s` from `a` are the infix from `a` to
      `a + n`, and what follows them is the suffix from `a + n`. */
  lemma SliceOfSuffix(s: string, a: nat, n: nat)
    requires a + n <= |s|
    ensures s[a..][..n] == s[a..a + n]
    ensures s[a..][n..] == s[a + n..]
  {
  }

  /** Trimming changes nothing exactly when there is no whitespace at either end. */
  lemma TrimFixedPoint(s: string)
    ensures Trim(s) == s <==> IsTrimmed(s)
  {
    if IsTrimmed(s) {
      assert TrimStart(s) == s;
      assert TrimEnd(s) == s;
    }
  }

  /** ASCII part of `toLowerCase`. */
  function LowerChar(c: char): char {
    if 'A' <= c <= 'Z' then (c as int + 32) as char else c
  }

  function Lower(s: string): (r: string)
    ensures |r| == |s|
    ensures forall i | 0 <= i < |s| :: r[i] == LowerChar(s[i])
  {
    seq(|s|, i requires 0 <= i < |s| => LowerChar(s[i]))
  }

  /** Lower-casing leaves no ASCII capital behind, changes exactly the strings that hold one,
      and is idempotent. */
  lemma LowerFixedPoint(s: string)
    ensures forall i | 0 <= i < |s| :: !('A' <= Lower(s)[i] <= 'Z')
    ensures Lower(s) == s <==> forall i | 0 <= i < |s| :: !('A' <= s[i] <= 'Z')
    ensures Lower(Lower(s)) == Lower(s)
  {
    if Lower(s) == s {
      forall i | 0 <= i < |s| ensures !('A' <= s[i] <= 'Z') {
        assert Lower(s)[i] == s[i];
      }
    }
  }

  /** `t` occurs in `s` starting at index `i`. */
  predicate OccursAt(s: string, t: string, i: int) {
    0 <= i && i + |t| <= |s| && s[i..i + |t|] == t
  }

  /** `String.prototype.includes`. */
  predicate Contains(s: string, t: string) {
    exists i | 0 <= i <= |s| - |t| :: OccursAt(s, t, i)
  }

  /** Appending a character that `t` does not contain cannot create an occurrence of `t`. */
  lemma ContainsAppend(s: string, t: string, c: char)
    requires c !in t
    ensures Contains(s + [c], t) <==> Contains(s, t)
  {
    var s' := s + [c];
    if t == [] {
      assert OccursAt(s, t, 0) && OccursAt(s', t, 0);
    } else if Contains(s', t) {
      var i :| 0 <= i <= |s'| - |t| && OccursAt(s', t, i);
      assert s'[i + |t| - 1] == t[|t| - 1] && t[|t| - 1] in t;
      assert i + |t| <= |s|;
      assert s'[i..i + |t|] == s[i..i + |t|];
      assert OccursAt(s, t, i);
    }
    if Contains(s, t) {
      var i :| 0 <= i <= |s| - |t| && OccursAt(s, t, i);
      assert s'[i..i + |t|] == s[i..i + |t|];
      assert OccursAt(s', t, i);
    }
  }

  /** Some string of `ts` occurs in `s`. */
  predicate ContainsAny(s: string, ts: seq<string>) {
    exists k | 0 <= k < |ts| :: Contains(s, ts[k])
  }

  /** Some character of `s` is one of `cs` (a one-character regex class `[...]`). */
  predicate HasCharIn(s: string, cs: string) {
    exists i | 0 <= i < |s| :: s[i] in cs
  }

  /** `String.prototype.endsWith`. */
  predicate EndsWith(s: string, t: string) {
    |t| <= |s| && s[|s| - |t|..] == t
  }

  /** `/^[A-Z]/`. */
  predicate StartsWithUpper(s: string) {
    |s| > 0 && 'A' <= s[0] <= 'Z'
  }

  // ---------------------------------------------------------------- word boundaries

  /** The regex class `\w` outside Unicode mode: `[A-Za-z0-9_]`. */
  predicate IsWordChar(c: char) {
    ('a' <= c <= 'z') || ('A' <= c <= 'Z') || ('0' <= c <= '9') || c == '_'
  }

  predicate WordCharBefore(s: string, i: int) {
    0 < i <= |s| && IsWordChar(s[i - 1])
  }

  predicate WordCharAt(s: string, i: int) {
    0 <= i < |s| && IsWordChar(s[i])
  }

  /** `\b` at position `i`: a word character on exactly one side. */
  predicate IsBoundary(s: string, i: int) {
    WordCharBefore(s, i) != WordCharAt(s, i)
  }

  /** `\bw\b` matches at `i`. */
  predicate WholeWordAt(s: string, w: string, i: int) {
    OccursAt(s, w, i) && IsBoundary(s, i) && IsBoundary(s, i + |w|)
  }

  predicate HasWholeWord(s: string, w: string) {
    exists i | 0 <= i <= |s| - |w| :: WholeWordAt(s, w, i)
  }

  /** `/\bw\b/i` matches at `i`, for a lower-case pattern `w`. */
  predicate WholeWordAtIgnoreCase(s: string, w: string, i: int) {
    0 <= i && i + |w| <= |s| && Lower(s[i..i + |w|]) == w && IsBoundary(s, i) && IsBoundary(s, i + |w|)
  }

  predicate HasWholeWordIgnoreCase(s: string, w: string) {
    exists i | 0 <= i <= |s| - |w| :: WholeWordAtIgnoreCase(s, w, i)
  }

  /** `/\b(w1|w2|...)\b/`: the regex engine backtracks over every start and every alternative. */
  predicate HasAnyWholeWord(s: string, ws: seq<string>) {
    exists k | 0 <= k < |ws| :: HasWholeWord(s, ws[k])
  }

  /** Left-to-right search for `\bw\b` from index `i` on, as the regex engine performs it. */
  function FindWholeWordFrom(s: string, w: string, i: nat): bool
    decreases |s| - i
  {
    if i + |w| > |s| then false else WholeWordAt(s, w, i) || FindWholeWordFrom(s, w, i + 1)
  }

  /** The search finds a match exactly when one exists at or after `i`. */
  lemma {:induction false} FindWholeWordFromIsSearch(s: string, w: string, i: nat)
    decreases |s| - i
    ensures FindWholeWordFrom(s, w, i) <==> exists j | i <= j <= |s| - |w| :: WholeWordAt(s, w, j)
  {
    if i + |w| <= |s| { FindWholeWordFromIsSearch(s, w, i + 1); }
  }

  predicate HasAnyWholeWordIgnoreCase(s: string, ws: seq<string>) {
    exists k | 0 <= k < |ws| :: HasWholeWordIgnoreCase(s, ws[k])
  }

  lemma LowerKeepsWordChars(c: char)
    ensures IsWordChar(LowerChar(c)) == IsWordChar(c)
  {
  }

  /** Matching `/\bw\b/i` against `s` is matching `/\bw\b/` against the lower-cased `s`. */
  lemma IgnoreCaseIsLowered(s: string, w: string)
    ensures HasWholeWordIgnoreCase(s, w) <==> HasWholeWord(Lower(s), w)
  {
    var l := Lower(s);
    forall i | 0 <= i <= |s|
      ensures IsBoundary(s, i) == IsBoundary(l, i)
    {
      if 0 < i { LowerKeepsWordChars(s[i - 1]); }
      if i < |s| { LowerKeepsWordChars(s[i]); }
    }
    forall i | 0 <= i <= |s| - |w|
      ensures WholeWordAtIgnoreCase(s, w, i) == WholeWordAt(l, w, i)
    {
      assert Lower(s[i..i + |w|]) == l[i..i + |w|];
    }
  }

  /** Appending a non-word character leaves every boundary up to the old end as it was. */
  lemma BoundaryAfterAppend(s: string, c: char, i: int)
    requires !IsWordChar(c) && 0 <= i <= |s|
    ensures IsBoundary(s + [c], i) == IsBoundary(s, i)
  {
    var s' := s + [c];
    if 0 < i { assert s'[i - 1] == s[i - 1]; }
    if i < |s| { assert s'[i] == s[i]; }
  }

  /** A match in `s` is still a match once a non-word character is appended. */
  lemma MatchSurvivesAppend(s: string, w: string, c: char, i: int)
    requires !IsWordChar(c)
    requires WholeWordAtIgnoreCase(s, w, i)
    ensures WholeWordAtIgnoreCase(s + [c], w, i)
  {
    assert (s + [c])[i..i + |w|] == s[i..i + |w|];
    BoundaryAfterAppend(s, c, i);
    BoundaryAfterAppend(s, c, i + |w|);
  }

  /** A match of a word ending in a word character, in `s + [c]` with `c` a non-word character,
      is a match in `s`. */
  lemma MatchBeforeAppend(s: string, w: string, c: char, i: int)
    requires |w| > 0 && IsWordChar(w[|w| - 1])
    requires !IsWordChar(c)
    requires WholeWordAtIgnoreCase(s + [c], w, i)
    ensures WholeWordAtIgnoreCase(s, w, i)
  {
    var s' := s + [c];
    var last := s'[i + |w| - 1];
    assert Lower(s'[i..i + |w|])[|w| - 1] == LowerChar(last);
    LowerKeepsWordChars(last);
    assert i + |w| <= |s|;
    assert s'[i..i + |w|] == s[i..i + |w|];
    BoundaryAfterAppend(s, c, i);
    BoundaryAfterAppend(s, c, i + |w|);
  }

  /** Appending a non-word character keeps every whole-word match of a word made of word characters,
      and adds none. */
  lemma WholeWordIgnoreCaseAppend(s: string, w: string, c: char)
    requires |w| > 0 && forall k | 0 <= k < |w| :: IsWordChar(w[k])
    requires !IsWordChar(c)
    ensures HasWholeWordIgnoreCase(s + [c], w) <==> HasWholeWordIgnoreCase(s, w)
  {
    if HasWholeWordIgnoreCase(s + [c], w) {
      var i :| 0 <= i <= |s + [c]| - |w| && WholeWordAtIgnoreCase(s + [c], w, i);
      MatchBeforeAppend(s, w, c, i);
    }
    if HasWholeWordIgnoreCase(s, w) {
      var i :| 0 <= i <= |s| - |w| && WholeWordAtIgnoreCase(s, w, i);
      MatchSurvivesAppend(s, w, c, i);
    }
  }

  /** A whole-word match of a word made of word characters spans exactly the run of word
      characters that starts where it starts. */
  lemma WholeWordIsRun(s: string, w: string, i: int, j: int)
    requires |w| > 0 && forall t | 0 <= t < |w| :: IsWordChar(w[t])
    requires WholeWordAt(s, w, i)
    requires i <= j <= |s| && (j == |s| || !IsWordChar(s[j]))
    requires forall t | i <= t < j :: IsWordChar(s[t])
    ensures w == s[i..j]
  {
  }

  // ---------------------------------------------------------------- split(/\s+/)

  /** Length of the longest prefix of `s` without whitespace. */
  function NonSpacePrefix(s: string): (n: nat)
    ensures n <= |s|
    ensures forall i | 0 <= i < n :: !IsSpace(s[i])
    ensures n < |s| ==> IsSpace(s[n])
  {
    if s == [] || IsSpace(s[0]) then 0 else 1 + NonSpacePrefix(s[1..])
  }

  /** Length of the longest prefix of `s` made of whitespace. */
  function SpacePrefix(s: string): (n: nat)
    ensures n <= |s|
    ensures forall i | 0 <= i < n :: IsSpace(s[i])
    ensures n < |s| ==> !IsSpace(s[n])
  {
    if s == [] || !IsSpace(s[0]) then 0 else 1 + SpacePrefix(s[1..])
  }

  /** The characters of `s` that are not whitespace, in order. */
  function WithoutSpace(s: string): string {
    if s == [] then [] else (if IsSpace(s[0]) then [] else [s[0]]) + WithoutSpace(s[1..])
  }

  function Concat(ss: seq<string>): string {
    if ss == [] then [] else ss[0] + Concat(ss[1..])
  }

  /** `s.split(/\s+/)`: the pieces between maximal whitespace runs. A leading or trailing run
      yields an empty first or last piece, and the empty string yields `[""]`. */
  function SplitOnSpace(s: string): (r: seq<string>)
    decreases |s|
    ensures |r| >= 1
  {
    var n := NonSpacePrefix(s);
    if n == |s| then [s]
    else
      var rest := s[n..];
      var m := SpacePrefix(rest);
      [s[..n]] + SplitOnSpace(rest[m..])
  }

  lemma WithoutSpaceAppend(a: string, b: string)
    ensures WithoutSpace(a + b) == WithoutSpace(a) + WithoutSpace(b)
  {
    if a == [] {
      assert a + b == b;
    } else {
      assert (a + b)[0] == a[0];
      assert (a + b)[1..] == a[1..] + b;
      WithoutSpaceAppend(a[1..], b);
    }
  }

  lemma WithoutSpaceOfSpaces(s: string)
    requires AllSpace(s)
    ensures WithoutSpace(s) == []
  {
    if s != [] { WithoutSpaceOfSpaces(s[1..]); }
  }

  lemma WithoutSpaceOfNonSpaces(s: string)
    requires forall i | 0 <= i < |s| :: !IsSpace(s[i])
    ensures WithoutSpace(s) == s
  {
    if s != [] { WithoutSpaceOfNonSpaces(s[1..]); }
  }

  lemma WithoutSpaceOfSeparated(a: string, b: string, c: string)
    requires forall i | 0 <= i < |a| :: !IsSpace(a[i])
    requires AllSpace(b)
    ensures WithoutSpace(a + (b + c)) == a + WithoutSpace(c)
  {
    WithoutSpaceAppend(a, b + c);
    assert WithoutSpace(a) == a by { WithoutSpaceOfNonSpaces(a); }
    assert WithoutSpace(b + c) == WithoutSpace(c) by {
      WithoutSpaceAppend(b, c);
      WithoutSpaceOfSpaces(b);
      assert [] + WithoutSpace(c) == WithoutSpace(c);
    }
  }

  lemma ConcatCons(a: string, ss: seq<string>)
    ensures Concat([a] + ss) == a + Concat(ss)
  {
    assert ([a] + ss)[1..] == ss;
  }

  /** `SplitOnSpace` on a string with some whitespace: the leading word, then the split of what
      follows the first whitespace run. */
  lemma SplitOnSpaceStep(s: string) returns (a: string, b: string, c: string)
    requires NonSpacePrefix(s) < |s|
    ensures s == a + (b + c) && AllSpace(b) && b != []
    ensures forall i | 0 <= i < |a| :: !IsSpace(a[i])
    ensures SplitOnSpace(s) == [a] + SplitOnSpace(c) && |c| < |s|
    ensures c == [] || !IsSpace(c[0])
  {
    var n := NonSpacePrefix(s);
    var rest := s[n..];
    assert IsSpace(rest[0]);
    var m := SpacePrefix(rest);
    a, b, c := s[..n], rest[..m], rest[m..];
    assert SplitOnSpace(s) == [a] + SplitOnSpace(c);
    ThreeSlices(s, n, m);
  }

  /** Cutting `s` at `n` and its suffix at `m` gives three pieces that make up `s`. */
  lemma ThreeSlices(s: string, n: nat, m: nat)
    requires n + m <= |s|
    ensures s == s[..n] + (s[n..][..m] + s[n..][m..])
    ensures forall i | 0 <= i < n :: s[..n][i] == s[i]
    ensures forall i | 0 <= i < m :: s[n..][..m][i] == s[n..][i]
  {
    assert s[n..] == s[n..][..m] + s[n..][m..];
    assert s == s[..n] + s[n..];
  }

  /** The pieces of `split(/\s+/)`, put back together, are `s` with its whitespace removed. */
  lemma {:induction false} SplitOnSpaceLosesOnlySpace(s: string)
    decreases |s|
    ensures Concat(SplitOnSpace(s)) == WithoutSpace(s)
  {
    if NonSpacePrefix(s) == |s| {
      WithoutSpaceOfNonSpaces(s);
      ConcatCons(s, []);
    } else {
      var a, b, c := SplitOnSpaceStep(s);
      SplitOnSpaceLosesOnlySpace(c);
      WithoutSpaceOfSeparated(a, b, c);
      ConcatCons(a, SplitOnSpace(c));
    }
  }

  predicate NoSpace(t: string) {
    forall i | 0 <= i < |t| :: !IsSpace(t[i])
  }

  /** `pieces` with `seps[k]` placed between `pieces[k]` and `pieces[k + 1]`. */
  function Interleave(pieces: seq<string>, seps: seq<string>): string
    requires |pieces| == |seps| + 1
    decreases |seps|
  {
    if seps == [] then pieces[0] else pieces[0] + (seps[0] + Interleave(pieces[1..], seps[1..]))
  }

  /** `s` is `pieces` separated by the whitespace runs `seps`: the pieces hold no whitespace,
      every separator is a non-empty whitespace run, and only the first and last piece may be
      empty. */
  predicate SplitsInto(s: string, pieces: seq<string>, seps: seq<string>) {
    && |pieces| == |seps| + 1
    && (forall k | 0 <= k < |pieces| :: NoSpace(pieces[k]))
    && (forall k | 0 < k < |pieces| - 1 :: pieces[k] != [])
    && (forall k | 0 <= k < |seps| :: seps[k] != [] && AllSpace(seps[k]))
    && Interleave(pieces, seps) == s
  }

  /** The first piece of a split of a string that starts with a non-space is not empty. */
  lemma SplitOnSpaceFirstNonEmpty(s: string)
    requires s != [] && !IsSpace(s[0])
    ensures SplitOnSpace(s)[0] != [] && SplitOnSpace(s)[0] == s[..NonSpacePrefix(s)]
  {
    assert NonSpacePrefix(s) > 0;
  }

  /** Putting a piece and a separator in front of a split gives a split of the longer string. */
  lemma SplitsIntoCons(a: string, b: string, c: string, rc: seq<string>, sc: seq<string>)
    requires NoSpace(a) && b != [] && AllSpace(b)
    requires SplitsInto(c, rc, sc) && (|rc| >= 2 ==> rc[0] != [])
    ensures SplitsInto(a + (b + c), [a] + rc, [b] + sc)
  {
    var r, seps := [a] + rc, [b] + sc;
    assert r[1..] == rc && seps[1..] == sc;
    assert forall k | 0 < k < |r| :: r[k] == rc[k - 1];
    assert forall k | 0 < k < |seps| :: seps[k] == sc[k - 1];
  }

  lemma SplitOnSpaceOfNoSpace(s: string)
    requires NoSpace(s)
    ensures SplitOnSpace(s) == [s]
  {
    assert NonSpacePrefix(s) == |s|;
  }

  /** `split(/\s+/)` cuts `s` at its whitespace runs: the pieces and some separators satisfy
      `SplitsInto`. */
  lemma {:induction false} SplitOnSpaceSplits(s: string)
    decreases |s|
    ensures exists seps :: SplitsInto(s, SplitOnSpace(s), seps)
  {
    if NoSpace(s) {
      SplitOnSpaceOfNoSpace(s);
      var none: seq<string> := [];
      assert SplitsInto(s, [s], none);
    } else {
      var a, b, c := SplitOnSpaceStep(s);
      SplitOnSpaceSplits(c);
      var rc := SplitOnSpace(c);
      var sc :| SplitsInto(c, rc, sc);
      if |rc| >= 2 {
        SplitOnSpaceFirstNonEmpty(c);
      }
      SplitsIntoCons(a, b, c, rc, sc);
    }
  }

  lemma {:induction false} NonSpacePrefixOf(a: string, t: string)
    requires NoSpace(a) && t != [] && IsSpace(t[0])
    ensures NonSpacePrefix(a + t) == |a|
    decreases |a|
  {
    if a == [] {
      assert a + t == t;
    } else {
      assert (a + t)[1..] == a[1..] + t;
      NonSpacePrefixOf(a[1..], t);
    }
  }

  lemma {:induction false} SpacePrefixOf(b: string, t: string)
    requires AllSpace(b) && (t == [] || !IsSpace(t[0]))
    ensures SpacePrefix(b + t) == |b|
    decreases |b|
  {
    if b == [] {
      assert b + t == t;
    } else {
      assert (b + t)[1..] == b[1..] + t;
      SpacePrefixOf(b[1..], t);
    }
  }

  /** A piece, a whitespace run and a rest that does not start with whitespace split into the
      piece followed by the split of the rest. */
  lemma SplitOnSpaceCons(a: string, b: string, rest: string)
    requires NoSpace(a) && b != [] && AllSpace(b) && (rest == [] || !IsSpace(rest[0]))
    ensures SplitOnSpace(a + (b + rest)) == [a] + SplitOnSpace(rest)
  {
    var s := a + (b + rest);
    NonSpacePrefixOf(a, b + rest);
    SpacePrefixOf(b, rest);
    assert s[|a|..] == b + rest;
    assert (b + rest)[|b|..] == rest;
  }

  /** A split with at least one separator is its first piece and separator in front of the
      split of the rest. */
  lemma SplitsIntoTail(s: string, pieces: seq<string>, seps: seq<string>)
    requires SplitsInto(s, pieces, seps) && seps != []
    ensures var rest := Interleave(pieces[1..], seps[1..]);
      && s == pieces[0] + (seps[0] + rest)
      && NoSpace(pieces[0]) && seps[0] != [] && AllSpace(seps[0])
      && SplitsInto(rest, pieces[1..], seps[1..])
      && (rest == [] || !IsSpace(rest[0]))
  {
    var r', seps' := pieces[1..], seps[1..];
    var rest := Interleave(r', seps');
    assert forall k | 0 <= k < |r'| :: r'[k] == pieces[k + 1];
    assert forall k | 0 <= k < |seps'| :: seps'[k] == seps[k + 1];
    if r'[0] != [] {
      assert rest[0] == r'[0][0];
    }
  }

  /** Only one list of pieces splits `s` this way, so `SplitsInto` determines `split(/\s+/)`. */
  lemma {:induction false} SplitOnSpaceUnique(s: string, pieces: seq<string>, seps: seq<string>)
    requires SplitsInto(s, pieces, seps)
    ensures SplitOnSpace(s) == pieces
    decreases |seps|
  {
    if seps == [] {
      SplitOnSpaceOfNoSpace(s);
    } else {
      SplitsIntoTail(s, pieces, seps);
      var rest := Interleave(pieces[1..], seps[1..]);
      SplitOnSpaceCons(pieces[0], seps[0], rest);
      SplitOnSpaceUnique(rest, pieces[1..], seps[1..]);
      assert pieces == [pieces[0]] + pieces[1..];
    }
  }

  /** In any split, the first piece is empty iff `s` is empty or starts with whitespace, the
      last iff `s` is empty or ends with whitespace, and there is no separator iff `s` holds no
      whitespace. */
  lemma {:induction false} SplitsIntoEnds(s: string, pieces: seq<string>, seps: seq<string>)
    requires SplitsInto(s, pieces, seps)
    ensures pieces[0] == [] <==> s == [] || IsSpace(s[0])
    ensures pieces[|pieces| - 1] == [] <==> s == [] || IsSpace(s[|s| - 1])
    ensures NoSpace(s) <==> seps == []
    decreases |seps|
  {
    if seps != [] {
      SplitsIntoTail(s, pieces, seps);
      var rest := Interleave(pieces[1..], seps[1..]);
      SplitsIntoEnds(rest, pieces[1..], seps[1..]);
      EndsOfSeparated(s, pieces[0], seps[0], rest);
    }
  }

  lemma EndsOfSeparated(s: string, a: string, b: string, c: string)
    requires s == a + (b + c) && NoSpace(a) && b != [] && AllSpace(b)
    ensures a == [] <==> IsSpace(s[0])
    ensures s[|s| - 1] == if c == [] then b[|b| - 1] else c[|c| - 1]
    ensures !NoSpace(s)
  {
    assert s[|a|] == b[0];
  }

  /** The first piece of `split(/\s+/)` is empty iff `s` is empty or starts with whitespace,
      the last iff `s` is empty or ends with whitespace, and a string without whitespace is its
      own only piece. */
  lemma SplitOnSpaceEnds(s: string)
    ensures SplitOnSpace(s)[0] == [] <==> s == [] || IsSpace(s[0])
    ensures SplitOnSpace(s)[|SplitOnSpace(s)| - 1] == [] <==> s == [] || IsSpace(s[|s| - 1])
    ensures NoSpace(s) <==> SplitOnSpace(s) == [s]
  {
    SplitOnSpaceSplits(s);
    var seps :| SplitsInto(s, SplitOnSpace(s), seps);
    SplitsIntoEnds(s, SplitOnSpace(s), seps);
    if NoSpace(s) {
      SplitOnSpaceOfNoSpace(s);
    }
  }

  /** `split(/\s+/)` gives exactly the pieces that split `s` at its whitespace runs. */
  lemma SplitOnSpaceCharacterised(s: string, pieces: seq<string>)
    ensures SplitOnSpace(s) == pieces <==> exists seps :: SplitsInto(s, pieces, seps)
  {
    SplitOnSpaceSplits(s);
    if exists seps :: SplitsInto(s, pieces, seps) {
      var seps :| SplitsInto(s, pieces, seps);
      SplitOnSpaceUnique(s, pieces, seps);
    }
  }

  // ---------------------------------------------------------------- numbers in messages

  function DigitChar(d: nat): (c: char)
    requires d < 10
    ensures '0' <= c <= '9'
  {
    ('0' as int + d) as char
  }

  /** The number spelled by a string of decimal digits. */
  function DecimalValue(s: string): nat
    requires forall i | 0 <= i < |s| :: '0' <= s[i] <= '9'
  {
    if s == [] then 0 else 10 * DecimalValue(s[..|s| - 1]) + (s[|s| - 1] as int - '0' as int)
  }

  /** Decimal rendering of a non-negative integer, as in a template string. */
  function NatToString(n: nat): (r: string)
    ensures |r| >= 1 && forall i | 0 <= i < |r| :: '0' <= r[i] <= '9'
    ensures r[0] == '0' ==> n == 0 && r == "0"
    ensures DecimalValue(r) == n
  {
    if n < 10 then [DigitChar(n)]
    else
      var r := NatToString(n / 10) + [DigitChar(n % 10)];
      assert r[..|r| - 1] == NatToString(n / 10);
      r
  }

  function IntToString(n: int): string {
    if n < 0 then "-" + NatToString(-n) else NatToString(n)
  }
}
