/**
 * The regular expressions of the event classifier, each written out as the
 * leftmost-match scanner a backtracking engine amounts to on that pattern:
 * the `Titans` prefix, the match separator, the score, and the stray dash
 * left behind when a score is cut out of a name.
 */
module Patterns {
  import opened Wrappers
  import opened Text

  /** The end of the maximal run of whitespace starting at `i`. */
  function WsEnd(s: string, i: nat): (j: nat)
    requires i <= |s|
    ensures i <= j <= |s|
    ensures forall k :: i <= k < j ==> IsWhitespace(s[k])
    ensures j == |s| || !IsWhitespace(s[j])
    decreases |s| - i
  {
    if i < |s| && IsWhitespace(s[i]) then WsEnd(s, i + 1) else i
  }

  /** The end of the maximal run of ASCII digits starting at `i`. */
  function DigitsEnd(s: string, i: nat): (j: nat)
    requires i <= |s|
    ensures i <= j <= |s|
    ensures forall k :: i <= k < j ==> IsDigit(s[k])
    ensures j == |s| || !IsDigit(s[j])
    decreases |s| - i
  {
    if i < |s| && IsDigit(s[i]) then DigitsEnd(s, i + 1) else i
  }

  // ---------------------------------------------------------------------
  // `/^(London )?Titans\s+/i`

  /**
   * `s.replace(/^(London )?Titans\s+/i, '')`: a leading `London Titans` or
   * `Titans`, in any ASCII case, followed by whitespace, is removed together
   * with all of that whitespace.
   */
  function StripTitansPrefix(s: string): (r: string)
    ensures |r| <= |s| && r == s[|s| - |r|..]
    ensures r == s <==> !PrefixBeforeSpace(s, "london titans") && !PrefixBeforeSpace(s, "titans")
    ensures PrefixBeforeSpace(s, "london titans") ==> r == TrimStart(s[13..])
    ensures !PrefixBeforeSpace(s, "london titans") && PrefixBeforeSpace(s, "titans") ==> r == TrimStart(s[6..])
  {
    if PrefixBeforeSpace(s, "london titans") then TrimStart(s[13..])
    else if PrefixBeforeSpace(s, "titans") then TrimStart(s[6..])
    else s
  }

  /** `s` starts with `word` in any ASCII case, and whitespace follows it. */
  predicate PrefixBeforeSpace(s: string, word: string) {
    |word| < |s| && Lower(s[..|word|]) == word && IsWhitespace(s[|word|])
  }

  // ---------------------------------------------------------------------
  // `/^(.*?)(\s+(?:v|vs|V|VS|Vs|against)\.?\s+|\s+[-–—]\s+)(.*)$/`

  /** The two sides a separator match captures: groups 1 and 3. */
  datatype Split = Split(left: string, right: string)

  /**
   * `\.?\s+(.*)$` after a separator word that ends at `e`: the index where
   * the right side starts. The optional dot is taken only when whitespace
   * follows it, and the whitespace run is maximal.
   */
  function AfterWord(s: string, e: nat): (r: Option<nat>)
    requires e <= |s|
    ensures r.Some? ==> e < r.value <= |s| && NoLineTerminator(s[r.value..])
  {
    var g := if e < |s| && s[e] == '.' then e + 1 else e;
    if g < |s| && IsWhitespace(s[g]) then
      var f := WsEnd(s, g);
      if NoLineTerminator(s[f..]) then Some(f) else None
    else None
  }

  const SeparatorWords: seq<string> := ["v", "vs", "V", "VS", "Vs", "against"]

  /** The word alternatives of the separator, tried in the order they are written. */
  function WordAlternatives(s: string, j: nat, words: seq<string>): (r: Option<nat>)
    requires j <= |s|
    ensures r.Some? ==> j < r.value <= |s| && NoLineTerminator(s[r.value..])
    ensures r.Some? ==> exists i :: 0 <= i < |words| && OccursAt(s, words[i], j)
    decreases |words|
  {
    if |words| == 0 then None
    else if OccursAt(s, words[0], j) && AfterWord(s, j + |words[0]|).Some? then
      AfterWord(s, j + |words[0]|)
    else
      WordAlternatives(s, j, words[1..])
  }

  /** The dash alternative `[-–—]\s+(.*)$` at `j`. */
  function DashAlternative(s: string, j: nat): (r: Option<nat>)
    requires j <= |s|
    ensures r.Some? ==> j < |s| && IsDash(s[j]) && j + 1 < r.value <= |s| && NoLineTerminator(s[r.value..])
  {
    if j + 1 < |s| && IsDash(s[j]) && IsWhitespace(s[j + 1]) then
      var f := WsEnd(s, j + 1);
      if NoLineTerminator(s[f..]) then Some(f) else None
    else None
  }

  /** Group 2 and `(.*)$` matched from index `k`: where the right side starts. */
  function SeparatorAt(s: string, k: nat): (r: Option<nat>)
    requires k <= |s|
    ensures r.Some? ==> k < |s| && IsWhitespace(s[k]) && k < r.value <= |s| && NoLineTerminator(s[r.value..])
  {
    if k < |s| && IsWhitespace(s[k]) then
      var j := WsEnd(s, k);
      match WordAlternatives(s, j, SeparatorWords)
      case Some(f) => Some(f)
      case None => DashAlternative(s, j)
    else None
  }

  lemma NoLineTerminatorExtend(s: string, k: nat)
    requires k < |s| && NoLineTerminator(s[..k]) && !IsLineTerminator(s[k])
    ensures NoLineTerminator(s[..k + 1])
  {
    assert forall i :: 0 <= i < k + 1 ==> s[..k + 1][i] == s[i];
  }

  /** A line terminator at `k` ends every prefix the lazy group could take beyond `k`. */
  lemma LineTerminatorBlocks(s: string, k: nat)
    requires k < |s| && IsLineTerminator(s[k])
    ensures forall q :: k < q <= |s| ==> !NoLineTerminator(s[..q])
  {
    forall q | k < q <= |s|
      ensures !NoLineTerminator(s[..q])
    {
      assert s[..q][k] == s[k];
    }
  }

  /** No separator at `k` and none from `k + 1` on means none from `k` on. */
  lemma NoSeparatorFrom(s: string, k: nat, r: Option<(nat, nat)>)
    requires k <= |s| && SeparatorAt(s, k).None?
    requires r.Some? ==> r.value.0 <= |s|
    requires r.Some? ==> forall q :: k + 1 <= q < r.value.0 ==> SeparatorAt(s, q).None?
    requires r.None? ==> forall q :: k + 1 <= q <= |s| && NoLineTerminator(s[..q]) ==> SeparatorAt(s, q).None?
    ensures r.Some? ==> forall q :: k <= q < r.value.0 ==> SeparatorAt(s, q).None?
    ensures r.None? ==> forall q :: k <= q <= |s| && NoLineTerminator(s[..q]) ==> SeparatorAt(s, q).None?
  {
    if r.Some? {
      forall q | k <= q < r.value.0
        ensures SeparatorAt(s, q).None?
      {
        if q != k {
          assert k + 1 <= q;
        }
      }
    } else {
      forall q | k <= q <= |s| && NoLineTerminator(s[..q])
        ensures SeparatorAt(s, q).None?
      {
        if q != k {
          assert k + 1 <= q;
        }
      }
    }
  }

  /** The lazy `(.*?)`: the shortest left side, free of line terminators, after which the rest matches. */
  function FindSeparator(s: string, k: nat): (r: Option<(nat, nat)>)
    requires k <= |s| && NoLineTerminator(s[..k])
    ensures r.Some? ==> k <= r.value.0 <= |s| && NoLineTerminator(s[..r.value.0])
    ensures r.Some? ==> SeparatorAt(s, r.value.0) == Some(r.value.1)
    ensures r.Some? ==> forall q :: k <= q < r.value.0 ==> SeparatorAt(s, q).None?
    ensures r.None? ==> forall q :: k <= q <= |s| && NoLineTerminator(s[..q]) ==> SeparatorAt(s, q).None?
    decreases |s| - k
  {
    if SeparatorAt(s, k).Some? then Some((k, SeparatorAt(s, k).value))
    else if k < |s| && !IsLineTerminator(s[k]) then
      NoLineTerminatorExtend(s, k);
      var r := FindSeparator(s, k + 1);
      NoSeparatorFrom(s, k, r);
      r
    else
      if k < |s| then LineTerminatorBlocks(s, k); None else None
  }

  /**
   * `s.match(/^(.*?)(\s+(?:v|vs|V|VS|Vs|against)\.?\s+|\s+[-–—]\s+)(.*)$/)`,
   * as its first and third groups.
   */
  function MatchSeparator(s: string): (r: Option<Split>)
    ensures r.Some? ==> exists k, f :: (0 <= k < f <= |s| && r.value == Split(s[..k], s[f..])
                          && NoLineTerminator(s[..k]) && SeparatorAt(s, k) == Some(f)
                          && forall q :: 0 <= q < k ==> SeparatorAt(s, q).None?)
    ensures r.None? <==> forall q :: 0 <= q <= |s| && NoLineTerminator(s[..q]) ==> SeparatorAt(s, q).None?
  {
    assert NoLineTerminator(s[..0]);
    match FindSeparator(s, 0)
    case None => None
    case Some(kf) => Some(Split(s[..kf.0], s[kf.1..]))
  }

  // ---------------------------------------------------------------------
  // `/\b(\d+)\s*[-–—]\s*(\d+)\b/`

  /** A score match, piece by piece: groups 1 and 2 and what lies between them. */
  datatype ScoreMatch = ScoreMatch(first: string, gap1: string, dash: char, gap2: string, second: string)

  /** `match[0]`, the whole matched text. */
  function MatchText(m: ScoreMatch): string {
    m.first + m.gap1 + [m.dash] + m.gap2 + m.second
  }

  predicate WellFormed(m: ScoreMatch) {
    && |m.first| > 0 && AllDigits(m.first)
    && AllWhitespace(m.gap1) && IsDash(m.dash) && AllWhitespace(m.gap2)
    && |m.second| > 0 && AllDigits(m.second)
  }

  /** `s[..p]` and `s[q..]` sit on `\b` boundaries of the digit runs `s[p..]` starts and `s[..q]` ends. */
  predicate Bounded(s: string, p: nat, q: nat)
    requires p <= q <= |s|
  {
    (p == 0 || !IsWordChar(s[p - 1])) && (q == |s| || !IsWordChar(s[q]))
  }

  lemma DigitsSlice(s: string, p: nat, q: nat)
    requires p <= q <= |s| && forall k :: p <= k < q ==> IsDigit(s[k])
    ensures AllDigits(s[p..q])
  {
    assert forall i :: 0 <= i < q - p ==> s[p..q][i] == s[p + i];
  }

  lemma WhitespaceSlice(s: string, p: nat, q: nat)
    requires p <= q <= |s| && forall k :: p <= k < q ==> IsWhitespace(s[k])
    ensures AllWhitespace(s[p..q])
  {
    assert forall i :: 0 <= i < q - p ==> s[p..q][i] == s[p + i];
  }

  lemma SliceSplit(s: string, a: nat, b: nat, c: nat)
    requires a <= b <= c <= |s|
    ensures s[a..c] == s[a..b] + s[b..c]
  {
  }

  lemma ScorePieces(s: string, p: nat, q: nat, w: nat, t: nat, u: nat)
    requires p <= q <= w < t <= u <= |s|
    ensures s[p..u] == s[p..q] + s[q..w] + [s[w]] + s[w + 1..t] + s[t..u]
  {
    SliceSplit(s, p, q, u);
    SliceSplit(s, q, w, u);
    SliceSplit(s, w, w + 1, u);
    SliceSplit(s, w + 1, t, u);
    assert s[w..w + 1] == [s[w]];
  }

  /** The pieces between the five boundaries `p <= q <= w < t <= u` form a well-formed match. */
  lemma PiecesMatch(s: string, p: nat, q: nat, w: nat, t: nat, u: nat)
    requires p < q <= w < t < u <= |s|
    requires forall k :: p <= k < q ==> IsDigit(s[k])
    requires forall k :: q <= k < w ==> IsWhitespace(s[k])
    requires IsDash(s[w])
    requires forall k :: w + 1 <= k < t ==> IsWhitespace(s[k])
    requires forall k :: t <= k < u ==> IsDigit(s[k])
    requires (p == 0 || !IsWordChar(s[p - 1])) && (u == |s| || !IsWordChar(s[u]))
    ensures var m := ScoreMatch(s[p..q], s[q..w], s[w], s[w + 1..t], s[t..u]);
      WellFormed(m) && OccursAt(s, MatchText(m), p) && Bounded(s, p, p + |MatchText(m)|)
  {
    ScorePieces(s, p, q, w, t, u);
    var m := ScoreMatch(s[p..q], s[q..w], s[w], s[w + 1..t], s[t..u]);
    assert |MatchText(m)| == u - p;
    DigitsSlice(s, p, q);
    DigitsSlice(s, t, u);
    WhitespaceSlice(s, q, w);
    WhitespaceSlice(s, w + 1, t);
  }

  /** The score pattern matched at index `p`; greedy runs are maximal, and cannot give anything back. */
  function ScoreAt(s: string, p: nat): (r: Option<ScoreMatch>)
    requires p <= |s|
    ensures r.Some? ==> WellFormed(r.value) && OccursAt(s, MatchText(r.value), p)
    ensures r.Some? ==> Bounded(s, p, p + |MatchText(r.value)|)
  {
    if p < |s| && IsDigit(s[p]) && (p == 0 || !IsWordChar(s[p - 1])) then
      var q := DigitsEnd(s, p);
      ScoreAfterFirst(s, p, q, WsEnd(s, q))
    else None
  }

  /** The rest of the score pattern once the first number `s[p..q]` and the spaces up to `w` are read. */
  function ScoreAfterFirst(s: string, p: nat, q: nat, w: nat): (r: Option<ScoreMatch>)
    requires p < q <= w <= |s| && (p == 0 || !IsWordChar(s[p - 1]))
    requires forall k :: p <= k < q ==> IsDigit(s[k])
    requires forall k :: q <= k < w ==> IsWhitespace(s[k])
    ensures r.Some? ==> WellFormed(r.value) && OccursAt(s, MatchText(r.value), p)
    ensures r.Some? ==> Bounded(s, p, p + |MatchText(r.value)|)
  {
    if w < |s| && IsDash(s[w]) then
      var t := WsEnd(s, w + 1);
      if t < |s| && IsDigit(s[t]) then
        var u := DigitsEnd(s, t);
        if u == |s| || !IsWordChar(s[u]) then
          PiecesMatch(s, p, q, w, t, u);
          Some(ScoreMatch(s[p..q], s[q..w], s[w], s[w + 1..t], s[t..u]))
        else None
      else None
    else None
  }

  /** No score match at `p` and none from `p + 1` on means none from `p` on. */
  lemma NoScoreFrom(s: string, p: nat, r: Option<(nat, ScoreMatch)>)
    requires p <= |s| && ScoreAt(s, p).None?
    requires r.Some? ==> r.value.0 <= |s| && forall q :: p + 1 <= q < r.value.0 ==> ScoreAt(s, q).None?
    requires r.None? ==> forall q :: p + 1 <= q <= |s| ==> ScoreAt(s, q).None?
    ensures r.Some? ==> forall q :: p <= q < r.value.0 ==> ScoreAt(s, q).None?
    ensures r.None? ==> forall q :: p <= q <= |s| ==> ScoreAt(s, q).None?
  {
  }

  /** The leftmost score match at or after `p`. */
  function FindScore(s: string, p: nat): (r: Option<(nat, ScoreMatch)>)
    requires p <= |s|
    ensures r.Some? ==> p <= r.value.0 <= |s| && ScoreAt(s, r.value.0) == Some(r.value.1)
    ensures r.Some? ==> forall q :: p <= q < r.value.0 ==> ScoreAt(s, q).None?
    ensures r.None? ==> forall q :: p <= q <= |s| ==> ScoreAt(s, q).None?
    decreases |s| - p
  {
    if ScoreAt(s, p).Some? then Some((p, ScoreAt(s, p).value))
    else if p < |s| then
      var r := FindScore(s, p + 1);
      NoScoreFrom(s, p, r);
      r
    else None
  }

  /** `s.match(/\b(\d+)\s*[-–—]\s*(\d+)\b/)`. */
  function MatchScore(s: string): (r: Option<ScoreMatch>)
    ensures r.Some? ==> WellFormed(r.value)
    ensures r.Some? ==> exists p :: (0 <= p <= |s| && ScoreAt(s, p) == r
                          && forall q :: 0 <= q < p ==> ScoreAt(s, q).None?)
    ensures r.None? <==> forall q :: 0 <= q <= |s| ==> ScoreAt(s, q).None?
  {
    match FindScore(s, 0)
    case None => None
    case Some(pm) => Some(pm.1)
  }

  /** `match[0].replace(/\s+/g, '').replace(/[-–—]/, '-')`. */
  function ScoreString(m: ScoreMatch): (r: string)
    ensures NoWhitespace(r)
    ensures |r| <= |MatchText(m)|
  {
    var t := RemoveWhitespace(MatchText(m));
    assert !IsWhitespace('-');
    ReplaceFirstDash(t)
  }

  /** Digits are not whitespace. */
  lemma DigitsHaveNoWhitespace(s: string)
    requires AllDigits(s)
    ensures NoWhitespace(s)
  {
  }

  lemma CleanedPieces(m: ScoreMatch)
    requires WellFormed(m)
    ensures RemoveWhitespace(MatchText(m)) == m.first + [m.dash] + m.second
  {
    var a, b, c, d, e := m.first, m.gap1, [m.dash], m.gap2, m.second;
    DigitsHaveNoWhitespace(a);
    DigitsHaveNoWhitespace(e);
    RemoveWhitespaceNone(a);
    RemoveWhitespaceNone(e);
    RemoveWhitespaceNone(c);
    RemoveWhitespaceAll(b);
    RemoveWhitespaceAll(d);
    var x1 := a + b;
    RemoveWhitespaceAppend(a, b);
    assert RemoveWhitespace(x1) == a;
    var x2 := x1 + c;
    RemoveWhitespaceAppend(x1, c);
    assert RemoveWhitespace(x2) == a + c;
    var x3 := x2 + d;
    RemoveWhitespaceAppend(x2, d);
    assert RemoveWhitespace(x3) == a + c;
    RemoveWhitespaceAppend(x3, e);
    assert MatchText(m) == x3 + e;
  }

  lemma FirstDashOfPieces(m: ScoreMatch)
    requires WellFormed(m)
    ensures ReplaceFirstDash(m.first + [m.dash] + m.second) == m.first + "-" + m.second
  {
    var t := [m.dash] + m.second;
    ReplaceFirstDashAfter(m.first, t);
    assert m.first + [m.dash] + m.second == m.first + t;
    assert t[0] == m.dash && t[1..] == m.second;
    assert ReplaceFirstDash(t) == ['-'] + m.second;
    assert m.first + (['-'] + m.second) == m.first + "-" + m.second;
  }

  /** The stored score is the two numbers joined by a hyphen, nothing else. */
  lemma {:induction false} ScoreStringShape(m: ScoreMatch)
    requires WellFormed(m)
    ensures ScoreString(m) == m.first + "-" + m.second
    ensures NoWhitespace(ScoreString(m))
  {
    CleanedPieces(m);
    FirstDashOfPieces(m);
  }

  // ---------------------------------------------------------------------
  // `/^-| -$/`

  /** `s.replace(/^-| -$/, '')`: a leading hyphen, or failing that a trailing ` -`, is removed. */
  function DropEdgeDash(s: string): (r: string)
    ensures |s| > 0 && s[0] == '-' ==> r == s[1..]
    ensures !(|s| > 0 && s[0] == '-') && EndsWith(s, " -") ==> r == s[..|s| - 2]
    ensures !(|s| > 0 && s[0] == '-') && !EndsWith(s, " -") ==> r == s
  {
    if |s| > 0 && s[0] == '-' then s[1..]
    else if EndsWith(s, " -") then s[..|s| - 2]
    else s
  }
}
