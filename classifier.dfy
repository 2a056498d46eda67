/**
 * `mapEventToFixture`: from the properties of one calendar event to a
 * `Fixture`, by an ordered cascade of string tests. The imperative method
 * `MapEventToFixture` follows the source statement by statement; `Classify`
 * is the same computation composed from one function per stage, and the
 * lemmas state what each stage guarantees.
 *
 * `getDay()` of the event's date is the local weekday for a local time
 * `offset` milliseconds ahead of UTC, and `now` is the instant `new Date()`
 * returns; the id that `Math.random()` would supply is the parameter `freshId`.
 */
module Classifier {
  import opened Wrappers
  import opened Text
  import opened Patterns
  import opened Fixtures
  import Civil

  /** The properties of one event, keyed by property name. */
  type Event = map<string, string>

  /** `event[key] || fallback`: a property that is missing or empty reads as the fallback. */
  function PropertyOr(e: Event, key: string, fallback: string): (r: string)
    ensures key in e && e[key] != "" ==> r == e[key]
    ensures !(key in e && e[key] != "") ==> r == fallback
  {
    if key in e && e[key] != "" then e[key] else fallback
  }

  // ---------------------------------------------------------------------
  // Unescaping

  const Nbsp: char := '\U{00A0}'

  /** The escapes `\,`, `\;` and `\n` or `\N`, each replaced globally, one pass after another. */
  function UnescapeCommon(s: string): string {
    ReplaceEscapes(ReplaceEscapes(ReplaceEscapes(s, {','}, ","), {';'}, ";"), {'n', 'N'}, " ")
  }

  /** The summary before trimming: the common escapes, then `\\`, then no-break spaces made spaces. */
  function SummaryText(raw: string): string {
    ReplaceChar(ReplaceEscapes(UnescapeCommon(raw), {'\\'}, "\\"), Nbsp, ' ')
  }

  /** The summary: `SummaryText`, trimmed. */
  function UnescapeSummary(raw: string): (r: string)
    ensures r == [] || (!IsWhitespace(r[0]) && !IsWhitespace(r[|r| - 1]))
  {
    var t := SummaryText(raw);
    TrimBounds(t);
    Trim(t)
  }

  /** The location: the common escapes and no-break spaces, but neither `\\` nor trimming. */
  function UnescapeLocation(raw: string): (r: string)
    ensures |r| <= |raw|
    ensures forall i :: 0 <= i < |r| ==> r[i] != Nbsp
  {
    ReplaceChar(UnescapeCommon(raw), Nbsp, ' ')
  }

  /** The description: the common escapes and `\\`, but no-break spaces are kept. */
  function UnescapeDescription(raw: string): (r: string)
    ensures |r| <= |raw|
    ensures (forall i :: 0 <= i < |raw| ==> raw[i] != '\\') ==> r == raw
  {
    ReplaceEscapes(UnescapeCommon(raw), {'\\'}, "\\")
  }

  function SummaryOf(e: Event): string {
    UnescapeSummary(PropertyOr(e, "SUMMARY", "Match"))
  }

  function LocationOf(e: Event): string {
    UnescapeLocation(PropertyOr(e, "LOCATION", "TBC"))
  }

  function DescriptionOf(e: Event): string {
    UnescapeDescription(PropertyOr(e, "DESCRIPTION", ""))
  }

  /** Text in which no backslash precedes an escaped character is left as it is. */
  lemma {:induction false} NoEscapeUnchanged(s: string, escaped: set<char>, replacement: string)
    requires forall i :: 0 <= i < |s| - 1 && s[i] == '\\' ==> s[i + 1] !in escaped
    ensures ReplaceEscapes(s, escaped, replacement) == s
    decreases |s|
  {
    if |s| > 0 {
      NoEscapeUnchanged(s[1..], escaped, replacement);
      assert s == [s[0]] + s[1..];
    }
  }

  /** What each escape of a calendar text stands for: `\,` a comma, `\;` a semicolon, `\n` or `\N` a space, `\\` a backslash. */
  function EscapeText(c: char): (r: string)
    requires c in {',', ';', 'n', 'N', '\\'}
    ensures |r| == 1 && r[0] != Nbsp && (r[0] == '\\' <==> c == '\\')
  {
    if c == ',' then "," else if c == ';' then ";" else if c == '\\' then "\\" else " "
  }

  /** No escape letter and no backslash follows: a `\\` in front of it cannot pair up differently. */
  predicate PlainHead(b: string) {
    b == [] || b[0] !in {',', ';', 'n', 'N', '\\'}
  }

  /** The three common passes decode `\,`, `\;`, `\n` and `\N` after a backslash-free prefix. */
  lemma CommonDecodes(a: string, c: char, b: string)
    requires NoBackslash(a) && c in {',', ';', 'n', 'N'}
    ensures UnescapeCommon(a + ['\\', c] + b) == a + EscapeText(c) + UnescapeCommon(b)
  {
    var r1 := ReplaceEscapes(b, {','}, ",");
    var r2 := ReplaceEscapes(r1, {';'}, ";");
    var e := EscapeText(c);
    assert NoBackslash(a + e);
    if c == ',' {
      ReplacesEscape(a, c, b, {','}, ",");
      NoBackslashPrefix(a + e, r1, {';'}, ";");
      NoBackslashPrefix(a + e, r2, {'n', 'N'}, " ");
    } else if c == ';' {
      SkipsEscape(a, c, b, {','}, ",");
      ReplacesEscape(a, c, r1, {';'}, ";");
      NoBackslashPrefix(a + e, r2, {'n', 'N'}, " ");
    } else {
      SkipsEscape(a, c, b, {','}, ",");
      SkipsEscape(a, c, r1, {';'}, ";");
      ReplacesEscape(a, c, r2, {'n', 'N'}, " ");
    }
  }

  /** The three common passes leave a doubled backslash alone. */
  lemma CommonKeepsDoubled(a: string, b: string)
    requires NoBackslash(a) && PlainHead(b)
    ensures UnescapeCommon(a + "\\\\" + b) == a + "\\\\" + UnescapeCommon(b)
  {
    var r1 := ReplaceEscapes(b, {','}, ",");
    var r2 := ReplaceEscapes(r1, {';'}, ";");
    SkipsDoubled(a, b, {','}, ",");
    if b != [] { HeadKept(b, {','}, ","); }
    SkipsDoubled(a, r1, {';'}, ";");
    if r1 != [] { HeadKept(r1, {';'}, ";"); }
    SkipsDoubled(a, r2, {'n', 'N'}, " ");
  }

  /** The description decodes each escape in place, the rest of the text decoded on its own. */
  lemma DescriptionDecodes(a: string, c: char, b: string)
    requires NoBackslash(a) && c in {',', ';', 'n', 'N', '\\'}
    requires c == '\\' ==> PlainHead(b)
    ensures UnescapeDescription(a + ['\\', c] + b) == a + EscapeText(c) + UnescapeDescription(b)
  {
    if c == '\\' {
      assert ['\\', c] == "\\\\";
      CommonKeepsDoubled(a, b);
      ReplacesEscape(a, c, UnescapeCommon(b), {'\\'}, "\\");
    } else {
      CommonDecodes(a, c, b);
      assert NoBackslash(a + EscapeText(c));
      NoBackslashPrefix(a + EscapeText(c), UnescapeCommon(b), {'\\'}, "\\");
    }
  }

  /** The summary decodes each escape in place, and no-break spaces become spaces. */
  lemma SummaryDecodes(a: string, c: char, b: string)
    requires NoBackslash(a) && c in {',', ';', 'n', 'N', '\\'}
    requires c == '\\' ==> PlainHead(b)
    ensures SummaryText(a + ['\\', c] + b) == ReplaceChar(a, Nbsp, ' ') + EscapeText(c) + SummaryText(b)
    ensures UnescapeSummary(a + ['\\', c] + b) == Trim(ReplaceChar(a, Nbsp, ' ') + EscapeText(c) + SummaryText(b))
  {
    var e, u := EscapeText(c), UnescapeDescription(b);
    var x := ReplaceChar(a, Nbsp, ' ') + e + SummaryText(b);
    DescriptionDecodes(a, c, b);
    assert SummaryText(a + ['\\', c] + b) == ReplaceChar(a + e + u, Nbsp, ' ');
    ReplaceCharAppend(a + e, u, Nbsp, ' ');
    ReplaceCharAppend(a, e, Nbsp, ' ');
    assert ReplaceChar(e, Nbsp, ' ') == e;
    assert SummaryText(b) == ReplaceChar(u, Nbsp, ' ');
    assert SummaryText(a + ['\\', c] + b) == x;
  }

  /** The location decodes `\,`, `\;`, `\n` and `\N` in place, and no-break spaces become spaces. */
  lemma LocationDecodes(a: string, c: char, b: string)
    requires NoBackslash(a) && c in {',', ';', 'n', 'N'}
    ensures UnescapeLocation(a + ['\\', c] + b) == ReplaceChar(a, Nbsp, ' ') + EscapeText(c) + UnescapeLocation(b)
  {
    var e := EscapeText(c);
    CommonDecodes(a, c, b);
    ReplaceCharAppend(a + e, UnescapeCommon(b), Nbsp, ' ');
    ReplaceCharAppend(a, e, Nbsp, ' ');
  }

  /** The location has no `\\` pass: a doubled backslash stays doubled. */
  lemma LocationKeepsDoubled(a: string, b: string)
    requires NoBackslash(a) && PlainHead(b)
    ensures UnescapeLocation(a + "\\\\" + b) == ReplaceChar(a, Nbsp, ' ') + "\\\\" + UnescapeLocation(b)
  {
    CommonKeepsDoubled(a, b);
    ReplaceCharAppend(a + "\\\\", UnescapeCommon(b), Nbsp, ' ');
    ReplaceCharAppend(a, "\\\\", Nbsp, ' ');
  }

  /** A description without escapes reaches the classifier exactly as written. */
  lemma {:induction false} PlainDescriptionUnchanged(raw: string)
    requires raw != "" && forall i :: 0 <= i < |raw| ==> raw[i] != '\\'
    ensures DescriptionOf(map["DESCRIPTION" := raw]) == raw
  {
    NoEscapeUnchanged(raw, {','}, ",");
    NoEscapeUnchanged(raw, {';'}, ";");
    NoEscapeUnchanged(raw, {'n', 'N'}, " ");
    NoEscapeUnchanged(raw, {'\\'}, "\\");
  }

  lemma CommonLeavesBackslashes()
    ensures UnescapeCommon("\\\\") == "\\\\"
  {
    var s := "\\\\";
    NoEscapeUnchanged(s, {','}, ",");
    NoEscapeUnchanged(s, {';'}, ";");
    NoEscapeUnchanged(s, {'n', 'N'}, " ");
  }

  lemma CollapseBackslash()
    ensures ReplaceEscapes("\\\\", {'\\'}, "\\") == "\\"
  {
    var s := "\\\\";
    assert s[2..] == [];
    assert ReplaceEscapes([], {'\\'}, "\\") == [];
  }

  lemma BackslashSurvivesTrim()
    ensures ReplaceChar("\\", Nbsp, ' ') == "\\"
    ensures Trim("\\") == "\\"
  {
    assert !IsWhitespace('\\');
    var one := "\\";
    assert TrimStart(one) == one;
    assert TrimEnd(one) == one;
  }

  /** A doubled backslash collapses in the summary and the description but not in the location. */
  lemma DoubledBackslash()
    ensures UnescapeSummary("\\\\") == "\\"
    ensures UnescapeDescription("\\\\") == "\\"
    ensures UnescapeLocation("\\\\") == "\\\\"
  {
    CommonLeavesBackslashes();
    CollapseBackslash();
    BackslashSurvivesTrim();
    var s := "\\\\";
    assert ReplaceChar(s, Nbsp, ' ') == s;
  }

  /** A no-break space becomes a space in the location but not in the description. */
  lemma NoBreakSpace()
    ensures UnescapeLocation([Nbsp]) == " "
    ensures UnescapeDescription([Nbsp]) == [Nbsp]
  {
    var t := [Nbsp];
    NoEscapeUnchanged(t, {','}, ",");
    NoEscapeUnchanged(t, {';'}, ";");
    NoEscapeUnchanged(t, {'n', 'N'}, " ");
    NoEscapeUnchanged(t, {'\\'}, "\\");
    assert UnescapeCommon(t) == t;
  }

  // ---------------------------------------------------------------------
  // Home, away, opponent and team name (lines 151-215)

  /** The fields the first stage decides. */
  datatype Sides = Sides(isHome: bool, opponent: string, teamName: string, competition: string)

  const Initial: Sides := Sides(true, "", "Titans", "Fixture")

  /** Which branch of the cascade a summary takes. */
  datatype Shape = Training | Separated(split: Split) | SingleWeekday | SingleWeekend

  function ShapeOf(summary: string, weekday: int): (r: Shape)
    ensures r == Training <==> Contains(Lower(summary), "training")
    ensures r.Separated? <==> !Contains(Lower(summary), "training") && MatchSeparator(summary).Some?
    ensures r.Separated? ==> MatchSeparator(summary) == Some(r.split)
    ensures r == SingleWeekday <==>
      !Contains(Lower(summary), "training") && MatchSeparator(summary).None? && 1 <= weekday <= 5
  {
    if Contains(Lower(summary), "training") then Training
    else match MatchSeparator(summary)
      case Some(sp) => Separated(sp)
      case None => if 1 <= weekday <= 5 then SingleWeekday else SingleWeekend
  }

  /** The name of a single-entity event: the summary without its `Titans` prefix, or the summary itself. */
  function SingleName(summary: string): (r: string)
    ensures r != "" || summary == ""
  {
    var t := Trim(StripTitansPrefix(summary));
    if t == "" then summary else t
  }

  /** Both sides of a separator match, when neither is blank: the side naming the club is the team. */
  function SidesOfSplit(sp: Split): (r: Sides)
    ensures r.competition == "Fixture"
    ensures r.opponent == "" <==> Trim(sp.left) == "" || Trim(sp.right) == ""
    ensures r.opponent != "" ==> r.opponent == Trim(sp.left) || r.opponent == Trim(sp.right)
    ensures !r.isHome <==> r.opponent != "" && Contains(Lower(sp.right), "titan")
  {
    var a, b := Trim(sp.left), Trim(sp.right);
    if a == "" || b == "" then Initial
    else if Contains(Lower(sp.right), "titan") then Sides(false, a, b, "Fixture")
    else if Contains(Lower(sp.left), "titan") then Sides(true, b, a, "Fixture")
    else Sides(true, b, if Utf16Length(sp.left) < 30 then a else "Titans", "Fixture")
  }

  /** A weekend event without a separator: the summary is the opponent unless it names the club. */
  function WeekendSides(summary: string): (r: Sides)
    ensures r.isHome && r.competition == "Fixture"
    ensures r.opponent == "" <==> summary == ""
    ensures r.teamName == "Titans" || r.teamName == summary
    ensures Contains(Lower(summary), "titan") ==> r.opponent == "Internal Match / Event" || r.opponent == "Club Event"
  {
    var l := Lower(summary);
    if l == "titans" || l == "london titans" then Initial.(opponent := "Internal Match / Event")
    else if Contains(l, "titan") then Initial.(opponent := "Club Event", teamName := summary)
    else Initial.(opponent := summary)
  }

  function Identify(summary: string, weekday: int): (r: Sides)
    ensures r.competition == "Training" <==> Contains(Lower(summary), "training")
    ensures r.competition == "Training" || r.competition == "Fixture"
    ensures !r.isHome ==> r.opponent != ""
  {
    match ShapeOf(summary, weekday)
    case Training => Initial.(teamName := SingleName(summary), competition := "Training")
    case Separated(sp) => SidesOfSplit(sp)
    case SingleWeekday => Initial.(teamName := SingleName(summary))
    case SingleWeekend => WeekendSides(summary)
  }

  /** A summary mentioning training is a training session whatever separators it contains. */
  lemma TrainingWins(summary: string, weekday: int)
    requires Contains(Lower(summary), "training")
    ensures var x := Identify(summary, weekday);
      x.competition == "Training" && x.opponent == "" && x.isHome && x.teamName == SingleName(summary)
  {
  }

  /**
   * With a separator and two non-blank sides: a right side naming the club
   * makes the event away against the left side; otherwise a left side naming
   * the club makes it home against the right side.
   */
  lemma SeparatedSides(summary: string, weekday: int, sp: Split)
    requires !Contains(Lower(summary), "training") && MatchSeparator(summary) == Some(sp)
    requires Trim(sp.left) != "" && Trim(sp.right) != ""
    ensures var x := Identify(summary, weekday);
      && x.competition == "Fixture"
      && (Contains(Lower(sp.right), "titan") ==> !x.isHome && x.opponent == Trim(sp.left) && x.teamName == Trim(sp.right))
      && (!Contains(Lower(sp.right), "titan") ==> x.isHome && x.opponent == Trim(sp.right))
      && (!Contains(Lower(sp.right), "titan") && Contains(Lower(sp.left), "titan") ==> x.teamName == Trim(sp.left))
  {
  }

  /** A weekday event without a separator is a home event with no opponent. */
  lemma WeekdayIsSingleEntity(summary: string, weekday: int)
    requires !Contains(Lower(summary), "training") && MatchSeparator(summary).None? && 1 <= weekday <= 5
    ensures var x := Identify(summary, weekday);
      x.opponent == "" && x.isHome && x.competition == "Fixture" && x.teamName == SingleName(summary)
  {
  }

  // ---------------------------------------------------------------------
  // The failsafe (lines 218-220)

  function Failsafe(x: Sides): (r: Sides)
    ensures r.isHome == x.isHome && r.teamName == x.teamName && r.competition == x.competition
    ensures r.opponent == x.opponent || r.opponent == "Club Event"
  {
    if x.opponent != "" && Trim(Lower(x.teamName)) == Trim(Lower(x.opponent)) then x.(opponent := "Club Event")
    else x
  }

  /**
   * After the failsafe a non-empty opponent differs from the team name, up to
   * case and surrounding whitespace, unless it is the replacement `Club Event`
   * itself, which can collide with a team name of that spelling.
   */
  lemma FailsafeSeparates(x: Sides)
    ensures var y := Failsafe(x);
      && y.isHome == x.isHome && y.teamName == x.teamName && y.competition == x.competition
      && (y.opponent != "" && y.opponent != "Club Event" ==> Trim(Lower(y.teamName)) != Trim(Lower(y.opponent)))
      && (y.opponent != x.opponent <==> x.opponent != "" && x.opponent != "Club Event" && Trim(Lower(x.teamName)) == Trim(Lower(x.opponent)))
  {
  }

  // ---------------------------------------------------------------------
  // Score and result (lines 222-251)

  /** The description's score match is preferred; the summary's is the fallback. */
  function ChooseScore(description: string, summary: string): (r: Option<ScoreMatch>)
    ensures r.Some? ==> WellFormed(r.value)
    ensures MatchScore(description).Some? ==> r == MatchScore(description)
    ensures MatchScore(description).None? ==> r == MatchScore(summary)
  {
    match MatchScore(description)
    case Some(m) => Some(m)
    case None => MatchScore(summary)
  }

  /**
   * W, L or D from the club's side: the first number is the club's at home,
   * the second away. The two numbers are compared as `parseInt` reads them,
   * as JavaScript numbers.
   */
  function ResultOf(isHome: bool, m: ScoreMatch): (r: MatchResult)
    requires WellFormed(m)
    ensures var ours := if isHome then ParseIntDigits(m.first) else ParseIntDigits(m.second);
            var theirs := if isHome then ParseIntDigits(m.second) else ParseIntDigits(m.first);
      (r == Win <==> NumberLess(theirs, ours)) && (r == Loss <==> NumberLess(ours, theirs)) && (r == Draw <==> ours == theirs)
  {
    var a, b := ParseIntDigits(m.first), ParseIntDigits(m.second);
    var ours, theirs := if isHome then a else b, if isHome then b else a;
    if NumberLess(theirs, ours) then Win else if NumberLess(ours, theirs) then Loss else Draw
  }

  /** Scores below 2^53 are compared exactly. */
  lemma ExactResult(isHome: bool, m: ScoreMatch)
    requires WellFormed(m) && DigitsValue(m.first) < Two53 && DigitsValue(m.second) < Two53
    ensures var ours := if isHome then DigitsValue(m.first) else DigitsValue(m.second);
            var theirs := if isHome then DigitsValue(m.second) else DigitsValue(m.first);
      var r := ResultOf(isHome, m);
      (r == Win <==> ours > theirs) && (r == Loss <==> ours < theirs) && (r == Draw <==> ours == theirs)
  {
  }

  /** Two different scores above 2^53 can read as the same number, and then the result is a draw. */
  lemma RoundedScoresDraw(m: ScoreMatch)
    requires WellFormed(m) && DigitsValue(m.first) == Two53 + 1 && DigitsValue(m.second) == Two53
    ensures ResultOf(true, m) == Draw && ResultOf(false, m) == Draw
  {
    RoundsToEven();
  }

  /** `9007199254740993-9007199254740992` reads as a draw: both numbers round to 2^53. */
  lemma LargeScoresDraw()
    ensures var m := ScoreMatch("9007199254740993", "", '-', "", "9007199254740992");
      WellFormed(m) && ResultOf(true, m) == Draw && ResultOf(false, m) == Draw
  {
    BeyondTwo53Digits();
    RoundedScoresDraw(ScoreMatch("9007199254740993", "", '-', "", "9007199254740992"));
  }

  // ---------------------------------------------------------------------
  // Name clean-up (lines 253-263)

  /** `t.replace("London Titans", "Titans").trim()` for a name that starts with `London Titans`. */
  function DropLondon(t: string): (r: string)
    ensures !StartsWith(t, "London Titans") ==> r == t
    ensures StartsWith(t, "London Titans") ==> r == Trim("Titans" + t[13..])
  {
    if StartsWith(t, "London Titans") then
      var u := ReplaceFirst(t, "London Titans", "Titans");
      assert Leftmost(t, "London Titans", 0);
      assert u[..6] == u[0..6] == "Titans" && u[6..] == t[13..];
      assert u == u[..6] + u[6..];
      Trim(u)
    else t
  }

  /** `name.replace(rawScore, '').replace(/^-| -$/, '').trim()`. */
  function StripScore(name: string, raw: string): (r: string)
    ensures |r| <= |name|
    ensures r == [] || (!IsWhitespace(r[0]) && !IsWhitespace(r[|r| - 1]))
  {
    var t := ReplaceFirst(name, raw, "");
    assert |t| <= |name|;
    var u := DropEdgeDash(t);
    assert |u| <= |t|;
    TrimBounds(u);
    Trim(u)
  }

  /**
   * The `London` prefix is dropped from the team name, and when the summary
   * contains a score and the event has an opponent, the text of the chosen
   * score match, which may be the description's, is cut out of both names.
   */
  function CleanNames(x: Sides, summary: string, description: string): (r: Sides)
    ensures r.isHome == x.isHome && r.competition == x.competition
    ensures x.opponent == "" ==> r.opponent == ""
    ensures !(MatchScore(summary).Some? && x.opponent != "") ==> r == x.(teamName := DropLondon(x.teamName))
  {
    var team := DropLondon(x.teamName);
    var chosen := ChooseScore(description, summary);
    if MatchScore(summary).Some? && chosen.Some? && x.opponent != "" then
      var raw := MatchText(chosen.value);
      x.(opponent := StripScore(x.opponent, raw), teamName := StripScore(team, raw))
    else x.(teamName := team)
  }

  // ---------------------------------------------------------------------
  // Competition tag, label and suffixes (lines 265-310)

  /** One test of the tag cascade: any of its needles in the lower-cased description or summary. */
  datatype TagRule = TagRule(inDescription: seq<string>, inSummary: seq<string>, tag: string, competition: Option<string>)

  /** The cascade in priority order; only the first four also name the competition. */
  const TagRules: seq<TagRule> := [
    TagRule(["gfsn shield"], ["gfsn shield"], "GFSN SHIELD", Some("GFSN Shield")),
    TagRule(["gfsn development"], ["gfsn development"], "GFSN DEV", Some("GFSN Development League")),
    TagRule(["lul cup"], ["lul cup"], "LUL CUP", Some("LUL Cup")),
    TagRule(["london dev league"], ["london dev league"], "LDL", Some("London Dev League")),
    TagRule(["gfsn matchweek", "gfsn"], ["gfsn"], "GFSN", None),
    TagRule(["lul matchweek", "lul"], ["lul"], "LUL", None)
  ]

  predicate AnyIn(text: string, needles: seq<string>) {
    |needles| > 0 && (Contains(text, needles[0]) || AnyIn(text, needles[1..]))
  }

  predicate Fires(rule: TagRule, d: string, s: string) {
    AnyIn(d, rule.inDescription) || AnyIn(s, rule.inSummary)
  }

  /** The index of the first rule from `i` on that fires. */
  function FirstFiring(rules: seq<TagRule>, d: string, s: string, i: nat): (r: Option<nat>)
    requires i <= |rules|
    ensures r.Some? ==> i <= r.value < |rules| && Fires(rules[r.value], d, s)
    ensures r.Some? ==> forall j :: i <= j < r.value ==> !Fires(rules[j], d, s)
    ensures r.None? ==> forall j :: i <= j < |rules| ==> !Fires(rules[j], d, s)
    decreases |rules| - i
  {
    if i == |rules| then None
    else if Fires(rules[i], d, s) then Some(i)
    else FirstFiring(rules, d, s, i + 1)
  }

  /** The tag rule that applies to a lower-cased description `d` and summary `s`. */
  function TagIndex(d: string, s: string): (r: Option<nat>)
    ensures r.Some? ==> r.value < |TagRules| && Fires(TagRules[r.value], d, s)
    ensures r.None? <==> forall j :: 0 <= j < |TagRules| ==> !Fires(TagRules[j], d, s)
  {
    FirstFiring(TagRules, d, s, 0)
  }

  /** Rule `i` decides the tag exactly when it fires and no rule before it does. */
  lemma TagPriority(d: string, s: string, i: nat)
    requires i < |TagRules|
    ensures TagIndex(d, s) == Some(i) <==> Fires(TagRules[i], d, s) && forall j :: 0 <= j < i ==> !Fires(TagRules[j], d, s)
  {
    var r := TagIndex(d, s);
    if Fires(TagRules[i], d, s) && forall j :: 0 <= j < i ==> !Fires(TagRules[j], d, s) {
      assert r.Some?;
    }
  }

  lemma AnyInOne(text: string, a: string)
    ensures AnyIn(text, [a]) <==> Contains(text, a)
  {
    assert [a][1..] == [];
  }

  lemma AnyInTwo(text: string, a: string, b: string)
    ensures AnyIn(text, [a, b]) <==> Contains(text, a) || Contains(text, b)
  {
    assert [a, b][1..] == [b];
    AnyInOne(text, b);
  }

  /** The table read as the source's `if`/`else if` chain. */
  lemma TagIndexCascade(d: string, s: string)
    ensures TagIndex(d, s) ==
      if Contains(d, "gfsn shield") || Contains(s, "gfsn shield") then Some(0)
      else if Contains(d, "gfsn development") || Contains(s, "gfsn development") then Some(1)
      else if Contains(d, "lul cup") || Contains(s, "lul cup") then Some(2)
      else if Contains(d, "london dev league") || Contains(s, "london dev league") then Some(3)
      else if Contains(d, "gfsn matchweek") || Contains(d, "gfsn") || Contains(s, "gfsn") then Some(4)
      else if Contains(d, "lul matchweek") || Contains(d, "lul") || Contains(s, "lul") then Some(5)
      else None
  {
    AnyInOne(d, "gfsn shield"); AnyInOne(s, "gfsn shield");
    AnyInOne(d, "gfsn development"); AnyInOne(s, "gfsn development");
    AnyInOne(d, "lul cup"); AnyInOne(s, "lul cup");
    AnyInOne(d, "london dev league"); AnyInOne(s, "london dev league");
    AnyInTwo(d, "gfsn matchweek", "gfsn"); AnyInOne(s, "gfsn");
    AnyInTwo(d, "lul matchweek", "lul"); AnyInOne(s, "lul");
    assert Fires(TagRules[0], d, s) <==> Contains(d, "gfsn shield") || Contains(s, "gfsn shield");
    assert Fires(TagRules[1], d, s) <==> Contains(d, "gfsn development") || Contains(s, "gfsn development");
    assert Fires(TagRules[2], d, s) <==> Contains(d, "lul cup") || Contains(s, "lul cup");
    assert Fires(TagRules[3], d, s) <==> Contains(d, "london dev league") || Contains(s, "london dev league");
    assert Fires(TagRules[4], d, s) <==> Contains(d, "gfsn matchweek") || Contains(d, "gfsn") || Contains(s, "gfsn");
    assert Fires(TagRules[5], d, s) <==> Contains(d, "lul matchweek") || Contains(d, "lul") || Contains(s, "lul");
  }

  /** A keyword in the lower-cased description or summary. */
  predicate Mentions(d: string, s: string, keyword: string) {
    Contains(d, keyword) || Contains(s, keyword)
  }

  /**
   * The generic label when no rule named a specific competition: league, cup,
   * friendly, or, for an event with no opponent, club event.
   */
  function DefaultLabel(competition: string, d: string, s: string, opponent: string): (r: string)
    ensures competition != "Fixture" ==> r == competition
    ensures competition == "Fixture" ==>
      var league, cup, friendly := Mentions(d, s, "league"), Mentions(d, s, "cup"), Mentions(d, s, "friendly");
      && (r == "League Match" <==> league)
      && (r == "Cup Match" <==> !league && cup)
      && (r == "Friendly" <==> !league && !cup && friendly)
      && (r == "Club Event" <==> !league && !cup && !friendly && opponent == "")
      && (r == "Fixture" <==> !league && !cup && !friendly && opponent != "")
  {
    if competition != "Fixture" then competition
    else if Mentions(d, s, "league") then "League Match"
    else if Mentions(d, s, "cup") then "Cup Match"
    else if Mentions(d, s, "friendly") then "Friendly"
    else if opponent == "" then "Club Event"
    else competition
  }

  /** A generic label is settled: labelling it again changes nothing. */
  lemma DefaultLabelIdempotent(competition: string, d: string, s: string, opponent: string)
    ensures var r := DefaultLabel(competition, d, s, opponent);
      DefaultLabel(r, d, s, opponent) == r
  {
  }

  /** Each of the four round phrases contains the word `final`. */
  lemma RoundWordsMentionFinal(d: string)
    ensures (Contains(d, "quarter-final") || Contains(d, "quarter final") ||
             Contains(d, "semi-final") || Contains(d, "semi final")) ==> Contains(d, "final")
  {
    assert "quarter-" + "final" == "quarter-final" && "quarter " + "final" == "quarter final";
    assert "semi-" + "final" == "semi-final" && "semi " + "final" == "semi final";
    if Contains(d, "quarter-final") { ContainsTail(d, "quarter-", "final"); }
    if Contains(d, "quarter final") { ContainsTail(d, "quarter ", "final"); }
    if Contains(d, "semi-final") { ContainsTail(d, "semi-", "final"); }
    if Contains(d, "semi final") { ContainsTail(d, "semi ", "final"); }
  }

  /** The round suffix a lower-cased description `d` asks for, unless the label already has it. */
  function RoundSuffix(competition: string, d: string): (r: string)
    ensures r in {"", " Quarter-Final", " Semi-Final", " Final"}
    ensures !Contains(d, "final") ==> r == ""
    ensures var quarter := Contains(d, "quarter-final") || Contains(d, "quarter final");
            var semi := Contains(d, "semi-final") || Contains(d, "semi final");
            var l := Lower(competition);
      && (r == " Quarter-Final" <==> quarter && !Contains(l, "quarter"))
      && (r == " Semi-Final" <==> !quarter && semi && !Contains(l, "semi"))
      && (r == " Final" <==> !quarter && !semi && Contains(d, "final") && !Contains(d, "semi") && !Contains(l, "final"))
  {
    var l := Lower(competition);
    RoundWordsMentionFinal(d);
    if Contains(d, "quarter-final") || Contains(d, "quarter final") then
      (if Contains(l, "quarter") then "" else " Quarter-Final")
    else if Contains(d, "semi-final") || Contains(d, "semi final") then
      (if Contains(l, "semi") then "" else " Semi-Final")
    else if Contains(d, "final") && !Contains(d, "semi") then
      (if Contains(l, "final") then "" else " Final")
    else ""
  }

  /** `suffix` when the description mentions `word` and the lower-cased label does not, else nothing. */
  function WordSuffix(competition: string, d: string, word: string, suffix: string): (r: string)
    requires suffix != ""
    ensures r == "" || r == suffix
    ensures r == suffix <==> Contains(d, word) && !Contains(Lower(competition), word)
  {
    if Contains(d, word) && !Contains(Lower(competition), word) then suffix else ""
  }

  function PlateSuffix(competition: string, d: string): (r: string)
    ensures r == "" || r == " Plate"
    ensures r == " Plate" <==> Contains(d, "plate") && !Contains(Lower(competition), "plate")
  {
    WordSuffix(competition, d, "plate", " Plate")
  }

  function TrophySuffix(competition: string, d: string): (r: string)
    ensures r == "" || r == " Trophy"
    ensures r == " Trophy" <==> Contains(d, "trophy") && !Contains(Lower(competition), "trophy")
  {
    WordSuffix(competition, d, "trophy", " Trophy")
  }

  /** The round, plate and trophy suffixes, decided by the description alone. */
  function WithSuffixes(competition: string, d: string): (r: string)
    ensures StartsWith(r, competition)
  {
    var c1 := competition + RoundSuffix(competition, d);
    var c2 := c1 + PlateSuffix(c1, d);
    c2 + TrophySuffix(c2, d)
  }

  /** The label is the competition followed by at most one round suffix, then optionally plate, then optionally trophy. */
  lemma SuffixesShape(competition: string, d: string)
    ensures exists round, plate, trophy ::
      && round in {"", " Quarter-Final", " Semi-Final", " Final"}
      && plate in {"", " Plate"} && trophy in {"", " Trophy"}
      && WithSuffixes(competition, d) == competition + round + plate + trophy
  {
    var c1 := competition + RoundSuffix(competition, d);
    var c2 := c1 + PlateSuffix(c1, d);
    assert WithSuffixes(competition, d) == competition + RoundSuffix(competition, d) + PlateSuffix(c1, d) + TrophySuffix(c2, d);
  }

  /** Text found in a label is still found once more text is appended to the label. */
  lemma LabelKeeps(c: string, extra: string, needle: string)
    requires Contains(Lower(c), needle)
    ensures Contains(Lower(c + extra), needle)
  {
    LowerAppend(c, extra);
    ContainsExtend([], Lower(c), Lower(extra), needle);
    assert [] + Lower(c) + Lower(extra) == Lower(c) + Lower(extra);
  }

  /** The label with a suffix appended contains the suffix's own word. */
  lemma LabelGains(c: string, suffix: string, needle: string)
    requires Lower(suffix) == " " + needle || Lower(suffix) == " " + needle + "-final"
    ensures Contains(Lower(c + suffix), needle)
  {
    LowerAppend(c, suffix);
    if Lower(suffix) == " " + needle {
      ContainsSelfAtEnd(Lower(c) + " ", needle);
      assert Lower(c) + " " + needle == Lower(c) + Lower(suffix);
    } else {
      ContainsExtend(Lower(c) + " ", needle, "-final", needle) by {
        ContainsSelfAtEnd([], needle);
        assert [] + needle == needle;
      }
      assert Lower(c) + " " + needle + "-final" == Lower(c) + Lower(suffix);
    }
  }

  lemma SuffixWords()
    ensures Lower(" Quarter-Final") == " " + "quarter" + "-final"
    ensures Lower(" Semi-Final") == " " + "semi" + "-final"
    ensures Lower(" Final") == " " + "final"
    ensures Lower(" Plate") == " " + "plate"
    ensures Lower(" Trophy") == " " + "trophy"
  {
  }

  /** Once the round suffix is decided, the label contains the word that suppresses it. */
  lemma {:induction false} RoundSettled(c: string, d: string, extra: string)
    ensures RoundSuffix(c + RoundSuffix(c, d) + extra, d) == ""
  {
    SuffixWords();
    var c1 := c + RoundSuffix(c, d);
    var l := Lower(c);
    if Contains(d, "quarter-final") || Contains(d, "quarter final") {
      if Contains(l, "quarter") { LabelKeeps(c, extra, "quarter"); assert c1 == c; }
      else { LabelGains(c, " Quarter-Final", "quarter"); LabelKeeps(c1, extra, "quarter"); }
    } else if Contains(d, "semi-final") || Contains(d, "semi final") {
      if Contains(l, "semi") { LabelKeeps(c, extra, "semi"); assert c1 == c; }
      else { LabelGains(c, " Semi-Final", "semi"); LabelKeeps(c1, extra, "semi"); }
    } else if Contains(d, "final") && !Contains(d, "semi") {
      if Contains(l, "final") { LabelKeeps(c, extra, "final"); assert c1 == c; }
      else { LabelGains(c, " Final", "final"); LabelKeeps(c1, extra, "final"); }
    }
  }

  lemma {:induction false} PlateSettled(c: string, d: string, extra: string)
    ensures PlateSuffix(c + PlateSuffix(c, d) + extra, d) == ""
  {
    if Contains(d, "plate") {
      if Contains(Lower(c), "plate") {
        assert c + PlateSuffix(c, d) + extra == c + extra;
        LabelKeeps(c, extra, "plate");
      } else {
        SuffixWords();
        LabelGains(c, " Plate", "plate");
        LabelKeeps(c + " Plate", extra, "plate");
      }
    }
  }

  lemma {:induction false} TrophySettled(c: string, d: string)
    ensures TrophySuffix(c + TrophySuffix(c, d), d) == ""
  {
    if Contains(d, "trophy") {
      if Contains(Lower(c), "trophy") {
        assert c + TrophySuffix(c, d) == c;
      } else {
        SuffixWords();
        LabelGains(c, " Trophy", "trophy");
      }
    }
  }

  /** A description that mentions a plate leaves "plate" in the label, whether it was there already or the suffix adds it. */
  lemma PlateLabelled(c: string, d: string)
    requires Contains(d, "plate")
    ensures Contains(Lower(WithSuffixes(c, d)), "plate")
  {
    var c1 := c + RoundSuffix(c, d);
    var c2 := c1 + PlateSuffix(c1, d);
    if Contains(Lower(c1), "plate") {
      assert c2 == c1 + "";
      LabelKeeps(c1, "", "plate");
    } else {
      SuffixWords();
      LabelGains(c1, " Plate", "plate");
    }
    LabelKeeps(c2, TrophySuffix(c2, d), "plate");
  }

  /** The suffixed label asks for no further round suffix. */
  lemma RoundStays(c: string, d: string)
    ensures RoundSuffix(WithSuffixes(c, d), d) == ""
  {
    var r := RoundSuffix(c, d);
    var p := PlateSuffix(c + r, d);
    var t := TrophySuffix(c + r + p, d);
    var w := WithSuffixes(c, d);
    assert w == c + r + p + t;
    assert c + r + p + t == c + r + (p + t);
    RoundSettled(c, d, p + t);
  }

  /** The suffixed label asks for no further plate suffix. */
  lemma PlateStays(c: string, d: string)
    ensures PlateSuffix(WithSuffixes(c, d), d) == ""
  {
    var c1 := c + RoundSuffix(c, d);
    var t := TrophySuffix(c1 + PlateSuffix(c1, d), d);
    assert WithSuffixes(c, d) == c1 + PlateSuffix(c1, d) + t;
    PlateSettled(c1, d, t);
  }

  /** The suffixed label asks for no further trophy suffix. */
  lemma TrophyStays(c: string, d: string)
    ensures TrophySuffix(WithSuffixes(c, d), d) == ""
  {
    var c1 := c + RoundSuffix(c, d);
    var c2 := c1 + PlateSuffix(c1, d);
    assert WithSuffixes(c, d) == c2 + TrophySuffix(c2, d);
    TrophySettled(c2, d);
  }

  /** Appending the suffixes a second time adds nothing. */
  lemma {:induction false} SuffixesIdempotent(c: string, d: string)
    ensures WithSuffixes(WithSuffixes(c, d), d) == WithSuffixes(c, d)
  {
    RoundStays(c, d);
    PlateStays(c, d);
    TrophyStays(c, d);
    SettledLabel(WithSuffixes(c, d), d);
  }

  /** A label that asks for none of the three suffixes is its own labelling. */
  lemma SettledLabel(c: string, d: string)
    requires RoundSuffix(c, d) == "" && PlateSuffix(c, d) == "" && TrophySuffix(c, d) == ""
    ensures WithSuffixes(c, d) == c
  {
    assert c + "" == c;
    assert c + "" + "" == c;
  }

  /** The competition and tag: the tag cascade, the generic label, then the suffixes. */
  datatype Labels = Labels(competition: string, tag: Option<string>)

  function LabelsOf(x: Sides, summary: string, description: string): Labels {
    var d, s := Lower(description), Lower(summary);
    var rule := TagIndex(d, s);
    var named :=
      if rule.Some? && TagRules[rule.value].competition.Some? then TagRules[rule.value].competition.value
      else x.competition;
    Labels(WithSuffixes(DefaultLabel(named, d, s, x.opponent), d),
           if rule.Some? then Some(TagRules[rule.value].tag) else None)
  }

  // ---------------------------------------------------------------------
  // Status and the whole record (lines 312-327)

  function StatusOf(date: int, now: int): (r: Status)
    ensures r != Live
    ensures r == Completed <==> date < now
  {
    if date < now then Completed else Upcoming
  }

  /** The fixture `mapEventToFixture` returns, stage by stage. */
  function Classify(e: Event, date: int, now: int, offset: int, freshId: string): (f: Fixture)
    ensures f.date == date && f.status != Live
    ensures f.result.Some? <==> f.score.Some?
    ensures f.score.Some? ==> NoWhitespace(f.score.value)
  {
    var summary := SummaryOf(e);
    var description := DescriptionOf(e);
    var x := Failsafe(Identify(summary, Civil.LocalWeekDay(date, offset)));
    var chosen := ChooseScore(description, summary);
    var y := CleanNames(x, summary, description);
    var labels := LabelsOf(y, summary, description);
    Fixture(
      id := PropertyOr(e, "UID", freshId),
      opponent := y.opponent,
      isHome := y.isHome,
      date := date,
      location := LocationOf(e),
      competition := labels.competition,
      competitionTag := labels.tag,
      status := StatusOf(date, now),
      teamName := y.teamName,
      score := if chosen.Some? then Some(ScoreString(chosen.value)) else None,
      result := if chosen.Some? then Some(ResultOf(y.isHome, chosen.value)) else None)
  }

  // ---------------------------------------------------------------------
  // Properties of the whole record

  /** The status is `Completed` exactly for an event that started before now, and never `Live`. */
  lemma StatusFromDate(e: Event, date: int, now: int, offset: int, freshId: string)
    ensures var f := Classify(e, date, now, offset, freshId);
      f.status != Live && (f.status == Completed <==> date < now) && f.date == date
  {
  }

  /** The id is the event's UID when it has one, otherwise the fresh id; the location defaults to `TBC`. */
  lemma IdAndLocation(e: Event, date: int, now: int, offset: int, freshId: string)
    ensures var f := Classify(e, date, now, offset, freshId);
      && (("UID" in e && e["UID"] != "") ==> f.id == e["UID"])
      && (!("UID" in e && e["UID"] != "") ==> f.id == freshId)
      && (!("LOCATION" in e && e["LOCATION"] != "") ==> f.location == "TBC")
  {
    NoEscapeUnchanged("TBC", {','}, ",");
    NoEscapeUnchanged("TBC", {';'}, ";");
    NoEscapeUnchanged("TBC", {'n', 'N'}, " ");
    assert ReplaceChar("TBC", Nbsp, ' ') == "TBC";
  }

  /**
   * A result is recorded exactly when a score is, and a score exactly when
   * the description or the summary contains one; the description's wins, and
   * is stored as its two numbers joined by a hyphen.
   */
  lemma {:induction false} ScoreFromDescriptionFirst(e: Event, date: int, now: int, offset: int, freshId: string)
    ensures var f := Classify(e, date, now, offset, freshId);
      && (f.result.Some? <==> f.score.Some?)
      && (f.score.Some? <==> MatchScore(DescriptionOf(e)).Some? || MatchScore(SummaryOf(e)).Some?)
      && (MatchScore(DescriptionOf(e)).Some? ==>
            var m := MatchScore(DescriptionOf(e)).value; f.score == Some(m.first + "-" + m.second))
      && (MatchScore(DescriptionOf(e)).None? && MatchScore(SummaryOf(e)).Some? ==>
            var m := MatchScore(SummaryOf(e)).value; f.score == Some(m.first + "-" + m.second))
  {
    var chosen := ChooseScore(DescriptionOf(e), SummaryOf(e));
    if chosen.Some? {
      ScoreStringShape(chosen.value);
    }
  }

  /** An event with no opponent after the first stage keeps none: the clean-up only touches events with an opponent. */
  lemma {:induction false} NoOpponentKept(x: Sides, summary: string, description: string)
    requires x.opponent == ""
    ensures var y := CleanNames(Failsafe(x), summary, description);
      y.opponent == "" && y.isHome == x.isHome && y.competition == x.competition
  {
    assert Failsafe(x) == x;
  }

  /**
   * A training session has no opponent and is at home; its label is
   * `Training` with the description's suffixes, unless one of the four
   * specific tag rules names another competition.
   */
  lemma {:induction false} TrainingEvent(e: Event, date: int, now: int, offset: int, freshId: string)
    requires Contains(Lower(SummaryOf(e)), "training")
    ensures var f := Classify(e, date, now, offset, freshId);
      && f.opponent == "" && f.isHome
      && (var r := TagIndex(Lower(DescriptionOf(e)), Lower(SummaryOf(e)));
          (r.None? || r.value >= 4) ==> f.competition == WithSuffixes("Training", Lower(DescriptionOf(e))))
  {
    var summary, description := SummaryOf(e), DescriptionOf(e);
    var x := Identify(summary, Civil.LocalWeekDay(date, offset));
    TrainingWins(summary, Civil.LocalWeekDay(date, offset));
    NoOpponentKept(x, summary, description);
    var y := CleanNames(Failsafe(x), summary, description);
    var f := Classify(e, date, now, offset, freshId);
    assert f.opponent == y.opponent && f.isHome == y.isHome;
    assert f.competition == LabelsOf(y, summary, description).competition;
    assert y.competition == "Training";
    var r := TagIndex(Lower(description), Lower(summary));
    if r.None? || r.value >= 4 {
      UnnamedLabel(y, summary, description);
    }
  }

  /** Without a specific tag rule the label is the first stage's, through the generic labels and the suffixes. */
  lemma UnnamedLabel(x: Sides, summary: string, description: string)
    requires var r := TagIndex(Lower(description), Lower(summary)); r.None? || r.value >= 4
    ensures var d, s := Lower(description), Lower(summary);
      LabelsOf(x, summary, description).competition == WithSuffixes(DefaultLabel(x.competition, d, s, x.opponent), d)
  {
    var r := TagIndex(Lower(description), Lower(summary));
    if r.Some? {
      assert r.value == 4 || r.value == 5;
      assert TagRules[r.value].competition.None?;
    }
  }

  /** A specific tag rule (the first four) sets both the tag and the competition, before any suffix. */
  lemma {:induction false} SpecificTagNamesCompetition(x: Sides, summary: string, description: string, i: nat)
    requires i < 4 && TagIndex(Lower(description), Lower(summary)) == Some(i)
    ensures var l := LabelsOf(x, summary, description);
      && l.tag == Some(TagRules[i].tag)
      && l.competition == WithSuffixes(TagRules[i].competition.value, Lower(description))
  {
    assert TagRules[i].competition.Some? && TagRules[i].competition.value != "Fixture";
  }

  /** A generic tag (`GFSN`, `LUL`) leaves the competition to the generic label. */
  lemma {:induction false} GenericTagKeepsCompetition(x: Sides, summary: string, description: string, i: nat)
    requires 4 <= i < 6 && TagIndex(Lower(description), Lower(summary)) == Some(i)
    ensures var d, s := Lower(description), Lower(summary);
      var l := LabelsOf(x, summary, description);
      && l.tag == Some(TagRules[i].tag)
      && l.competition == WithSuffixes(DefaultLabel(x.competition, d, s, x.opponent), d)
  {
    assert TagRules[i].competition.None?;
  }

  /** Lines 151-215: the cascade over the summary's shape. */
  method IdentifySides(summary: string, weekday: int) returns (isHome: bool, opponent: string, teamName: string, competition: string)
    ensures Sides(isHome, opponent, teamName, competition) == Identify(summary, weekday)
  {
    isHome := true;
    opponent := "";
    competition := "Fixture";
    teamName := "Titans";
    var summaryLower := Lower(summary);
    ghost var shape := ShapeOf(summary, weekday);
    if Contains(summaryLower, "training") {
      assert shape == Training;
      teamName := Trim(StripTitansPrefix(summary));
      if teamName == "" { teamName := summary; }
      opponent := "";
      competition := "Training";
    } else {
      var vsMatch := MatchSeparator(summary);
      if vsMatch.Some? {
        assert shape == Separated(vsMatch.value);
        var teamA, teamB := vsMatch.value.left, vsMatch.value.right;
        if Trim(teamA) != "" && Trim(teamB) != "" {
          if Contains(Lower(teamB), "titan") {
            isHome := false;
            opponent := Trim(teamA);
            teamName := Trim(teamB);
          } else if Contains(Lower(teamA), "titan") {
            isHome := true;
            opponent := Trim(teamB);
            teamName := Trim(teamA);
          } else {
            opponent := Trim(teamB);
            if Utf16Length(teamA) < 30 {
              teamName := Trim(teamA);
            }
          }
        }
      } else {
        var isWeekday := 1 <= weekday <= 5;
        if isWeekday {
          assert shape == SingleWeekday;
          teamName := Trim(StripTitansPrefix(summary));
          if teamName == "" { teamName := summary; }
          opponent := "";
          isHome := true;
        } else {
          assert shape == SingleWeekend;
          opponent := summary;
          if Lower(opponent) == "titans" || Lower(opponent) == "london titans" {
            opponent := "Internal Match / Event";
          } else if Contains(Lower(opponent), "titan") {
            teamName := opponent;
            opponent := "Club Event";
          }
        }
      }
    }
  }

  /** Lines 222-251: the score match, the score string and the result. */
  method ScoreAndResult(description: string, summary: string, isHome: bool)
    returns (scoreMatch: Option<ScoreMatch>, scoreInSummary: Option<ScoreMatch>, score: Option<string>, result: Option<MatchResult>)
    ensures scoreMatch == ChooseScore(description, summary) && scoreInSummary == MatchScore(summary)
    ensures score == (if scoreMatch.Some? then Some(ScoreString(scoreMatch.value)) else None)
    ensures result == (if scoreMatch.Some? then Some(ResultOf(isHome, scoreMatch.value)) else None)
  {
    score, result := None, None;
    scoreMatch := MatchScore(description);
    scoreInSummary := MatchScore(summary);
    if scoreMatch.None? {
      scoreMatch := scoreInSummary;
    }
    if scoreMatch.Some? {
      var m := scoreMatch.value;
      score := Some(ScoreString(m));
      var score1, score2 := ParseIntDigits(m.first), ParseIntDigits(m.second);
      var titansScore, oppScore := Finite(0), Finite(0);
      if isHome {
        titansScore, oppScore := score1, score2;
      } else {
        titansScore, oppScore := score2, score1;
      }
      var r;
      if NumberLess(oppScore, titansScore) { r := Win; }
      else if NumberLess(titansScore, oppScore) { r := Loss; }
      else { r := Draw; }
      assert r == ResultOf(isHome, m);
      result := Some(r);
    }
  }

  /** Lines 265-286: the tag cascade over the lower-cased description and summary. */
  method TagCascade(descLower: string, summaryLower: string, competition0: string)
    returns (competitionTag: Option<string>, competition: string)
    ensures var r := TagIndex(descLower, summaryLower);
      && competitionTag == (if r.Some? then Some(TagRules[r.value].tag) else None)
      && competition == (if r.Some? && TagRules[r.value].competition.Some? then TagRules[r.value].competition.value else competition0)
  {
    TagIndexCascade(descLower, summaryLower);
    competitionTag, competition := None, competition0;
    if Contains(descLower, "gfsn shield") || Contains(summaryLower, "gfsn shield") {
      competitionTag := Some("GFSN SHIELD");
      competition := "GFSN Shield";
    } else if Contains(descLower, "gfsn development") || Contains(summaryLower, "gfsn development") {
      competitionTag := Some("GFSN DEV");
      competition := "GFSN Development League";
    } else if Contains(descLower, "lul cup") || Contains(summaryLower, "lul cup") {
      competitionTag := Some("LUL CUP");
      competition := "LUL Cup";
    } else if Contains(descLower, "london dev league") || Contains(summaryLower, "london dev league") {
      competitionTag := Some("LDL");
      competition := "London Dev League";
    } else if Contains(descLower, "gfsn matchweek") || Contains(descLower, "gfsn") || Contains(summaryLower, "gfsn") {
      competitionTag := Some("GFSN");
    } else if Contains(descLower, "lul matchweek") || Contains(descLower, "lul") || Contains(summaryLower, "lul") {
      competitionTag := Some("LUL");
    }
  }

  /** Lines 288-310: the generic label, then the round, plate and trophy suffixes. */
  method LabelAndSuffixes(descLower: string, summaryLower: string, opponent: string, competition0: string)
    returns (competition: string)
    ensures competition == WithSuffixes(DefaultLabel(competition0, descLower, summaryLower, opponent), descLower)
  {
    competition := GenericLabel(descLower, summaryLower, opponent, competition0);
    competition := AddSuffixes(descLower, competition);
  }

  /** Lines 288-294: a competition still called `Fixture` gets a generic label. */
  method GenericLabel(descLower: string, summaryLower: string, opponent: string, competition0: string)
    returns (competition: string)
    ensures competition == DefaultLabel(competition0, descLower, summaryLower, opponent)
  {
    competition := competition0;
    if competition == "Fixture" {
      if Contains(descLower, "league") || Contains(summaryLower, "league") { competition := "League Match"; }
      else if Contains(descLower, "cup") || Contains(summaryLower, "cup") { competition := "Cup Match"; }
      else if Contains(descLower, "friendly") || Contains(summaryLower, "friendly") { competition := "Friendly"; }
      else if opponent == "" { competition := "Club Event"; }
    }
  }

  /** Lines 296-310: the round, plate and trophy suffixes, each unless the label already has its word. */
  method AddSuffixes(descLower: string, labelled: string) returns (competition: string)
    ensures competition == WithSuffixes(labelled, descLower)
  {
    competition := labelled;
    if Contains(descLower, "quarter-final") || Contains(descLower, "quarter final") {
      if !Contains(Lower(competition), "quarter") { competition := competition + " Quarter-Final"; }
    } else if Contains(descLower, "semi-final") || Contains(descLower, "semi final") {
      if !Contains(Lower(competition), "semi") { competition := competition + " Semi-Final"; }
    } else if Contains(descLower, "final") && !Contains(descLower, "semi") {
      if !Contains(Lower(competition), "final") { competition := competition + " Final"; }
    }
    assert competition == labelled + RoundSuffix(labelled, descLower);
    ghost var rounded := competition;
    if Contains(descLower, "plate") && !Contains(Lower(competition), "plate") {
      competition := competition + " Plate";
    }
    assert competition == rounded + PlateSuffix(rounded, descLower);
    ghost var plated := competition;
    if Contains(descLower, "trophy") && !Contains(Lower(competition), "trophy") {
      competition := competition + " Trophy";
    }
    assert competition == plated + TrophySuffix(plated, descLower);
  }

  /** Lines 151-263: the two sides, the failsafe, the score and the result, and the clean-up of the names. */
  method SidesAndScore(summary: string, description: string, weekday: int)
    returns (isHome: bool, opponent: string, teamName: string, competition: string, score: Option<string>, result: Option<MatchResult>)
    ensures Sides(isHome, opponent, teamName, competition) == CleanNames(Failsafe(Identify(summary, weekday)), summary, description)
    ensures var chosen := ChooseScore(description, summary);
      && score == (if chosen.Some? then Some(ScoreString(chosen.value)) else None)
      && result == (if chosen.Some? then Some(ResultOf(isHome, chosen.value)) else None)
  {
    isHome, opponent, teamName, competition := IdentifySides(summary, weekday);

    if opponent != "" && Trim(Lower(teamName)) == Trim(Lower(opponent)) {
      opponent := "Club Event";
    }
    ghost var x := Failsafe(Identify(summary, weekday));
    assert Sides(isHome, opponent, teamName, competition) == x;

    var scoreMatch, scoreInSummary;
    scoreMatch, scoreInSummary, score, result := ScoreAndResult(description, summary, isHome);

    if StartsWith(teamName, "London Titans") {
      teamName := Trim(ReplaceFirst(teamName, "London Titans", "Titans"));
    }
    if scoreInSummary.Some? && scoreMatch.Some? && opponent != "" {
      var rawScore := MatchText(scoreMatch.value);
      opponent := Trim(DropEdgeDash(ReplaceFirst(opponent, rawScore, "")));
      teamName := Trim(DropEdgeDash(ReplaceFirst(teamName, rawScore, "")));
    }
  }

  /** The record `Classify` builds, given the sides after the clean-up and the labels. */
  lemma ClassifyStages(e: Event, date: int, now: int, offset: int, freshId: string, y: Sides, labels: Labels)
    requires y == CleanNames(Failsafe(Identify(SummaryOf(e), Civil.LocalWeekDay(date, offset))), SummaryOf(e), DescriptionOf(e))
    requires labels == LabelsOf(y, SummaryOf(e), DescriptionOf(e))
    ensures var f := Classify(e, date, now, offset, freshId);
      var chosen := ChooseScore(DescriptionOf(e), SummaryOf(e));
      && f.opponent == y.opponent && f.isHome == y.isHome && f.teamName == y.teamName
      && f.competition == labels.competition && f.competitionTag == labels.tag
      && f.score == (if chosen.Some? then Some(ScoreString(chosen.value)) else None)
      && f.result == (if chosen.Some? then Some(ResultOf(y.isHome, chosen.value)) else None)
  {
  }

  /**
   * `mapEventToFixture`: the `let` locals of the source are reassigned block
   * by block, each block a method above.
   */
  method MapEventToFixture(e: Event, date: int, now: int, offset: int, freshId: string) returns (f: Fixture)
    ensures f == Classify(e, date, now, offset, freshId)
  {
    var summary := UnescapeSummary(PropertyOr(e, "SUMMARY", "Match"));
    var location := UnescapeLocation(PropertyOr(e, "LOCATION", "TBC"));
    var description := UnescapeDescription(PropertyOr(e, "DESCRIPTION", ""));
    assert summary == SummaryOf(e) && location == LocationOf(e) && description == DescriptionOf(e);

    var isHome, opponent, teamName, competition, score, result :=
      SidesAndScore(summary, description, Civil.LocalWeekDay(date, offset));
    ghost var y := Sides(isHome, opponent, teamName, competition);

    var descLower := Lower(description);
    var summaryLowerClean := Lower(summary);
    var competitionTag;
    competitionTag, competition := TagCascade(descLower, summaryLowerClean, competition);
    competition := LabelAndSuffixes(descLower, summaryLowerClean, opponent, competition);
    assert Labels(competition, competitionTag) == LabelsOf(y, summary, description);

    var status := if date < now then Completed else Upcoming;
    f := Fixture(
      id := PropertyOr(e, "UID", freshId),
      opponent := opponent,
      isHome := isHome,
      date := date,
      location := location,
      competition := competition,
      competitionTag := competitionTag,
      status := status,
      teamName := teamName,
      score := score,
      result := result);
    ClassifyStages(e, date, now, offset, freshId, y, Labels(competition, competitionTag));
  }
}
