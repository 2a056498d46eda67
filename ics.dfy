/**
 * From calendar text to fixtures: the text is split into lines, folded lines
 * are joined back (`unfoldLines`), and a loop over the lines collects the
 * properties of each `VEVENT` and hands every complete event to the
 * classifier (`parseICS`).
 */
module Ics {
  import opened Wrappers
  import opened Text
  import opened Fixtures
  import opened Classifier
  import opened IcsDate

  // ---------------------------------------------------------------------
  // `text.split(/\r\n|\n|\r/)`

  predicate IsBreak(c: char) {
    c == '\r' || c == '\n'
  }

  predicate NoBreak(s: string) {
    forall i :: 0 <= i < |s| ==> !IsBreak(s[i])
  }

  /** The index of the first CR or LF. */
  function FirstBreak(s: string): (r: Option<nat>)
    ensures r.Some? ==> r.value < |s| && IsBreak(s[r.value]) && NoBreak(s[..r.value])
    ensures r.None? ==> NoBreak(s)
  {
    if |s| == 0 then None
    else if IsBreak(s[0]) then Some(0)
    else match FirstBreak(s[1..])
      case None => None
      case Some(i) => assert s[..i + 1] == [s[0]] + s[1..][..i]; Some(i + 1)
  }

  /** How long the line break at `i` is: CR LF counts as one break of two characters. */
  function BreakWidth(s: string, i: nat): nat
    requires i < |s|
  {
    if s[i] == '\r' && i + 1 < |s| && s[i + 1] == '\n' then 2 else 1
  }

  function SplitLines(s: string): (r: seq<string>)
    ensures |r| >= 1
    ensures forall i :: 0 <= i < |r| ==> NoBreak(r[i])
    decreases |s|
  {
    match FirstBreak(s)
    case None => [s]
    case Some(i) => [s[..i]] + SplitLines(s[i + BreakWidth(s, i)..])
  }

  /** Every line break written as a single LF. */
  function NormaliseBreaks(s: string): string
    decreases |s|
  {
    if |s| == 0 then []
    else if s[0] == '\r' && |s| > 1 && s[1] == '\n' then "\n" + NormaliseBreaks(s[2..])
    else if s[0] == '\r' then "\n" + NormaliseBreaks(s[1..])
    else [s[0]] + NormaliseBreaks(s[1..])
  }

  function JoinLines(lines: seq<string>): string
    requires |lines| >= 1
  {
    if |lines| == 1 then lines[0] else lines[0] + "\n" + JoinLines(lines[1..])
  }

  lemma {:induction false} NormalisePlainPrefix(a: string, b: string)
    requires NoBreak(a)
    ensures NormaliseBreaks(a + b) == a + NormaliseBreaks(b)
    decreases |a|
  {
    if |a| > 0 {
      assert (a + b)[1..] == a[1..] + b;
      NormalisePlainPrefix(a[1..], b);
      assert a == [a[0]] + a[1..];
    } else {
      assert a + b == b;
    }
  }

  /** From the first break on, the text is normalised to one LF and the normalised rest. */
  lemma NormaliseFromBreak(s: string, i: nat)
    requires i < |s| && IsBreak(s[i])
    ensures NormaliseBreaks(s[i..]) == "\n" + NormaliseBreaks(s[i + BreakWidth(s, i)..])
  {
    var t := s[i..];
    assert t[0] == s[i] && (1 < |t| ==> t[1] == s[i + 1]);
    assert t[1..] == s[i + 1..] && (1 < |t| ==> t[2..] == s[i + 2..]);
  }

  /** Normalising up to the first break: the plain text, one LF, and the rest normalised. */
  lemma NormaliseAtBreak(s: string, i: nat)
    requires i < |s| && IsBreak(s[i]) && NoBreak(s[..i])
    ensures NormaliseBreaks(s) == s[..i] + "\n" + NormaliseBreaks(s[i + BreakWidth(s, i)..])
  {
    var a, t := s[..i], s[i..];
    NormalisePlainPrefix(a, t);
    assert a + t == s;
    NormaliseFromBreak(s, i);
    Regroup(a, NormaliseBreaks(s[i + BreakWidth(s, i)..]));
  }

  lemma Regroup(a: string, x: string)
    ensures a + ("\n" + x) == a + "\n" + x
  {
  }

  /** Splitting loses nothing but the kind of each line break. */
  lemma {:induction false} SplitLinesJoin(s: string)
    ensures JoinLines(SplitLines(s)) == NormaliseBreaks(s)
    decreases |s|
  {
    match FirstBreak(s)
    case None =>
      NormalisePlainPrefix(s, []);
      assert s + [] == s;
    case Some(i) =>
      var rest := s[i + BreakWidth(s, i)..];
      SplitLinesJoin(rest);
      NormaliseAtBreak(s, i);
      var r := SplitLines(s);
      assert r[0] == s[..i] && r[1..] == SplitLines(rest);
  }

  // ---------------------------------------------------------------------
  // `unfoldLines` (lines 75-87)

  /** A line that starts with a space or a tab continues the previous one. */
  predicate IsContinuation(line: string) {
    |line| > 0 && (line[0] == ' ' || line[0] == '\t')
  }

  /** The unfolded lines of `lines`, defined one input line at a time from the last. */
  function Unfold(lines: seq<string>): (r: seq<string>)
    ensures |r| <= |lines|
    decreases |lines|
  {
    if |lines| == 0 then []
    else
      var prev := Unfold(lines[..|lines| - 1]);
      var line := lines[|lines| - 1];
      if !IsContinuation(line) then prev + [line]
      else if |prev| == 0 then prev
      else prev[|prev| - 1 := prev[|prev| - 1] + Trim(line)]
  }

  /** `unfoldLines`: a continuation (trimmed) is appended to the last line so far, or dropped when there is none. */
  method UnfoldLines(lines: seq<string>) returns (unfolded: seq<string>)
    ensures unfolded == Unfold(lines)
  {
    unfolded := [];
    for i := 0 to |lines|
      invariant unfolded == Unfold(lines[..i])
    {
      var line := lines[i];
      assert lines[..i + 1][..i] == lines[..i];
      if IsContinuation(line) {
        if |unfolded| > 0 {
          unfolded := unfolded[|unfolded| - 1 := unfolded[|unfolded| - 1] + Trim(line)];
        }
      } else {
        unfolded := unfolded + [line];
      }
    }
    assert lines[..|lines|] == lines;
  }

  function CountPlain(lines: seq<string>): nat
    decreases |lines|
  {
    if |lines| == 0 then 0
    else CountPlain(lines[..|lines| - 1]) + (if IsContinuation(lines[|lines| - 1]) then 0 else 1)
  }

  /**
   * One unfolded line per line that is not a continuation, and no unfolded
   * line is itself a continuation: a line that was empty and received a
   * continuation starts with the trimmed text, which is not whitespace.
   */
  lemma {:induction false} UnfoldShape(lines: seq<string>)
    ensures |Unfold(lines)| == CountPlain(lines)
    ensures forall i :: 0 <= i < |Unfold(lines)| ==> !IsContinuation(Unfold(lines)[i])
    decreases |lines|
  {
    if |lines| > 0 {
      var prev := Unfold(lines[..|lines| - 1]);
      var line := lines[|lines| - 1];
      UnfoldShape(lines[..|lines| - 1]);
      if IsContinuation(line) && |prev| > 0 {
        var last := prev[|prev| - 1];
        TrimBounds(line);
        assert !IsContinuation(last);
        assert !IsContinuation(last + Trim(line)) by {
          if |last| == 0 {
            assert last + Trim(line) == Trim(line);
            assert IsWhitespace(' ') && IsWhitespace('\t');
          } else {
            assert (last + Trim(line))[0] == last[0];
          }
        }
      }
    }
  }

  /** Lines none of which is a continuation are left as they are. */
  lemma {:induction false} UnfoldPlain(lines: seq<string>)
    requires forall i :: 0 <= i < |lines| ==> !IsContinuation(lines[i])
    ensures Unfold(lines) == lines
    decreases |lines|
  {
    if |lines| > 0 {
      UnfoldPlain(lines[..|lines| - 1]);
      assert lines[..|lines| - 1] + [lines[|lines| - 1]] == lines;
    }
  }

  /** Unfolding twice is unfolding once. */
  lemma UnfoldIdempotent(lines: seq<string>)
    ensures Unfold(Unfold(lines)) == Unfold(lines)
  {
    UnfoldShape(lines);
    UnfoldPlain(Unfold(lines));
  }

  // ---------------------------------------------------------------------
  // One property line (lines 124-131)

  /** The text before the first `;`: `split(';')[0]`. */
  function BeforeSemicolon(s: string): (r: string)
    ensures |r| <= |s| && r == s[..|r|]
    ensures forall i :: 0 <= i < |r| ==> r[i] != ';'
    ensures |r| < |s| ==> s[|r|] == ';'
  {
    match IndexOf(s, ";")
    case None =>
      assert forall i :: 0 <= i < |s| ==> s[i] != ';' by {
        forall i | 0 <= i < |s| ensures s[i] != ';' {
          assert s[i] == ';' ==> OccursAt(s, ";", i);
        }
      }
      s
    case Some(k) =>
      assert s[k..k + 1] == ";";
      assert forall i :: 0 <= i < k ==> s[i] != ';' by {
        forall i | 0 <= i < k ensures s[i] != ';' {
          assert s[i] == ';' ==> OccursAt(s, ";", i);
        }
      }
      s[..k]
  }

  /** The key without its parameters and the value after the first `:`, when the line has a `:`. */
  function ParseProperty(line: string): (r: Option<(string, string)>)
    ensures r.None? <==> !Contains(line, ":")
    ensures r.Some? ==> exists k :: (0 <= k < |line| && line[k] == ':'
                          && (forall i :: 0 <= i < k ==> line[i] != ':')
                          && r.value.0 == BeforeSemicolon(line[..k]) && r.value.1 == line[k + 1..])
  {
    match IndexOf(line, ":")
    case None => None
    case Some(k) =>
      assert line[k..k + 1] == ":";
      assert forall i :: 0 <= i < k ==> line[i] != ':' by {
        forall i | 0 <= i < k ensures line[i] != ':' {
          if line[i] == ':' { assert OccursAt(line, ":", i); }
        }
      }
      Some((BeforeSemicolon(line[..k]), line[k + 1..]))
  }

  // ---------------------------------------------------------------------
  // The event loop (lines 100-130)

  /**
   * The loop's state: whether it is inside an event, the event's properties
   * so far (`null` is `None`), and the fixtures collected.
   */
  datatype Parser = Parser(inEvent: bool, current: Option<Event>, fixtures: seq<Fixture>)

  const Start: Parser := Parser(false, None, [])

  predicate Consistent(p: Parser) {
    p.inEvent <==> p.current.Some?
  }

  /** Both `DTSTART` and `SUMMARY` present and non-empty. */
  predicate Complete(ev: Event) {
    "DTSTART" in ev && ev["DTSTART"] != "" && "SUMMARY" in ev && ev["SUMMARY"] != ""
  }

  /** What `END:VEVENT` adds: the classified event, when it is complete and its date parses. */
  function Emit(ev: Event, fixtures: seq<Fixture>, now: int, offset: int, freshId: nat -> string): (r: seq<Fixture>)
    ensures fixtures <= r && |r| <= |fixtures| + 1
    ensures |r| == |fixtures| + 1 <==> Complete(ev) && ParseIcsDate(ev["DTSTART"], offset).Some?
  {
    if Complete(ev) then
      match ParseIcsDate(ev["DTSTART"], offset)
      case Some(date) => fixtures + [Classify(ev, date, now, offset, freshId(|fixtures|))]
      case None => fixtures
    else fixtures
  }

  function Step(p: Parser, line: string, now: int, offset: int, freshId: nat -> string): (r: Parser)
    ensures p.fixtures <= r.fixtures && |r.fixtures| <= |p.fixtures| + 1
    ensures !StartsWith(line, "END:VEVENT") ==> r.fixtures == p.fixtures
  {
    if StartsWith(line, "BEGIN:VEVENT") then Parser(true, Some(map[]), p.fixtures)
    else if StartsWith(line, "END:VEVENT") then
      Parser(false, None, if p.current.Some? then Emit(p.current.value, p.fixtures, now, offset, freshId) else p.fixtures)
    else if p.inEvent && p.current.Some? then
      match ParseProperty(line)
      case Some(kv) => p.(current := Some(p.current.value[kv.0 := kv.1]))
      case None => p
    else p
  }

  /** The state after the loop has seen `lines`, defined from the last line. */
  function Run(p: Parser, lines: seq<string>, now: int, offset: int, freshId: nat -> string): (r: Parser)
    ensures p.fixtures <= r.fixtures && |r.fixtures| <= |p.fixtures| + |lines|
    decreases |lines|
  {
    if |lines| == 0 then p
    else Step(Run(p, lines[..|lines| - 1], now, offset, freshId), lines[|lines| - 1], now, offset, freshId)
  }

  const NotCalendar: string := "Received data is not a valid ICS calendar file"

  /** `parseICS`: text without `BEGIN:VCALENDAR` anywhere is refused. */
  function ParseIcs(text: string, now: int, offset: int, freshId: nat -> string): (r: Result<seq<Fixture>, string>)
    ensures r.Err? <==> !Contains(text, "BEGIN:VCALENDAR")
    ensures r.Err? ==> r.error == NotCalendar
  {
    if !Contains(text, "BEGIN:VCALENDAR") then Err(NotCalendar)
    else Ok(Run(Start, Unfold(SplitLines(text)), now, offset, freshId).fixtures)
  }

  /** The body of the loop for one line; `continue` ends the first two branches. */
  method ReadLine(inEvent0: bool, currentEvent0: Option<Event>, fixtures0: seq<Fixture>, line: string,
                  now: int, offset: int, freshId: nat -> string)
    returns (inEvent: bool, currentEvent: Option<Event>, fixtures: seq<Fixture>)
    ensures Parser(inEvent, currentEvent, fixtures) == Step(Parser(inEvent0, currentEvent0, fixtures0), line, now, offset, freshId)
  {
    inEvent, currentEvent, fixtures := inEvent0, currentEvent0, fixtures0;
    if StartsWith(line, "BEGIN:VEVENT") {
      inEvent := true;
      currentEvent := Some(map[]);
      return;
    }
    if StartsWith(line, "END:VEVENT") {
      inEvent := false;
      if currentEvent.Some? && Complete(currentEvent.value) {
        var ev := currentEvent.value;
        var date := ParseIcsDate(ev["DTSTART"], offset);
        if date.Some? {
          var f := MapEventToFixture(ev, date.value, now, offset, freshId(|fixtures|));
          fixtures := fixtures + [f];
        }
      }
      currentEvent := None;
      return;
    }
    if inEvent && currentEvent.Some? {
      var kv := ParseProperty(line);
      if kv.Some? {
        currentEvent := Some(currentEvent.value[kv.value.0 := kv.value.1]);
      }
    }
  }

  /** `parseICS` with its loop: the state is three locals the loop updates. */
  method ParseIcsText(text: string, now: int, offset: int, freshId: nat -> string) returns (r: Result<seq<Fixture>, string>)
    ensures r == ParseIcs(text, now, offset, freshId)
  {
    if !Contains(text, "BEGIN:VCALENDAR") {
      return Err(NotCalendar);
    }
    var lines := UnfoldLines(SplitLines(text));
    var fixtures: seq<Fixture> := [];
    var currentEvent: Option<Event> := None;
    var inEvent := false;
    for i := 0 to |lines|
      invariant Parser(inEvent, currentEvent, fixtures) == Run(Start, lines[..i], now, offset, freshId)
      invariant Consistent(Parser(inEvent, currentEvent, fixtures))
    {
      assert lines[..i + 1][..i] == lines[..i];
      RunConsistent(Start, lines[..i + 1], now, offset, freshId);
      inEvent, currentEvent, fixtures := ReadLine(inEvent, currentEvent, fixtures, lines[i], now, offset, freshId);
    }
    assert lines[..|lines|] == lines;
    return Ok(fixtures);
  }

  // ---------------------------------------------------------------------
  // Properties of the loop

  /** Being inside an event and having an event under construction go together. */
  lemma StepConsistent(p: Parser, line: string, now: int, offset: int, freshId: nat -> string)
    requires Consistent(p)
    ensures Consistent(Step(p, line, now, offset, freshId))
  {
  }

  /** From a consistent state, the whole loop keeps `inEvent` and the current event in step. */
  lemma {:induction false} RunConsistent(p: Parser, lines: seq<string>, now: int, offset: int, freshId: nat -> string)
    requires Consistent(p)
    ensures Consistent(Run(p, lines, now, offset, freshId))
    decreases |lines|
  {
    if |lines| > 0 {
      RunConsistent(p, lines[..|lines| - 1], now, offset, freshId);
      StepConsistent(Run(p, lines[..|lines| - 1], now, offset, freshId), lines[|lines| - 1], now, offset, freshId);
    }
  }

  function CountEnds(lines: seq<string>): nat
    decreases |lines|
  {
    if |lines| == 0 then 0
    else CountEnds(lines[..|lines| - 1]) + (if StartsWith(lines[|lines| - 1], "END:VEVENT") then 1 else 0)
  }

  /**
   * The loop only appends: the fixtures before it are a prefix of those after,
   * and it adds at most one fixture per `END:VEVENT` line.
   */
  lemma {:induction false} RunAppends(p: Parser, lines: seq<string>, now: int, offset: int, freshId: nat -> string)
    ensures var q := Run(p, lines, now, offset, freshId);
      && p.fixtures <= q.fixtures
      && |q.fixtures| <= |p.fixtures| + CountEnds(lines)
    decreases |lines|
  {
    if |lines| > 0 {
      RunAppends(p, lines[..|lines| - 1], now, offset, freshId);
    }
  }

  /** Outside an event, a line that neither opens nor closes one changes nothing. */
  lemma IgnoredOutsideEvents(p: Parser, line: string, now: int, offset: int, freshId: nat -> string)
    requires !p.inEvent && !StartsWith(line, "BEGIN:VEVENT") && !StartsWith(line, "END:VEVENT")
    ensures Step(p, line, now, offset, freshId) == p
  {
  }

  /** `BEGIN:VEVENT` discards any unfinished event; `END:VEVENT` without an open event adds nothing. */
  lemma BeginResetsEndCloses(p: Parser, line: string, now: int, offset: int, freshId: nat -> string)
    ensures StartsWith(line, "BEGIN:VEVENT") ==> Step(p, line, now, offset, freshId) == Parser(true, Some(map[]), p.fixtures)
    ensures !StartsWith(line, "BEGIN:VEVENT") && StartsWith(line, "END:VEVENT") && p.current.None? ==>
      Step(p, line, now, offset, freshId) == Parser(false, None, p.fixtures)
  {
  }

  /** Inside an event a property line sets its key, overwriting an earlier value. */
  lemma LaterValueWins(p: Parser, line1: string, line2: string, now: int, offset: int, freshId: nat -> string)
    requires p.inEvent && p.current.Some?
    requires !StartsWith(line1, "BEGIN:VEVENT") && !StartsWith(line1, "END:VEVENT")
    requires !StartsWith(line2, "BEGIN:VEVENT") && !StartsWith(line2, "END:VEVENT")
    requires ParseProperty(line1).Some? && ParseProperty(line2).Some?
    requires ParseProperty(line1).value.0 == ParseProperty(line2).value.0
    ensures var q := Step(Step(p, line1, now, offset, freshId), line2, now, offset, freshId);
      q.current.Some? && q.current.value == p.current.value[ParseProperty(line2).value.0 := ParseProperty(line2).value.1]
  {
  }

  /**
   * A complete event whose date parses becomes exactly one fixture, the
   * classifier's; one that is incomplete or undated is dropped.
   */
  lemma EndEmits(p: Parser, ev: Event, line: string, now: int, offset: int, freshId: nat -> string)
    requires p.current == Some(ev) && !StartsWith(line, "BEGIN:VEVENT") && StartsWith(line, "END:VEVENT")
    ensures var q := Step(p, line, now, offset, freshId);
      && (Complete(ev) && ParseIcsDate(ev["DTSTART"], offset).Some? ==>
            q.fixtures == p.fixtures + [Classify(ev, ParseIcsDate(ev["DTSTART"], offset).value, now, offset, freshId(|p.fixtures|))])
      && (!(Complete(ev) && ParseIcsDate(ev["DTSTART"], offset).Some?) ==> q.fixtures == p.fixtures)
  {
    assert Step(p, line, now, offset, freshId).fixtures == Emit(ev, p.fixtures, now, offset, freshId);
  }
}
