/**
 * `getFixtures`: the calendar is fetched through a list of relays, one after
 * another. Each relay's network outcome is an input; what the loop does with
 * it (read the text or the JSON `contents` field, decode a `data:` URI,
 * reject short bodies and HTML pages, parse) is modelled, and the first
 * relay that yields a calendar returns its fixtures sorted by date.
 */
module Relay {
  import opened Wrappers
  import opened Text
  import opened Fixtures
  import opened Ics
  import Base64
  import Utf8

  // ---------------------------------------------------------------------
  // The relay table (lines 11-36)

  /** Whether a relay answers with the calendar text or with a JSON envelope around it. */
  datatype Kind = TextKind | JsonKind

  /** A relay: the URL prefix to which the encoded target URL is appended. */
  datatype Proxy = Proxy(prefix: string, kind: Kind)

  const Proxies: seq<Proxy> := [
    Proxy("https://corsproxy.io/?", TextKind),
    Proxy("https://api.allorigins.win/get?url=", JsonKind),
    Proxy("https://api.codetabs.com/v1/proxy?quest=", TextKind),
    Proxy("https://api.allorigins.win/raw?url=", TextKind)
  ]

  const CalendarPrefix: string := "https://calendar.google.com/calendar/ical/"
  const CalendarSuffix: string := "/public/basic.ics"

  /**
   * The public iCalendar address of a calendar: whatever the id, it stays
   * within one path segment, and an id of unreserved characters appears verbatim.
   */
  function IcsUrl(calendarId: string): (r: string)
    ensures StartsWith(r, CalendarPrefix) && EndsWith(r, CalendarSuffix)
    ensures forall i :: |CalendarPrefix| <= i < |r| - |CalendarSuffix| ==>
      Utf8.IsUnreserved(r[i]) || r[i] == '%' || Utf8.IsUpperHex(r[i])
    ensures (forall i :: 0 <= i < |calendarId| ==> Utf8.IsUnreserved(calendarId[i])) ==>
      r == CalendarPrefix + calendarId + CalendarSuffix
  {
    var e := Utf8.EncodeUriComponent(calendarId);
    var r := CalendarPrefix + e + CalendarSuffix;
    assert r[..|CalendarPrefix|] == CalendarPrefix;
    assert r[|r| - |CalendarSuffix|..] == CalendarSuffix;
    assert forall i :: |CalendarPrefix| <= i < |r| - |CalendarSuffix| ==> r[i] == e[i - |CalendarPrefix|];
    r
  }

  /** The address a relay is asked for: its prefix, then the target URL percent-encoded. */
  function ProxyUrl(p: Proxy, target: string): (r: string)
    ensures StartsWith(r, p.prefix)
    ensures forall i :: |p.prefix| <= i < |r| ==> Utf8.IsUnreserved(r[i]) || r[i] == '%' || Utf8.IsUpperHex(r[i])
  {
    var r := p.prefix + Utf8.EncodeUriComponent(target);
    assert r[..|p.prefix|] == p.prefix;
    r
  }

  // ---------------------------------------------------------------------
  // One relay's outcome

  /** What `response.json()` gives: a syntax error, or the `contents` field when it is a string. */
  datatype JsonBody = NotJson(error: string) | Envelope(contents: Option<string>)

  /**
   * The outcome of one `fetchWithTimeout`: it rejected (network failure or
   * timeout, with its message), or a response arrived with its `ok` flag, its
   * text, and its body read as JSON.
   */
  datatype Outcome = Unreachable(error: string) | Responded(ok: bool, text: string, json: JsonBody)

  /** A relay was skipped (a non-2xx status), failed with an error, or produced fixtures. */
  datatype Attempt = Skipped | Failure(error: string) | Success(fixtures: seq<Fixture>)

  const MissingContents: string := "JSON response missing 'contents' field"
  const EmptyPayload: string := "Empty or invalid response from proxy"
  const HtmlPayload: string := "Proxy returned HTML error page instead of ICS data"
  const Unavailable: string := "Failed to load calendar data. Please check your internet connection or try again later."

  /** The payload: the text itself, or a JSON envelope's non-empty `contents`. */
  function Payload(kind: Kind, text: string, json: JsonBody): (r: Result<string, string>)
    ensures kind == TextKind ==> r == Ok(text)
    ensures kind == JsonKind && json.Envelope? && json.contents.Some? && json.contents.value != "" ==> r == Ok(json.contents.value)
    ensures kind == JsonKind && json.Envelope? && !(json.contents.Some? && json.contents.value != "") ==> r == Err(MissingContents)
    ensures kind == JsonKind && json.NotJson? ==> r == Err(json.error)
  {
    match kind
    case TextKind => Ok(text)
    case JsonKind =>
      match json
      case NotJson(e) => Err(e)
      case Envelope(c) => if c.Some? && c.value != "" then Ok(c.value) else Err(MissingContents)
  }

  const Base64Marker: string := ";base64,"

  /**
   * A `data:` URI with a `;base64,` marker is replaced by the UTF-8 text of
   * the bytes after the marker; when they are not valid base 64 the text is
   * kept as it was.
   */
  function DecodeDataUri(s: string): (r: string)
    ensures !StartsWith(s, "data:") || !Contains(s, Base64Marker) ==> r == s
    ensures StartsWith(s, "data:") && Contains(s, Base64Marker) ==>
      var k := IndexOf(s, Base64Marker).value;
      match Base64.Decode(s[k + |Base64Marker|..])
      case None => r == s
      case Some(bytes) => r == Utf8.Decode(bytes)
  {
    if !StartsWith(s, "data:") then s
    else match IndexOf(s, Base64Marker)
      case None => s
      case Some(k) =>
        match Base64.Decode(s[k + |Base64Marker|..])
        case None => s
        case Some(bytes) => Utf8.Decode(bytes)
  }

  /** The checks before parsing: at least 50 UTF-16 units, and not an HTML page once trimmed. */
  function Screen(s: string): (r: Option<string>)
    ensures r == Some(EmptyPayload) <==> Utf16Length(s) < 50
    ensures r == Some(HtmlPayload) <==>
      Utf16Length(s) >= 50 && (StartsWith(Trim(s), "<!DOCTYPE") || StartsWith(Trim(s), "<html"))
    ensures r.None? <==>
      Utf16Length(s) >= 50 && !StartsWith(Trim(s), "<!DOCTYPE") && !StartsWith(Trim(s), "<html")
  {
    if Utf16Length(s) < 50 then Some(EmptyPayload)
    else if StartsWith(Trim(s), "<!DOCTYPE") || StartsWith(Trim(s), "<html") then Some(HtmlPayload)
    else None
  }

  /** What one pass of the loop body makes of a relay's outcome. */
  function AttemptOf(kind: Kind, o: Outcome, now: int, offset: int, freshId: nat -> string): (r: Attempt)
    ensures o.Unreachable? ==> r == Failure(o.error)
    ensures o.Responded? && !o.ok ==> r == Skipped
  {
    match o
    case Unreachable(e) => Failure(e)
    case Responded(ok, text, json) =>
      if !ok then Skipped
      else match Payload(kind, text, json)
        case Err(e) => Failure(e)
        case Ok(raw) =>
          var s := DecodeDataUri(raw);
          match Screen(s)
          case Some(e) => Failure(e)
          case None =>
            match ParseIcs(s, now, offset, freshId)
            case Err(e) => Failure(e)
            case Ok(fs) => Success(fs)
  }

  /** What each relay's outcome makes of the loop body, relay by relay. */
  function Attempts(outcomes: seq<Outcome>, now: int, offset: int, freshId: nat -> string): (r: seq<Attempt>)
    requires |outcomes| == |Proxies|
    ensures |r| == |Proxies|
    ensures forall j :: 0 <= j < |r| ==> r[j] == AttemptOf(Proxies[j].kind, outcomes[j], now, offset, freshId)
  {
    seq(|Proxies|, j requires 0 <= j < |Proxies| => AttemptOf(Proxies[j].kind, outcomes[j], now, offset, freshId))
  }

  /** The loop from relay `i` on, with the last error seen so far. */
  function RelayFrom(attempts: seq<Attempt>, i: nat, lastError: Option<string>): (r: Result<seq<Fixture>, string>)
    requires i <= |attempts|
    ensures r.Ok? ==> SortedByDate(r.value)
    ensures r.Err? <==> forall j :: i <= j < |attempts| ==> !attempts[j].Success?
    decreases |attempts| - i
  {
    if i == |attempts| then Err(if lastError.Some? then lastError.value else Unavailable)
    else match attempts[i]
      case Success(fs) => SortSorted(fs); Ok(SortByDate(fs))
      case Skipped => RelayFrom(attempts, i + 1, lastError)
      case Failure(e) => RelayFrom(attempts, i + 1, Some(e))
  }

  function Fetch(outcomes: seq<Outcome>, now: int, offset: int, freshId: nat -> string): (r: Result<seq<Fixture>, string>)
    requires |outcomes| == |Proxies|
    ensures r.Ok? ==> SortedByDate(r.value)
    ensures r.Err? <==> forall j :: 0 <= j < |Proxies| ==> !AttemptOf(Proxies[j].kind, outcomes[j], now, offset, freshId).Success?
  {
    RelayFrom(Attempts(outcomes, now, offset, freshId), 0, None)
  }

  /** The `data:` URI branch of the loop body: the base 64 payload decoded as UTF-8, when there is one. */
  method DecodeDataBlock(icsData: string) returns (r: string)
    ensures r == DecodeDataUri(icsData)
  {
    r := icsData;
    if icsData != "" && StartsWith(icsData, "data:") {
      var base64Index := IndexOf(icsData, Base64Marker);
      if base64Index.Some? {
        var base64 := icsData[base64Index.value + |Base64Marker|..];
        var bytes := Base64.Decode(base64);
        if bytes.Some? {
          r := Utf8.Decode(bytes.value);
        }
      }
    }
  }

  /**
   * The `try` block of the loop for one relay: a non-2xx status is `Skipped`
   * (a `continue`), a thrown error is a `Failure`, and parsed fixtures are a
   * `Success`.
   */
  method TryRelay(proxy: Proxy, response: Outcome, now: int, offset: int, freshId: nat -> string) returns (a: Attempt)
    ensures a == AttemptOf(proxy.kind, response, now, offset, freshId)
  {
    if response.Unreachable? {
      return Failure(response.error);
    }
    if !response.ok {
      return Skipped;
    }
    var icsData := "";
    if proxy.kind == JsonKind {
      if response.json.NotJson? {
        return Failure(response.json.error);
      }
      var contents := response.json.contents;
      if contents.Some? && contents.value != "" {
        icsData := contents.value;
      } else {
        return Failure(MissingContents);
      }
    } else {
      icsData := response.text;
    }
    assert Payload(proxy.kind, response.text, response.json) == Ok(icsData);
    icsData := DecodeDataBlock(icsData);
    if icsData == "" || Utf16Length(icsData) < 50 {
      return Failure(EmptyPayload);
    }
    if StartsWith(Trim(icsData), "<!DOCTYPE") || StartsWith(Trim(icsData), "<html") {
      return Failure(HtmlPayload);
    }
    var parsed := ParseIcsText(icsData, now, offset, freshId);
    if parsed.Err? {
      return Failure(parsed.error);
    }
    return Success(parsed.value);
  }

  /** `getFixtures`: `outcomes[i]` is what fetching relay `i` gives. */
  method GetFixtures(outcomes: seq<Outcome>, now: int, offset: int, freshId: nat -> string) returns (r: Result<seq<Fixture>, string>)
    requires |outcomes| == |Proxies|
    ensures r == Fetch(outcomes, now, offset, freshId)
  {
    ghost var attempts := Attempts(outcomes, now, offset, freshId);
    var lastError: Option<string> := None;
    for i := 0 to |Proxies|
      invariant RelayFrom(attempts, i, lastError) == Fetch(outcomes, now, offset, freshId)
    {
      var attempt := TryRelay(Proxies[i], outcomes[i], now, offset, freshId);
      match attempt {
        case Skipped =>
          continue;
        case Failure(error) =>
          lastError := Some(error);
          continue;
        case Success(allFixtures) =>
          return Ok(SortByDate(allFixtures));
      }
    }
    return Err(if lastError.Some? then lastError.value else Unavailable);
  }

  // ---------------------------------------------------------------------
  // `allFixtures.sort((a, b) => a.date - b.date)`, a stable sort

  predicate SortedByDate(fs: seq<Fixture>) {
    forall i, j :: 0 <= i < j < |fs| ==> fs[i].date <= fs[j].date
  }

  /** `x` placed after every element whose date is not later than its own. */
  function Insert(x: Fixture, s: seq<Fixture>): (r: seq<Fixture>)
    ensures multiset(r) == multiset(s) + multiset{x}
    ensures |r| == |s| + 1
    decreases |s|
  {
    if |s| == 0 || s[|s| - 1].date <= x.date then s + [x]
    else
      assert s == s[..|s| - 1] + [s[|s| - 1]];
      Insert(x, s[..|s| - 1]) + [s[|s| - 1]]
  }

  function SortByDate(fs: seq<Fixture>): (r: seq<Fixture>)
    ensures |r| == |fs|
    decreases |fs|
  {
    if |fs| == 0 then [] else Insert(fs[|fs| - 1], SortByDate(fs[..|fs| - 1]))
  }

  /** Every element of `Insert(x, s)` is `x` or an element of `s`. */
  lemma {:induction false} InsertElements(x: Fixture, s: seq<Fixture>)
    ensures forall f :: f in Insert(x, s) <==> f == x || f in s
  {
    assert multiset(Insert(x, s)) == multiset(s) + multiset{x};
    forall f ensures f in Insert(x, s) <==> f == x || f in s {
      assert f in Insert(x, s) <==> f in multiset(Insert(x, s));
      assert f in s <==> f in multiset(s);
    }
  }

  lemma {:induction false} InsertSorted(x: Fixture, s: seq<Fixture>)
    requires SortedByDate(s)
    ensures SortedByDate(Insert(x, s))
    decreases |s|
  {
    if |s| > 0 && s[|s| - 1].date > x.date {
      var init := s[..|s| - 1];
      var last := s[|s| - 1];
      InsertSorted(x, init);
      var t := Insert(x, init);
      InsertElements(x, init);
      assert forall k :: 0 <= k < |t| ==> t[k].date <= last.date by {
        forall k | 0 <= k < |t| ensures t[k].date <= last.date {
          assert t[k] in t;
          if t[k] != x {
            var m :| 0 <= m < |init| && init[m] == t[k];
          }
        }
      }
    }
  }

  /** The result is ordered by date. */
  lemma {:induction false} SortSorted(fs: seq<Fixture>)
    ensures SortedByDate(SortByDate(fs))
    decreases |fs|
  {
    if |fs| > 0 {
      SortSorted(fs[..|fs| - 1]);
      InsertSorted(fs[|fs| - 1], SortByDate(fs[..|fs| - 1]));
    }
  }

  /** The result holds the same fixtures, each as often as before. */
  lemma {:induction false} SortPermutes(fs: seq<Fixture>)
    ensures multiset(SortByDate(fs)) == multiset(fs)
    decreases |fs|
  {
    if |fs| > 0 {
      SortPermutes(fs[..|fs| - 1]);
      assert fs == fs[..|fs| - 1] + [fs[|fs| - 1]];
    }
  }

  /** The fixtures on instant `d`, in order. */
  function OnInstant(fs: seq<Fixture>, d: int): seq<Fixture>
    decreases |fs|
  {
    if |fs| == 0 then []
    else OnInstant(fs[..|fs| - 1], d) + (if fs[|fs| - 1].date == d then [fs[|fs| - 1]] else [])
  }

  lemma {:induction false} OnInstantAppend(a: seq<Fixture>, b: seq<Fixture>, d: int)
    ensures OnInstant(a + b, d) == OnInstant(a, d) + OnInstant(b, d)
    decreases |b|
  {
    if |b| == 0 {
      assert a + b == a;
    } else {
      assert (a + b)[..|a + b| - 1] == a + b[..|b| - 1];
      OnInstantAppend(a, b[..|b| - 1], d);
    }
  }

  /** Elements dated after `d` contribute nothing on `d`. */
  lemma {:induction false} OnInstantLater(s: seq<Fixture>, d: int)
    requires forall k :: 0 <= k < |s| ==> s[k].date > d
    ensures OnInstant(s, d) == []
    decreases |s|
  {
    if |s| > 0 {
      OnInstantLater(s[..|s| - 1], d);
    }
  }

  lemma OnInstantSingle(f: Fixture, d: int)
    ensures OnInstant([f], d) == if f.date == d then [f] else []
  {
    assert [f][..0] == [];
  }

  /** Putting a later fixture `last` behind both sides keeps `x`'s place on its instant. */
  lemma InsertBehind(x: Fixture, init: seq<Fixture>, t: seq<Fixture>, last: Fixture, d: int)
    requires last.date > x.date
    requires OnInstant(t, d) == OnInstant(init, d) + (if x.date == d then [x] else [])
    ensures OnInstant(t + [last], d) == OnInstant(init + [last], d) + (if x.date == d then [x] else [])
  {
    OnInstantAppend(t, [last], d);
    OnInstantAppend(init, [last], d);
    OnInstantSingle(last, d);
    var xs := if x.date == d then [x] else [];
    var ls := if last.date == d then [last] else [];
    assert xs == [] || ls == [];
    assert OnInstant(t + [last], d) == OnInstant(init, d) + xs + ls;
  }

  /**
   * Inserting `x` adds it behind every fixture with its own date, and leaves
   * the fixtures of every other date alone.
   */
  lemma {:induction false} InsertStable(x: Fixture, s: seq<Fixture>, d: int)
    ensures OnInstant(Insert(x, s), d) == OnInstant(s, d) + (if x.date == d then [x] else [])
    decreases |s|
  {
    if |s| == 0 || s[|s| - 1].date <= x.date {
      OnInstantSingle(x, d);
      OnInstantAppend(s, [x], d);
    } else {
      var init := s[..|s| - 1];
      var last := s[|s| - 1];
      assert s == init + [last];
      InsertStable(x, init, d);
      InsertBehind(x, init, Insert(x, init), last, d);
    }
  }

  /** The sort is stable: fixtures on the same instant keep their order. */
  lemma {:induction false} SortStable(fs: seq<Fixture>, d: int)
    ensures OnInstant(SortByDate(fs), d) == OnInstant(fs, d)
    decreases |fs|
  {
    if |fs| > 0 {
      SortStable(fs[..|fs| - 1], d);
      InsertStable(fs[|fs| - 1], SortByDate(fs[..|fs| - 1]), d);
    }
  }

  // ---------------------------------------------------------------------
  // Properties of the loop

  /** The last error among relays `i` to `k - 1`, or `e` when none of them failed. */
  function LastError(attempts: seq<Attempt>, i: nat, k: nat, e: Option<string>): Option<string>
    requires i <= k <= |attempts|
    decreases k - i
  {
    if i == k then e
    else match attempts[i]
      case Failure(f) => LastError(attempts, i + 1, k, Some(f))
      case _ => LastError(attempts, i + 1, k, e)
  }

  /**
   * Relays are tried in order: when relay `k` is the first to produce
   * fixtures, they are the result, sorted by date, and the relays after it
   * are never consulted.
   */
  lemma {:induction false} FirstSuccessWins(attempts: seq<Attempt>, i: nat, k: nat, e: Option<string>)
    requires i <= k < |attempts| && attempts[k].Success?
    requires forall j :: i <= j < k ==> !attempts[j].Success?
    ensures RelayFrom(attempts, i, e) == Ok(SortByDate(attempts[k].fixtures))
    decreases k - i
  {
    if i < k {
      var a := attempts[i];
      FirstSuccessWins(attempts, i + 1, k, if a.Failure? then Some(a.error) else e);
    }
  }

  /** The fetch returns the fixtures of the first relay to produce any, sorted by date. */
  lemma FetchFirstSuccess(outcomes: seq<Outcome>, k: nat, now: int, offset: int, freshId: nat -> string)
    requires |outcomes| == |Proxies| && k < |Proxies|
    requires AttemptOf(Proxies[k].kind, outcomes[k], now, offset, freshId).Success?
    requires forall j :: 0 <= j < k ==> !AttemptOf(Proxies[j].kind, outcomes[j], now, offset, freshId).Success?
    ensures Fetch(outcomes, now, offset, freshId)
         == Ok(SortByDate(AttemptOf(Proxies[k].kind, outcomes[k], now, offset, freshId).fixtures))
  {
    FirstSuccessWins(Attempts(outcomes, now, offset, freshId), 0, k, None);
  }

  /**
   * When no relay produces fixtures the loop fails with the last error
   * thrown; relays that were merely skipped for their status leave no error,
   * so when every relay was skipped the generic message is the result.
   */
  lemma {:induction false} NoSuccessLastError(attempts: seq<Attempt>, i: nat, e: Option<string>)
    requires i <= |attempts|
    requires forall j :: i <= j < |attempts| ==> !attempts[j].Success?
    ensures var last := LastError(attempts, i, |attempts|, e);
      RelayFrom(attempts, i, e) == Err(if last.Some? then last.value else Unavailable)
    decreases |attempts| - i
  {
    if i < |attempts| {
      var a := attempts[i];
      NoSuccessLastError(attempts, i + 1, if a.Failure? then Some(a.error) else e);
    }
  }

  /** With no relay producing fixtures the fetch fails with the last relay error, or the generic message. */
  lemma FetchNoSuccess(outcomes: seq<Outcome>, now: int, offset: int, freshId: nat -> string)
    requires |outcomes| == |Proxies|
    requires forall j :: 0 <= j < |Proxies| ==> !AttemptOf(Proxies[j].kind, outcomes[j], now, offset, freshId).Success?
    ensures var last := LastError(Attempts(outcomes, now, offset, freshId), 0, |Proxies|, None);
      Fetch(outcomes, now, offset, freshId) == Err(if last.Some? then last.value else Unavailable)
  {
    NoSuccessLastError(Attempts(outcomes, now, offset, freshId), 0, None);
  }

  /** Every relay answering with a non-2xx status gives the generic error. */
  lemma AllSkippedIsUnavailable(outcomes: seq<Outcome>, now: int, offset: int, freshId: nat -> string)
    requires |outcomes| == |Proxies|
    requires forall j :: 0 <= j < |Proxies| ==> outcomes[j].Responded? && !outcomes[j].ok
    ensures Fetch(outcomes, now, offset, freshId) == Err(Unavailable)
  {
    var attempts := Attempts(outcomes, now, offset, freshId);
    NoSuccessLastError(attempts, 0, None);
    AllSkippedNoError(attempts, 0);
  }

  lemma {:induction false} AllSkippedNoError(attempts: seq<Attempt>, i: nat)
    requires i <= |attempts|
    requires forall j :: i <= j < |attempts| ==> attempts[j] == Skipped
    ensures LastError(attempts, i, |attempts|, None) == None
    decreases |attempts| - i
  {
    if i < |attempts| {
      AllSkippedNoError(attempts, i + 1);
    }
  }

  /**
   * A JSON reply without usable `contents`, a payload shorter than 50 units
   * and an HTML page each make the relay fail, so the loop moves on.
   */
  lemma RejectedPayloads(kind: Kind, text: string, json: JsonBody, now: int, offset: int, freshId: nat -> string)
    ensures kind == JsonKind && json.Envelope? && !(json.contents.Some? && json.contents.value != "") ==>
      AttemptOf(kind, Responded(true, text, json), now, offset, freshId) == Failure(MissingContents)
    ensures Payload(kind, text, json).Ok? && Utf16Length(DecodeDataUri(Payload(kind, text, json).value)) < 50 ==>
      AttemptOf(kind, Responded(true, text, json), now, offset, freshId) == Failure(EmptyPayload)
    ensures Payload(kind, text, json).Ok? && Screen(DecodeDataUri(Payload(kind, text, json).value)) == Some(HtmlPayload) ==>
      AttemptOf(kind, Responded(true, text, json), now, offset, freshId) == Failure(HtmlPayload)
  {
  }

  lemma {:induction false} MarkerAfterHeader(header: string, payload: string)
    requires StartsWith(header, "data:") && forall i :: 0 <= i < |header| ==> header[i] != ';'
    ensures var s := header + Base64Marker + payload;
      StartsWith(s, "data:") && IndexOf(s, Base64Marker) == Some(|header|)
  {
    var s := header + Base64Marker + payload;
    assert s[..5] == header[..5];
    assert s[|header|..|header| + |Base64Marker|] == Base64Marker;
    ContainsAt(s, Base64Marker, |header|);
    var k := IndexOf(s, Base64Marker).value;
    assert k <= |header| by {
      assert !(k > |header|) || !OccursAt(s, Base64Marker, |header|);
    }
    assert s[k..k + |Base64Marker|][0] == ';';
    assert s[k] == ';';
  }

  /** A `data:` URI carrying base 64 of UTF-8 text decodes to that text. */
  lemma {:induction false} DataUriRoundTrip(header: string, text: string)
    requires StartsWith(header, "data:") && forall i :: 0 <= i < |header| ==> header[i] != ';'
    requires text == [] || text[0] != '\U{FEFF}'
    ensures DecodeDataUri(header + Base64Marker + Base64.Encode(Utf8.Encode(text))) == text
  {
    var payload := Base64.Encode(Utf8.Encode(text));
    var s := header + Base64Marker + payload;
    MarkerAfterHeader(header, payload);
    assert s[|header| + |Base64Marker|..] == payload;
    Base64.DecodeEncode(Utf8.Encode(text));
    Utf8.DecodeEncode(text);
  }
}
