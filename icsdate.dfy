/**
 * The date decoder of the fixture service (`parseIcsDate`): the basic
 * DATE-TIME and DATE forms of RFC 5545 sections 3.3.4 and 3.3.5, found by two
 * unanchored patterns. A date-time is read as UTC whether or not it ends in
 * `Z`; a bare date is midnight in local time.
 */
module IcsDate {
  import opened Wrappers
  import opened Text
  import Civil

  /** `k` ASCII digits stand at index `p`. */
  predicate DigitsAt(s: string, p: int, k: nat) {
    0 <= p && p + k <= |s| && forall i :: p <= i < p + k ==> IsDigit(s[i])
  }

  /** `(\d{4})(\d{2})(\d{2})T(\d{2})(\d{2})(\d{2})` matches at index `p`. */
  predicate StampAt(s: string, p: int) {
    DigitsAt(s, p, 8) && p + 8 < |s| && s[p + 8] == 'T' && DigitsAt(s, p + 9, 6)
  }

  /** `(\d{4})(\d{2})(\d{2})` matches at index `p`. */
  predicate DayAt(s: string, p: int) {
    DigitsAt(s, p, 8)
  }

  /** The date-time pattern matches at `p` and nowhere before it. */
  predicate FirstStamp(s: string, p: nat) {
    StampAt(s, p) && forall q :: 0 <= q < p ==> !StampAt(s, q)
  }

  /** The date pattern matches at `p` and nowhere before it. */
  predicate FirstDay(s: string, p: nat) {
    DayAt(s, p) && forall q :: 0 <= q < p ==> !DayAt(s, q)
  }

  /** The leftmost match of the date-time pattern at or after `from`. */
  function FindStamp(s: string, from: nat): (r: Option<nat>)
    ensures r.Some? ==> from <= r.value && StampAt(s, r.value)
    ensures r.Some? ==> forall q :: from <= q < r.value ==> !StampAt(s, q)
    ensures r.None? ==> forall q :: from <= q ==> !StampAt(s, q)
    decreases |s| - from
  {
    if from + 15 > |s| then None
    else if StampAt(s, from) then Some(from)
    else FindStamp(s, from + 1)
  }

  /** The leftmost match of the date pattern at or after `from`. */
  function FindDay(s: string, from: nat): (r: Option<nat>)
    ensures r.Some? ==> from <= r.value && DayAt(s, r.value)
    ensures r.Some? ==> forall q :: from <= q < r.value ==> !DayAt(s, q)
    ensures r.None? ==> forall q :: from <= q ==> !DayAt(s, q)
    decreases |s| - from
  {
    if from + 8 > |s| then None
    else if DayAt(s, from) then Some(from)
    else FindDay(s, from + 1)
  }

  /** `parseInt` of the `k` digits at index `p`. */
  function Number(s: string, p: nat, k: nat): (n: nat)
    requires DigitsAt(s, p, k)
    ensures n < Pow10(k)
  {
    if k == 0 then 0 else Number(s, p, k - 1) * 10 + (s[p + k - 1] as int - '0' as int)
  }

  /** The instant of the date-time matched at `p`: `Date.UTC` of its fields, the month made 0-based. */
  function StampInstant(s: string, p: nat): (r: int)
    requires StampAt(s, p)
    ensures r % 1000 == 0
    ensures Number(s, p + 9, 2) < 24 && Number(s, p + 11, 2) < 60 && Number(s, p + 13, 2) < 60 ==>
      r / 86400000 == Civil.MakeDay(Civil.FullYear(Number(s, p, 4)), Number(s, p + 4, 2) - 1, Number(s, p + 6, 2))
  {
    Civil.UtcTime(Number(s, p, 4), Number(s, p + 4, 2) - 1, Number(s, p + 6, 2),
                  Number(s, p + 9, 2), Number(s, p + 11, 2), Number(s, p + 13, 2))
  }

  /** The instant of the date matched at `p`: `new Date(y, m - 1, d)`, local midnight. */
  function DayInstant(s: string, p: nat, offset: int): (r: int)
    requires DayAt(s, p)
    ensures (r + offset) % 86400000 == 0
    ensures (r + offset) / 86400000 == Civil.MakeDay(Civil.FullYear(Number(s, p, 4)), Number(s, p + 4, 2) - 1, Number(s, p + 6, 2))
  {
    Civil.LocalMidnight(Number(s, p, 4), Number(s, p + 4, 2) - 1, Number(s, p + 6, 2), offset)
  }

  /**
   * `parseIcsDate`: the time value of the first date-time anywhere in `s`;
   * failing that, local midnight of the first run of eight digits; failing
   * that, nothing. Local time is `offset` milliseconds ahead of UTC.
   */
  function ParseIcsDate(s: string, offset: int): (r: Option<int>)
    ensures r.Some? <==> exists p :: DayAt(s, p)
    ensures forall p :: FirstStamp(s, p) ==> r == Some(StampInstant(s, p))
    ensures (forall q :: !StampAt(s, q)) ==>
              forall p :: FirstDay(s, p) ==> r == Some(DayInstant(s, p, offset))
  {
    if s == "" then None
    else match FindStamp(s, 0)
      case Some(p) =>
        assert DayAt(s, p);
        Some(StampInstant(s, p))
      case None =>
        match FindDay(s, 0)
        case Some(p) => Some(DayInstant(s, p, offset))
        case None => None
  }

  lemma EmptyIsNull(offset: int)
    ensures ParseIcsDate("", offset) == None
  {
  }

  /**
   * A well-formed date-time `YYYYMMDDTHHMMSS` (optionally followed by `Z`) with
   * a year from 100 on and in-range fields denotes that instant in UTC: read
   * back in UTC it gives the same calendar date, the month 0-based.
   */
  lemma {:induction false} StampReadsBack(s: string)
    requires StampAt(s, 0)
    requires Number(s, 0, 4) >= 100
    requires 1 <= Number(s, 4, 2) <= 12
    requires 1 <= Number(s, 6, 2) <= Civil.DaysInMonth(Number(s, 0, 4), Number(s, 4, 2) - 1)
    requires Number(s, 9, 2) < 24 && Number(s, 11, 2) < 60 && Number(s, 13, 2) < 60
    ensures ParseIcsDate(s, 0).Some?
    ensures Civil.LocalDate(ParseIcsDate(s, 0).value, 0)
         == Civil.Date(Number(s, 0, 4), Number(s, 4, 2) - 1, Number(s, 6, 2))
  {
    assert ParseIcsDate(s, 0) == Some(StampInstant(s, 0));
    StampInstantReadsBack(s);
  }

  lemma StampInstantReadsBack(s: string)
    requires StampAt(s, 0)
    requires Number(s, 0, 4) >= 100
    requires 1 <= Number(s, 4, 2) <= 12
    requires 1 <= Number(s, 6, 2) <= Civil.DaysInMonth(Number(s, 0, 4), Number(s, 4, 2) - 1)
    requires Number(s, 9, 2) < 24 && Number(s, 11, 2) < 60 && Number(s, 13, 2) < 60
    ensures Civil.LocalDate(StampInstant(s, 0), 0)
         == Civil.Date(Number(s, 0, 4), Number(s, 4, 2) - 1, Number(s, 6, 2))
  {
    var y, m, d := Number(s, 0, 4), Number(s, 4, 2) - 1, Number(s, 6, 2);
    var h, mi, sec := Number(s, 9, 2), Number(s, 11, 2), Number(s, 13, 2);
    assert StampInstant(s, 0) == Civil.UtcTime(y, m, d, h, mi, sec);
    Civil.UtcTimeReadsBack(y, m, d, h, mi, sec);
  }

  /**
   * An all-day date `YYYYMMDD` with in-range fields denotes the start of that
   * day in local time, whatever the offset.
   */
  lemma {:induction false} DayReadsBack(s: string, offset: int)
    requires |s| == 8 && DigitsAt(s, 0, 8)
    requires Number(s, 0, 4) >= 100
    requires 1 <= Number(s, 4, 2) <= 12
    requires 1 <= Number(s, 6, 2) <= Civil.DaysInMonth(Number(s, 0, 4), Number(s, 4, 2) - 1)
    ensures ParseIcsDate(s, offset).Some?
    ensures Civil.LocalDate(ParseIcsDate(s, offset).value, offset)
         == Civil.Date(Number(s, 0, 4), Number(s, 4, 2) - 1, Number(s, 6, 2))
  {
    assert DayAt(s, 0);
    assert forall q :: !StampAt(s, q);
    var y, m, d := Number(s, 0, 4), Number(s, 4, 2) - 1, Number(s, 6, 2);
    assert ParseIcsDate(s, offset) == Some(DayInstant(s, 0, offset));
    assert Civil.FullYear(y) == y;
    assert DayInstant(s, 0, offset) == Civil.LocalMidnight(y, m, d, offset);
    Civil.LocalDateOfLocalDay(y, m, d, 0, offset, DayInstant(s, 0, offset));
  }

  /** A two-digit year is read as a year of the twentieth century. */
  lemma TwoDigitYears(s: string)
    requires StampAt(s, 0) && Number(s, 0, 4) <= 99
    ensures ParseIcsDate(s, 0) == Some(Civil.UtcTime(1900 + Number(s, 0, 4), Number(s, 4, 2) - 1,
              Number(s, 6, 2), Number(s, 9, 2), Number(s, 11, 2), Number(s, 13, 2)))
  {
    var y, m, d := Number(s, 0, 4), Number(s, 4, 2) - 1, Number(s, 6, 2);
    var h, mi, sec := Number(s, 9, 2), Number(s, 11, 2), Number(s, 13, 2);
    assert FindStamp(s, 0) == Some(0);
    assert StampInstant(s, 0) == Civil.UtcTime(y, m, d, h, mi, sec);
    Civil.TwoDigitYear(y, m, d, h, mi, sec);
  }
}
