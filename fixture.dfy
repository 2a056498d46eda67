/**
 * The `Fixture` record the ingestion pipeline produces and the calendar
 * renders. The date is the instant in milliseconds since 1970-01-01 UTC;
 * absent optional fields are `None`.
 */
module Fixtures {
  import opened Wrappers

  datatype Status = Upcoming | Completed | Live

  /** `'W' | 'L' | 'D'`, from the club's side. */
  datatype MatchResult = Win | Loss | Draw

  datatype Fixture = Fixture(
    id: string,
    opponent: string,
    isHome: bool,
    date: int,
    location: string,
    competition: string,
    competitionTag: Option<string>,
    status: Status,
    teamName: string,
    score: Option<string>,
    result: Option<MatchResult>)
}
