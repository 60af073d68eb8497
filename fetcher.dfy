/** The request `get_nba_data` sends: the service's games endpoint with one
    `dates[]` query parameter holding the `%Y-%m-%d` date of the instant. What the
    service answers is not modelled: it is an oracle from the request to the
    decoded response, `None` when the response body could not be read. */
module Fetcher {

  import opened Optional
  import opened Calendar
  import opened Records

  const BaseUrl: string := "https://www.balldontlie.io/api/v1/games/"

  const DatesParameter: string := "?dates[]="

  /** A request for the games of one UTC day, named by its day number (days
      since 1970-01-01); `Url` gives its text. */
  datatype Request = Games(dayNumber: int)

  /** The request `get_nba_data` makes for an instant: its time of day is dropped. */
  function RequestFor(t: Instant): (r: Request)
    ensures r.dayNumber * SecondsPerDay <= t < (r.dayNumber + 1) * SecondsPerDay
  {
    Games(t / SecondsPerDay)
  }

  /** `format!("?dates[]={}", date)` */
  function Query(r: Request): string {
    DatesParameter + FormatDate(CivilFromDays(r.dayNumber))
  }

  /** `format!("{}{}", base, query)`: the URL that is sent. */
  function Url(r: Request): string {
    BaseUrl + Query(r)
  }

  /** The answer of the service to each request. Different requests have
      different URLs (`UrlNamesRequest`), so an oracle keyed by the request is
      as general as one keyed by the URL. */
  type Fetch = Request -> Option<GameData>

  /** `get_nba_data(t)`: what the service answered to the request for `t`. The
      answer depends on the UTC day of `t` only. */
  function GetNbaData(fetch: Fetch, t: Instant): (r: Option<GameData>)
    ensures forall t2 :: t2 / SecondsPerDay == t / SecondsPerDay ==> r == fetch(RequestFor(t2))
  {
    fetch(RequestFor(t))
  }

  /** The date a URL asks for, read back from its text. */
  function RequestedDate(url: string): Option<Date> {
    var prefix := BaseUrl + DatesParameter;
    if |url| < |prefix| || url[..|prefix|] != prefix then None
    else ParseDate(url[|prefix|..])
  }

  lemma RequestedDateOf(s: string)
    ensures RequestedDate(BaseUrl + DatesParameter + s) == ParseDate(s)
  {
    var prefix := BaseUrl + DatesParameter;
    var url := prefix + s;
    assert url[..|prefix|] == prefix;
    assert url[|prefix|..] == s;
  }

  lemma UrlText(r: Request)
    ensures Url(r) == BaseUrl + DatesParameter + FormatDate(CivilFromDays(r.dayNumber))
  {
  }

  /** The URL of a request names the date of the requested day. */
  lemma UrlNamesDay(r: Request)
    ensures RequestedDate(Url(r)) == Some(CivilFromDays(r.dayNumber))
  {
    var d := CivilFromDays(r.dayNumber);
    UrlText(r);
    RequestedDateOf(FormatDate(d));
    FormatDateRoundTrip(d);
  }

  /** The URL sent for an instant names the UTC calendar date of that instant. */
  lemma RequestNamesDate(t: Instant)
    ensures RequestedDate(Url(RequestFor(t))) == Some(DateOf(t))
  {
    UrlNamesDay(RequestFor(t));
  }

  /** The URL of a request determines the request. */
  lemma UrlNamesRequest(r1: Request, r2: Request)
    ensures Url(r1) == Url(r2) <==> r1 == r2
  {
    if Url(r1) == Url(r2) {
      UrlNamesDay(r1);
      UrlNamesDay(r2);
      assert DaysFromCivil(CivilFromDays(r1.dayNumber)) == DaysFromCivil(CivilFromDays(r2.dayNumber));
    }
  }

  /** Two instants lead to the same URL exactly when they fall in the same
      UTC day: the time of day never reaches the service, and different days
      are never confused. */
  lemma SameRequestSameDay(t1: Instant, t2: Instant)
    ensures Url(RequestFor(t1)) == Url(RequestFor(t2)) <==> t1 / SecondsPerDay == t2 / SecondsPerDay
  {
    UrlNamesRequest(RequestFor(t1), RequestFor(t2));
  }

}
