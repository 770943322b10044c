/** The shape of the event objects the odds API returns, as far as BeatTheHouse/src/main.py
    reads them. A key the program may find absent in a JSON object is an Option; the keys
    it never reads (bookmaker titles, update times, ...) are not represented. */
module Events {
  import opened Wrappers

  /** The ways the pipeline fails. */
  datatype Failure =
    | KeyError(key: string)  // `d[key]` on a dictionary that has no `key`
    | MissingColumns         // `DataFrame.melt` naming a column the frame does not have
    | ZeroDivision           // `funds / max_bets` with `max_bets == 0`

  /** A decimal price. Floating point is not modelled. */
  type Price = real

  /** The `commence_time` of an event; it is carried along as an opaque value. */
  type Timestamp = string

  datatype Outcome = Outcome(name: Option<string>, price: Option<Price>)

  datatype Market = Market(key: Option<string>, outcomes: Option<seq<Outcome>>)

  datatype Bookmaker = Bookmaker(markets: Option<seq<Market>>)

  datatype Event = Event(
    sportTitle: Option<string>,
    homeTeam: Option<string>,
    awayTeam: Option<string>,
    commenceTime: Option<Timestamp>,
    bookmakers: Option<seq<Bookmaker>>)

  /** The keys both tables read from every event with `event[key]`. */
  predicate HasEventKeys(e: Event)
  {
    e.homeTeam.Some? && e.awayTeam.Some? && e.commenceTime.Some?
  }

  /** The first of those keys that `e` lacks, in the order they are read. */
  function FirstMissingKey(e: Event): string
  {
    if e.homeTeam.None? then "home_team"
    else if e.awayTeam.None? then "away_team"
    else "commence_time"
  }

  /** An event's teams and its date. */
  datatype Header = Header(homeTeam: string, awayTeam: string, date: Timestamp)

  /** `event['home_team']`, `event['away_team']`, `event['commence_time']`, read in that
      order: the first missing key raises. */
  function ReadHeader(e: Event): (r: Result<Header, Failure>)
    ensures r.Ok? <==> HasEventKeys(e)
    ensures r.Err? ==> r.error == KeyError(FirstMissingKey(e))
    ensures r.Ok? ==> Some(r.value.homeTeam) == e.homeTeam && Some(r.value.awayTeam) == e.awayTeam
                      && Some(r.value.date) == e.commenceTime
  {
    if e.homeTeam.None? then Err(KeyError("home_team"))
    else if e.awayTeam.None? then Err(KeyError("away_team"))
    else if e.commenceTime.None? then Err(KeyError("commence_time"))
    else Ok(Header(e.homeTeam.value, e.awayTeam.value, e.commenceTime.value))
  }

  /** `event.get('bookmakers', [])` */
  function BookmakersOf(e: Event): seq<Bookmaker>
  {
    GetOr(e.bookmakers, [])
  }

  /** `bookmaker.get('markets', [])` */
  function MarketsOf(b: Bookmaker): seq<Market>
  {
    GetOr(b.markets, [])
  }
}
