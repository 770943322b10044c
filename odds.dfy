/** `prepare_odds_data`: one flat odds record per head-to-head market quoted by any
    bookmaker for any event, with the outcome prices sorted into three named slots. */
module OddsTable {
  import opened Wrappers
  import opened Events

  /** The three price columns of the odds table. */
  datatype Slot = HomeWin | Draw | AwayWin

  /** One row of the odds table: the `record` dictionary of one head-to-head market.
      A slot no outcome was assigned to is absent (`None`), not zero. */
  datatype OddsRecord = OddsRecord(
    homeTeam: string,
    awayTeam: string,
    date: Timestamp,
    homeWin: Option<Price>,
    draw: Option<Price>,
    awayWin: Option<Price>)

  function SlotPrice(r: OddsRecord, s: Slot): Option<Price>
  {
    match s
    case HomeWin => r.homeWin
    case Draw => r.draw
    case AwayWin => r.awayWin
  }

  /** The record as created, before any outcome is looked at. */
  function Blank(home: string, away: string, date: Timestamp): (r: OddsRecord)
    ensures r.homeTeam == home && r.awayTeam == away && r.date == date
    ensures forall s :: SlotPrice(r, s) == None
  {
    OddsRecord(home, away, date, None, None, None)
  }

  /** `record[slot] = price`: that slot now holds the price, nothing else changes. */
  function SetSlot(r: OddsRecord, s: Slot, p: Price): (r': OddsRecord)
    ensures r'.homeTeam == r.homeTeam && r'.awayTeam == r.awayTeam && r'.date == r.date
    ensures forall t :: SlotPrice(r', t) == if t == s then Some(p) else SlotPrice(r, t)
  {
    match s
    case HomeWin => r.(homeWin := Some(p))
    case Draw => r.(draw := Some(p))
    case AwayWin => r.(awayWin := Some(p))
  }

  // ---------------------------------------------------------------------------
  // Recognising the draw outcome

  /** `str.lower` on one character, for the ASCII letters. */
  function LowerChar(c: char): (r: char)
    ensures 'A' <= c <= 'Z' ==> 'a' <= r <= 'z' && r as int - 'a' as int == c as int - 'A' as int
    ensures !('A' <= c <= 'Z') ==> r == c
    ensures !('A' <= r <= 'Z')
  {
    if 'A' <= c <= 'Z' then (c as int + ('a' as int - 'A' as int)) as char else c
  }

  /** `str.lower` on a string: every ASCII capital becomes its small letter, every other
      character stays as it is. */
  function Lower(s: string): (r: string)
    ensures |r| == |s|
    ensures forall i :: 0 <= i < |s| ==> r[i] == LowerChar(s[i])
    ensures forall i :: 0 <= i < |s| ==> !('A' <= r[i] <= 'Z')
    ensures (forall i :: 0 <= i < |s| ==> !('A' <= s[i] <= 'Z')) ==> r == s
  {
    seq(|s|, i requires 0 <= i < |s| => LowerChar(s[i]))
  }

  /** `name.lower() == 'draw'` */
  predicate IsDrawLabel(name: string)
  {
    Lower(name) == "draw"
  }

  /** The draw label is recognised in any mix of upper and lower case, and only then. */
  lemma DrawLabelAnyCase(name: string)
    ensures IsDrawLabel(name) <==>
      && |name| == 4
      && (name[0] == 'd' || name[0] == 'D')
      && (name[1] == 'r' || name[1] == 'R')
      && (name[2] == 'a' || name[2] == 'A')
      && (name[3] == 'w' || name[3] == 'W')
  {
    if |name| == 4 {
      var l := Lower(name);
      assert l == [LowerChar(name[0]), LowerChar(name[1]), LowerChar(name[2]), LowerChar(name[3])];
      assert "draw" == ['d', 'r', 'a', 'w'];
    }
  }

  // ---------------------------------------------------------------------------
  // Slotting the outcomes of one market

  /** The slot the if/elif chain over an outcome's name selects, if any. */
  function SlotFor(name: string, home: string, away: string): Option<Slot>
  {
    if name == home then Some(HomeWin)
    else if name == away then Some(AwayWin)
    else if IsDrawLabel(name) then Some(Draw)
    else None
  }

  /** When an outcome name belongs in slot `s`: the home team's name always goes to
      home_win; the away team's name goes to away_win unless it is also the home team's;
      a name reading "draw" in any case goes to draw unless it is one of the teams' names. */
  predicate Hits(name: string, home: string, away: string, s: Slot)
  {
    match s
    case HomeWin => name == home
    case AwayWin => name != home && name == away
    case Draw => name != home && name != away && IsDrawLabel(name)
  }

  predicate OutcomeHits(o: Outcome, home: string, away: string, s: Slot)
  {
    o.name.Some? && Hits(o.name.value, home, away, s)
  }

  predicate Slotted(o: Outcome, home: string, away: string)
  {
    OutcomeHits(o, home, away, HomeWin) || OutcomeHits(o, home, away, Draw) || OutcomeHits(o, home, away, AwayWin)
  }

  /** An outcome the loop body can process: it has a name, and a price when the name
      selects a slot (the price is read only then). */
  predicate OutcomeWellFormed(o: Outcome, home: string, away: string)
  {
    o.name.Some? && (Slotted(o, home, away) ==> o.price.Some?)
  }

  /** One iteration of the loop over a market's outcomes. */
  function ApplyOutcome(rec: OddsRecord, o: Outcome, home: string, away: string): (r: Result<OddsRecord, Failure>)
    ensures r.Ok? <==> OutcomeWellFormed(o, home, away)
    ensures r.Err? ==> r.error == KeyError(if o.name.None? then "name" else "price")
    ensures r.Ok? ==> r.value.homeTeam == rec.homeTeam && r.value.awayTeam == rec.awayTeam && r.value.date == rec.date
    ensures r.Ok? ==> forall s :: SlotPrice(r.value, s) == if OutcomeHits(o, home, away, s) then o.price else SlotPrice(rec, s)
  {
    if o.name.None? then Err(KeyError("name"))
    else
      match SlotFor(o.name.value, home, away)
      case None => Ok(rec)
      case Some(s) => if o.price.None? then Err(KeyError("price")) else Ok(SetSlot(rec, s, o.price.value))
  }

  /** The whole loop over a market's outcomes, starting from `rec`. */
  function ApplyOutcomes(rec: OddsRecord, outs: seq<Outcome>, home: string, away: string): (r: Result<OddsRecord, Failure>)
    decreases |outs|
    ensures r.Ok? ==> r.value.homeTeam == rec.homeTeam && r.value.awayTeam == rec.awayTeam && r.value.date == rec.date
  {
    if outs == [] then Ok(rec)
    else
      match ApplyOutcome(rec, outs[0], home, away)
      case Err(f) => Err(f)
      case Ok(rec') => ApplyOutcomes(rec', outs[1..], home, away)
  }

  /** The loop over the outcomes succeeds exactly when every outcome is well formed. */
  lemma {:induction false} ApplyOutcomesSucceed(rec: OddsRecord, outs: seq<Outcome>, home: string, away: string)
    decreases |outs|
    ensures ApplyOutcomes(rec, outs, home, away).Ok? <==>
      forall j :: 0 <= j < |outs| ==> OutcomeWellFormed(outs[j], home, away)
  {
    if outs != [] {
      assert forall j :: 1 <= j < |outs| ==> outs[j] == outs[1..][j - 1];
      if OutcomeWellFormed(outs[0], home, away) {
        ApplyOutcomesSucceed(ApplyOutcome(rec, outs[0], home, away).value, outs[1..], home, away);
      }
    }
  }

  /** An outcome that belongs in no slot `s` leaves that slot as it was. */
  lemma {:induction false} SlotKeptWithoutHit(rec: OddsRecord, outs: seq<Outcome>, home: string, away: string, s: Slot)
    requires ApplyOutcomes(rec, outs, home, away).Ok?
    requires forall j :: 0 <= j < |outs| ==> !OutcomeHits(outs[j], home, away, s)
    decreases |outs|
    ensures SlotPrice(ApplyOutcomes(rec, outs, home, away).value, s) == SlotPrice(rec, s)
  {
    if outs != [] {
      assert !OutcomeHits(outs[0], home, away, s);
      assert forall j :: 0 <= j < |outs[1..]| ==> outs[1..][j] == outs[j + 1];
      SlotKeptWithoutHit(ApplyOutcome(rec, outs[0], home, away).value, outs[1..], home, away, s);
    }
  }

  /** The slot `s` holds the price of outcome `j` when `j` is the last outcome belonging in it. */
  lemma {:induction false} SlotTakesHit(rec: OddsRecord, outs: seq<Outcome>, home: string, away: string, s: Slot, j: nat)
    requires ApplyOutcomes(rec, outs, home, away).Ok?
    requires j < |outs| && OutcomeHits(outs[j], home, away, s)
    requires forall k :: j < k < |outs| ==> !OutcomeHits(outs[k], home, away, s)
    decreases |outs|
    ensures SlotPrice(ApplyOutcomes(rec, outs, home, away).value, s) == outs[j].price
  {
    var rec' := ApplyOutcome(rec, outs[0], home, away).value;
    var rest := outs[1..];
    assert forall k :: 0 <= k < |rest| ==> rest[k] == outs[k + 1];
    if j == 0 {
      SlotKeptWithoutHit(rec', rest, home, away, s);
    } else {
      SlotTakesHit(rec', rest, home, away, s, j - 1);
    }
  }

  /** A slot ends up with the price of the LAST outcome that belongs in it (a later
      outcome overwrites an earlier one), and keeps its starting value when no outcome
      belongs in it; outcomes whose names match nothing change no slot. */
  lemma SlotIsLastHit(rec: OddsRecord, outs: seq<Outcome>, home: string, away: string, s: Slot)
    requires ApplyOutcomes(rec, outs, home, away).Ok?
    ensures (forall j :: 0 <= j < |outs| ==> !OutcomeHits(outs[j], home, away, s)) ==>
      SlotPrice(ApplyOutcomes(rec, outs, home, away).value, s) == SlotPrice(rec, s)
    ensures forall j :: (0 <= j < |outs| && OutcomeHits(outs[j], home, away, s)
      && (forall k :: j < k < |outs| ==> !OutcomeHits(outs[k], home, away, s))) ==>
      SlotPrice(ApplyOutcomes(rec, outs, home, away).value, s) == outs[j].price
  {
    if forall j :: 0 <= j < |outs| ==> !OutcomeHits(outs[j], home, away, s) {
      SlotKeptWithoutHit(rec, outs, home, away, s);
    }
    forall j | 0 <= j < |outs| && OutcomeHits(outs[j], home, away, s)
        && (forall k :: j < k < |outs| ==> !OutcomeHits(outs[k], home, away, s))
      ensures SlotPrice(ApplyOutcomes(rec, outs, home, away).value, s) == outs[j].price
    {
      SlotTakesHit(rec, outs, home, away, s, j);
    }
  }

  // ---------------------------------------------------------------------------
  // The nested loops, as functions of the input

  /** One market of one bookmaker: a record if it is the head-to-head market, nothing
      otherwise. Its `key` is always read; its `outcomes` only for the head-to-head market. */
  function MarketRecord(home: string, away: string, date: Timestamp, m: Market): Result<seq<OddsRecord>, Failure>
  {
    if m.key.None? then Err(KeyError("key"))
    else if m.key.value != "h2h" then Ok([])
    else if m.outcomes.None? then Err(KeyError("outcomes"))
    else
      match ApplyOutcomes(Blank(home, away, date), m.outcomes.value, home, away)
      case Err(f) => Err(f)
      case Ok(rec) => Ok([rec])
  }

  function MarketRecords(home: string, away: string, date: Timestamp, ms: seq<Market>): Result<seq<OddsRecord>, Failure>
  {
    if ms == [] then Ok([])
    else Join(MarketRecord(home, away, date, ms[0]), MarketRecords(home, away, date, ms[1..]))
  }

  function BookmakerRecords(home: string, away: string, date: Timestamp, bs: seq<Bookmaker>): Result<seq<OddsRecord>, Failure>
  {
    if bs == [] then Ok([])
    else Join(MarketRecords(home, away, date, MarketsOf(bs[0])), BookmakerRecords(home, away, date, bs[1..]))
  }

  /** One event: its teams and its date are read first, in that order, then its bookmakers. */
  function EventRecords(e: Event): Result<seq<OddsRecord>, Failure>
  {
    match ReadHeader(e)
    case Err(f) => Err(f)
    case Ok(h) => BookmakerRecords(h.homeTeam, h.awayTeam, h.date, BookmakersOf(e))
  }

  /** What `prepare_odds_data` returns (the list of records, or the error it raises). */
  function OddsRecords(events: seq<Event>): Result<seq<OddsRecord>, Failure>
  {
    if events == [] then Ok([])
    else Join(EventRecords(events[0]), OddsRecords(events[1..]))
  }

  // ---------------------------------------------------------------------------
  // When it succeeds

  predicate MarketWellFormed(m: Market, home: string, away: string)
  {
    && m.key.Some?
    && (m.key.value == "h2h" ==>
          && m.outcomes.Some?
          && forall j :: 0 <= j < |m.outcomes.value| ==> OutcomeWellFormed(m.outcomes.value[j], home, away))
  }

  /** An event the loops process without a KeyError: it has teams and a date, every market
      of every bookmaker has a key, and every head-to-head market has outcomes that are
      well formed. Absent bookmaker and market lists are fine: they count as empty. */
  predicate EventWellFormed(e: Event)
  {
    && HasEventKeys(e)
    && forall b, m :: b in BookmakersOf(e) && m in MarketsOf(b) ==>
         MarketWellFormed(m, e.homeTeam.value, e.awayTeam.value)
  }

  lemma MarketRecordSucceeds(home: string, away: string, date: Timestamp, m: Market)
    ensures MarketRecord(home, away, date, m).Ok? <==> MarketWellFormed(m, home, away)
  {
    if m.key.Some? && m.key.value == "h2h" && m.outcomes.Some? {
      ApplyOutcomesSucceed(Blank(home, away, date), m.outcomes.value, home, away);
    }
  }

  lemma {:induction false} MarketRecordsSucceed(home: string, away: string, date: Timestamp, ms: seq<Market>)
    ensures MarketRecords(home, away, date, ms).Ok? <==> forall m :: m in ms ==> MarketWellFormed(m, home, away)
  {
    if ms != [] {
      MarketRecordSucceeds(home, away, date, ms[0]);
      MarketRecordsSucceed(home, away, date, ms[1..]);
      assert forall m :: m in ms <==> m == ms[0] || m in ms[1..];
    }
  }

  lemma {:induction false} BookmakerRecordsSucceed(home: string, away: string, date: Timestamp, bs: seq<Bookmaker>)
    ensures BookmakerRecords(home, away, date, bs).Ok? <==>
      forall b, m :: b in bs && m in MarketsOf(b) ==> MarketWellFormed(m, home, away)
  {
    if bs != [] {
      MarketRecordsSucceed(home, away, date, MarketsOf(bs[0]));
      BookmakerRecordsSucceed(home, away, date, bs[1..]);
      assert forall b :: b in bs <==> b == bs[0] || b in bs[1..];
    }
  }

  /** `prepare_odds_data` raises no KeyError exactly when every event is well formed. */
  lemma {:induction false} OddsRecordsSucceed(events: seq<Event>)
    ensures OddsRecords(events).Ok? <==> forall i :: 0 <= i < |events| ==> EventWellFormed(events[i])
  {
    if events != [] {
      var e := events[0];
      if HasEventKeys(e) {
        BookmakerRecordsSucceed(e.homeTeam.value, e.awayTeam.value, e.commenceTime.value, BookmakersOf(e));
      }
      OddsRecordsSucceed(events[1..]);
      assert forall i :: 1 <= i < |events| ==> events[i] == events[1..][i - 1];
    }
  }

  // ---------------------------------------------------------------------------
  // What it produces: one record per head-to-head market, in nesting order

  /** A head-to-head market together with the event it was quoted for. */
  datatype H2hSite = H2hSite(event: Event, market: Market)

  /** `[(e, m) for b in bookmakers for m in b's markets if m's key is 'h2h']` for one event. */
  function MarketSites(e: Event, ms: seq<Market>): seq<H2hSite>
  {
    if ms == [] then []
    else (if ms[0].key == Some("h2h") then [H2hSite(e, ms[0])] else []) + MarketSites(e, ms[1..])
  }

  function BookmakerSites(e: Event, bs: seq<Bookmaker>): seq<H2hSite>
  {
    if bs == [] then [] else MarketSites(e, MarketsOf(bs[0])) + BookmakerSites(e, bs[1..])
  }

  /** Every head-to-head market of every bookmaker of every event, in event, then
      bookmaker, then market order. */
  function H2hSites(events: seq<Event>): seq<H2hSite>
  {
    if events == [] then [] else BookmakerSites(events[0], BookmakersOf(events[0])) + H2hSites(events[1..])
  }

  /** `r` is the record made from `site`: it carries the site's event's teams and date,
      and its slots are those the site's outcomes give a blank record. */
  predicate BuiltFrom(r: OddsRecord, site: H2hSite)
  {
    && site.event.homeTeam == Some(r.homeTeam)
    && site.event.awayTeam == Some(r.awayTeam)
    && site.event.commenceTime == Some(r.date)
    && site.market.outcomes.Some?
    && ApplyOutcomes(Blank(r.homeTeam, r.awayTeam, r.date), site.market.outcomes.value, r.homeTeam, r.awayTeam) == Ok(r)
  }

  predicate Aligned(rs: seq<OddsRecord>, sites: seq<H2hSite>)
  {
    |rs| == |sites| && forall k :: 0 <= k < |rs| ==> BuiltFrom(rs[k], sites[k])
  }

  lemma AlignedAppend(a: seq<OddsRecord>, x: seq<H2hSite>, b: seq<OddsRecord>, y: seq<H2hSite>)
    requires Aligned(a, x) && Aligned(b, y)
    ensures Aligned(a + b, x + y)
  {
    forall k | 0 <= k < |a + b| ensures BuiltFrom((a + b)[k], (x + y)[k]) {
      if k >= |a| {
        assert (a + b)[k] == b[k - |a|] && (x + y)[k] == y[k - |x|];
      }
    }
  }

  lemma {:induction false} MarketRecordsAligned(e: Event, ms: seq<Market>)
    requires HasEventKeys(e)
    requires MarketRecords(e.homeTeam.value, e.awayTeam.value, e.commenceTime.value, ms).Ok?
    ensures Aligned(MarketRecords(e.homeTeam.value, e.awayTeam.value, e.commenceTime.value, ms).value, MarketSites(e, ms))
  {
    if ms != [] {
      var home, away, date := e.homeTeam.value, e.awayTeam.value, e.commenceTime.value;
      MarketRecordsAligned(e, ms[1..]);
      var first := MarketRecord(home, away, date, ms[0]).value;
      assert Aligned(first, if ms[0].key == Some("h2h") then [H2hSite(e, ms[0])] else []);
      AlignedAppend(first, if ms[0].key == Some("h2h") then [H2hSite(e, ms[0])] else [],
        MarketRecords(home, away, date, ms[1..]).value, MarketSites(e, ms[1..]));
    }
  }

  lemma {:induction false} BookmakerRecordsAligned(e: Event, bs: seq<Bookmaker>)
    requires HasEventKeys(e)
    requires BookmakerRecords(e.homeTeam.value, e.awayTeam.value, e.commenceTime.value, bs).Ok?
    ensures Aligned(BookmakerRecords(e.homeTeam.value, e.awayTeam.value, e.commenceTime.value, bs).value, BookmakerSites(e, bs))
  {
    if bs != [] {
      var home, away, date := e.homeTeam.value, e.awayTeam.value, e.commenceTime.value;
      MarketRecordsAligned(e, MarketsOf(bs[0]));
      BookmakerRecordsAligned(e, bs[1..]);
      AlignedAppend(MarketRecords(home, away, date, MarketsOf(bs[0])).value, MarketSites(e, MarketsOf(bs[0])),
        BookmakerRecords(home, away, date, bs[1..]).value, BookmakerSites(e, bs[1..]));
    }
  }

  /** On success, the k-th record is built from the k-th head-to-head market in event,
      bookmaker, market order: exactly one record per such market, none for any other
      market, nothing for an event or bookmaker without markets, and no reordering. */
  lemma {:induction false} OddsRecordsFollowH2hMarkets(events: seq<Event>)
    requires OddsRecords(events).Ok?
    ensures Aligned(OddsRecords(events).value, H2hSites(events))
  {
    if events != [] {
      var e := events[0];
      BookmakerRecordsAligned(e, BookmakersOf(e));
      OddsRecordsFollowH2hMarkets(events[1..]);
      AlignedAppend(EventRecords(e).value, BookmakerSites(e, BookmakersOf(e)),
        OddsRecords(events[1..]).value, H2hSites(events[1..]));
    }
  }

  /** The contents of the k-th record: the teams and date of its market's event, and in
      each slot the price of the last outcome of that market belonging in the slot, or
      nothing when no outcome does. */
  lemma OddsRecordContents(events: seq<Event>, k: nat, s: Slot)
    requires OddsRecords(events).Ok? && k < |OddsRecords(events).value|
    ensures k < |H2hSites(events)|
    ensures var r, site := OddsRecords(events).value[k], H2hSites(events)[k];
      && site.market.key == Some("h2h") && site.market.outcomes.Some?
      && site.event.homeTeam == Some(r.homeTeam)
      && site.event.awayTeam == Some(r.awayTeam)
      && site.event.commenceTime == Some(r.date)
      && var outs := site.market.outcomes.value;
      && ((forall j :: 0 <= j < |outs| ==> !OutcomeHits(outs[j], r.homeTeam, r.awayTeam, s)) ==> SlotPrice(r, s) == None)
      && (forall j :: (0 <= j < |outs| && OutcomeHits(outs[j], r.homeTeam, r.awayTeam, s)
            && (forall i :: j < i < |outs| ==> !OutcomeHits(outs[i], r.homeTeam, r.awayTeam, s))) ==>
            SlotPrice(r, s) == outs[j].price)
  {
    OddsRecordsFollowH2hMarkets(events);
    var rs, sites := OddsRecords(events).value, H2hSites(events);
    assert BuiltFrom(rs[k], sites[k]);
    SiteIsH2h(events, k);
    BuiltFromSlots(rs[k], sites[k], s);
  }

  lemma SiteIsH2h(events: seq<Event>, k: nat)
    requires k < |H2hSites(events)|
    ensures H2hSites(events)[k].market.key == Some("h2h")
  {
    H2hSitesAreH2h(events);
    assert H2hSites(events)[k] in H2hSites(events);
  }

  /** The slots of a record built from a market's outcomes. */
  lemma BuiltFromSlots(r: OddsRecord, site: H2hSite, s: Slot)
    requires BuiltFrom(r, site)
    ensures var outs := site.market.outcomes.value;
      && ((forall j :: 0 <= j < |outs| ==> !OutcomeHits(outs[j], r.homeTeam, r.awayTeam, s)) ==> SlotPrice(r, s) == None)
      && (forall j :: (0 <= j < |outs| && OutcomeHits(outs[j], r.homeTeam, r.awayTeam, s)
            && (forall i :: j < i < |outs| ==> !OutcomeHits(outs[i], r.homeTeam, r.awayTeam, s))) ==>
            SlotPrice(r, s) == outs[j].price)
  {
    SlotIsLastHit(Blank(r.homeTeam, r.awayTeam, r.date), site.market.outcomes.value, r.homeTeam, r.awayTeam, s);
  }

  lemma {:induction false} MarketSitesAreH2h(e: Event, ms: seq<Market>)
    ensures forall site :: site in MarketSites(e, ms) ==> site.event == e && site.market.key == Some("h2h") && site.market in ms
  {
    if ms != [] {
      MarketSitesAreH2h(e, ms[1..]);
    }
  }

  lemma {:induction false} BookmakerSitesAreH2h(e: Event, bs: seq<Bookmaker>)
    ensures forall site :: site in BookmakerSites(e, bs) ==>
      && site.event == e && site.market.key == Some("h2h")
      && exists b :: b in bs && site.market in MarketsOf(b)
  {
    if bs != [] {
      MarketSitesAreH2h(e, MarketsOf(bs[0]));
      BookmakerSitesAreH2h(e, bs[1..]);
      forall site | site in BookmakerSites(e, bs)
        ensures exists b :: b in bs && site.market in MarketsOf(b)
      {
        if site in MarketSites(e, MarketsOf(bs[0])) {
          assert bs[0] in bs;
        } else {
          assert site in BookmakerSites(e, bs[1..]);
          var b :| b in bs[1..] && site.market in MarketsOf(b);
          assert b in bs;
        }
      }
    }
  }

  /** Every site is a head-to-head market of one of the bookmakers of one of the events. */
  lemma {:induction false} H2hSitesAreH2h(events: seq<Event>)
    ensures forall site :: site in H2hSites(events) ==>
      && site.event in events && site.market.key == Some("h2h")
      && exists b :: b in BookmakersOf(site.event) && site.market in MarketsOf(b)
  {
    if events != [] {
      BookmakerSitesAreH2h(events[0], BookmakersOf(events[0]));
      H2hSitesAreH2h(events[1..]);
    }
  }

  // ---------------------------------------------------------------------------
  // The program's nested loops

  /** The loop over one head-to-head market's outcomes, filling a fresh record in place. */
  method FillRecord(homeTeam: string, awayTeam: string, date: Timestamp, outcomes: seq<Outcome>)
    returns (r: Result<OddsRecord, Failure>)
    ensures r == ApplyOutcomes(Blank(homeTeam, awayTeam, date), outcomes, homeTeam, awayTeam)
  {
    var record := Blank(homeTeam, awayTeam, date);
    assert outcomes[0..] == outcomes;
    var l := 0;
    while l < |outcomes|
      invariant 0 <= l <= |outcomes|
      invariant ApplyOutcomes(Blank(homeTeam, awayTeam, date), outcomes, homeTeam, awayTeam)
        == ApplyOutcomes(record, outcomes[l..], homeTeam, awayTeam)
    {
      var outcome := outcomes[l];
      assert outcomes[l..][1..] == outcomes[l + 1..];
      if outcome.name.None? { return Err(KeyError("name")); }
      if outcome.name.value == homeTeam {
        if outcome.price.None? { return Err(KeyError("price")); }
        record := record.(homeWin := Some(outcome.price.value));
      } else if outcome.name.value == awayTeam {
        if outcome.price.None? { return Err(KeyError("price")); }
        record := record.(awayWin := Some(outcome.price.value));
      } else if IsDrawLabel(outcome.name.value) {
        if outcome.price.None? { return Err(KeyError("price")); }
        record := record.(draw := Some(outcome.price.value));
      }
      l := l + 1;
    }
    assert outcomes[l..] == [];
    return Ok(record);
  }

  /** `prepare_odds_data`, loop for loop: the records are appended to one list, and each
      record is filled in place slot by slot. A KeyError ends the whole computation. */
  method PrepareOddsData(events: seq<Event>) returns (r: Result<seq<OddsRecord>, Failure>)
    ensures r == OddsRecords(events)
  {
    var oddsRecords: seq<OddsRecord> := [];
    var i := 0;
    assert events[0..] == events;
    JoinUnit(OddsRecords(events));
    while i < |events|
      invariant 0 <= i <= |events|
      invariant OddsRecords(events) == Join(Ok(oddsRecords), OddsRecords(events[i..]))
    {
      var event := events[i];
      assert events[i..] == [event] + events[i + 1..];
      if event.homeTeam.None? { return Err(KeyError("home_team")); }
      if event.awayTeam.None? { return Err(KeyError("away_team")); }
      if event.commenceTime.None? { return Err(KeyError("commence_time")); }
      var homeTeam, awayTeam, date := event.homeTeam.value, event.awayTeam.value, event.commenceTime.value;
      var bookmakers := BookmakersOf(event);
      ghost var later := OddsRecords(events[i + 1..]);
      assert bookmakers[0..] == bookmakers;
      JoinAssociative(Ok(oddsRecords), BookmakerRecords(homeTeam, awayTeam, date, bookmakers), later);
      var j := 0;
      while j < |bookmakers|
        invariant 0 <= j <= |bookmakers|
        invariant OddsRecords(events) ==
          Join(Ok(oddsRecords), Join(BookmakerRecords(homeTeam, awayTeam, date, bookmakers[j..]), later))
      {
        var markets := MarketsOf(bookmakers[j]);
        assert bookmakers[j..][1..] == bookmakers[j + 1..];
        ghost var rest := Join(BookmakerRecords(homeTeam, awayTeam, date, bookmakers[j + 1..]), later);
        JoinAssociative(MarketRecords(homeTeam, awayTeam, date, markets),
          BookmakerRecords(homeTeam, awayTeam, date, bookmakers[j + 1..]), later);
        assert markets[0..] == markets;
        var k := 0;
        while k < |markets|
          invariant 0 <= k <= |markets|
          invariant OddsRecords(events) ==
            Join(Ok(oddsRecords), Join(MarketRecords(homeTeam, awayTeam, date, markets[k..]), rest))
        {
          var market := markets[k];
          assert markets[k..][1..] == markets[k + 1..];
          JoinAssociative(MarketRecord(homeTeam, awayTeam, date, market),
            MarketRecords(homeTeam, awayTeam, date, markets[k + 1..]), rest);
          if market.key.None? { return Err(KeyError("key")); }
          if market.key.value == "h2h" {
            if market.outcomes.None? { return Err(KeyError("outcomes")); }
            var filled := FillRecord(homeTeam, awayTeam, date, market.outcomes.value);
            if filled.Err? { return Err(filled.error); }
            var record := filled.value;
            assert MarketRecord(homeTeam, awayTeam, date, market) == Ok([record]);
            JoinAssociative(Ok(oddsRecords), Ok([record]),
              Join(MarketRecords(homeTeam, awayTeam, date, markets[k + 1..]), rest));
            oddsRecords := oddsRecords + [record];
          } else {
            JoinUnit(Join(MarketRecords(homeTeam, awayTeam, date, markets[k + 1..]), rest));
          }
          k := k + 1;
        }
        assert markets[k..] == [];
        JoinUnit(rest);
        j := j + 1;
      }
      assert bookmakers[j..] == [];
      JoinUnit(later);
      i := i + 1;
    }
    assert events[i..] == [];
    assert oddsRecords + [] == oddsRecords;
    return Ok(oddsRecords);
  }
}
