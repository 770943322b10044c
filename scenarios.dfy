/** Worked inputs for the pipeline, computed by the model. */
module Scenarios {
  import opened Wrappers
  import opened Events
  import opened OddsTable
  import opened Recommend

  /** A bookmaker's head-to-head market with a home price of 1.5, an away price of 2.5
      and no draw outcome gives exactly one record, whose draw slot is absent. */
  lemma NoDrawMarket()
    ensures
      var market := Market(Some("h2h"), Some([Outcome(Some("Arsenal"), Some(1.5)), Outcome(Some("Chelsea"), Some(2.5))]));
      var event := Event(Some("EPL"), Some("Arsenal"), Some("Chelsea"), Some("2024-08-17T14:00:00Z"),
                         Some([Bookmaker(Some([market]))]));
      OddsRecords([event]) == Ok([OddsRecord("Arsenal", "Chelsea", "2024-08-17T14:00:00Z", Some(1.5), None, Some(2.5))])
  {
    var h, a, d := "Arsenal", "Chelsea", "2024-08-17T14:00:00Z";
    var o1, o2 := Outcome(Some(h), Some(1.5)), Outcome(Some(a), Some(2.5));
    var market := Market(Some("h2h"), Some([o1, o2]));
    assert a != h by { assert a[0] != h[0]; }
    assert !IsDrawLabel(a) by { assert |Lower(a)| == 7; }
    var r1 := OddsRecord(h, a, d, Some(1.5), None, None);
    assert ApplyOutcome(Blank(h, a, d), o1, h, a) == Ok(r1);
    assert ApplyOutcome(r1, o2, h, a) == Ok(OddsRecord(h, a, d, Some(1.5), None, Some(2.5)));
    var r2 := OddsRecord(h, a, d, Some(1.5), None, Some(2.5));
    assert [o2][1..] == [];
    assert ApplyOutcomes(r2, [], h, a) == Ok(r2);
    assert ApplyOutcomes(r1, [o2], h, a) == Ok(r2);
    assert [o1, o2][1..] == [o2];
    assert ApplyOutcomes(Blank(h, a, d), [o1, o2], h, a) == Ok(r2);
    assert MarketRecord(h, a, d, market) == Ok([r2]);
    assert [market][1..] == [];
    assert MarketRecords(h, a, d, []) == Ok([]);
    assert [r2] + [] == [r2];
    assert MarketRecords(h, a, d, [market]) == Ok([r2]);
    var b := Bookmaker(Some([market]));
    assert [b][1..] == [];
    assert BookmakerRecords(h, a, d, [b]) == Ok([r2]);
    var event := Event(Some("EPL"), Some(h), Some(a), Some(d), Some([b]));
    assert EventRecords(event) == Ok([r2]);
    assert [event][1..] == [];
    assert OddsRecords([event]) == Ok([r2]);
  }

  /** A record quoting all three outcomes, at 1.5, 3.0 and 2.5, and `max_bets` = 2: both
      recommendations are for the same match (no deduplication by event), and each gets
      half the funds whatever its price (no allocation in proportion to price). */
  lemma SameEventTwice(rec: OddsRecord, funds: real)
    requires rec.homeWin == Some(1.5) && rec.draw == Some(3.0) && rec.awayWin == Some(2.5)
    ensures RecommendBets([], [rec], funds, 2) == Ok([
              Bet(Row(rec.date, rec.homeTeam, rec.awayTeam, HomeWin, 1.5), funds / 2 as real),
              Bet(Row(rec.date, rec.homeTeam, rec.awayTeam, AwayWin, 2.5), funds / 2 as real)])
  {
    var home := Row(rec.date, rec.homeTeam, rec.awayTeam, HomeWin, 1.5);
    var away := Row(rec.date, rec.homeTeam, rec.awayTeam, AwayWin, 2.5);
    assert SlotPrice([rec][0], HomeWin).Some? && SlotPrice([rec][0], Draw).Some? && SlotPrice([rec][0], AwayWin).Some?;
    assert HasAllColumns([rec]);
    CheapestTwo(rec);
    var bets := WithStake([home, away], funds / 2 as real);
    assert |bets| == 2 && bets[0] == Bet(home, funds / 2 as real) && bets[1] == Bet(away, funds / 2 as real);
    assert bets == [Bet(home, funds / 2 as real), Bet(away, funds / 2 as real)];
  }

  lemma CheapestTwo(rec: OddsRecord)
    requires rec.homeWin == Some(1.5) && rec.draw == Some(3.0) && rec.awayWin == Some(2.5)
    ensures Head(SortByOdds(Present([rec])), 2) == [Row(rec.date, rec.homeTeam, rec.awayTeam, HomeWin, 1.5),
                                                   Row(rec.date, rec.homeTeam, rec.awayTeam, AwayWin, 2.5)]
  {
    var home := Row(rec.date, rec.homeTeam, rec.awayTeam, HomeWin, 1.5);
    var draw := Row(rec.date, rec.homeTeam, rec.awayTeam, Draw, 3.0);
    var away := Row(rec.date, rec.homeTeam, rec.awayTeam, AwayWin, 2.5);
    FullRecordPresent(rec);
    ThreeSorted(home, draw, away);
    HeadOfThree(home, away, draw);
  }

  lemma HeadOfThree<T>(x: T, y: T, z: T)
    ensures Head([x, y, z], 2) == [x, y]
  {
    assert [x, y, z][..2] == [x, y];
  }

  lemma FullRecordPresent(rec: OddsRecord)
    requires rec.homeWin.Some? && rec.draw.Some? && rec.awayWin.Some?
    ensures Present([rec]) == [Row(rec.date, rec.homeTeam, rec.awayTeam, HomeWin, rec.homeWin.value),
                               Row(rec.date, rec.homeTeam, rec.awayTeam, Draw, rec.draw.value),
                               Row(rec.date, rec.homeTeam, rec.awayTeam, AwayWin, rec.awayWin.value)]
  {
    var h, a, d := rec.homeTeam, rec.awayTeam, rec.date;
    assert [rec][1..] == [];
    var m3 := [MeltedRow(d, h, a, AwayWin, rec.awayWin)];
    var m2 := [MeltedRow(d, h, a, Draw, rec.draw)] + m3;
    var m1 := [MeltedRow(d, h, a, HomeWin, rec.homeWin)] + m2;
    assert MeltColumn([rec], HomeWin) == m1[..1];
    assert MeltColumn([rec], Draw) == m2[..1];
    assert MeltColumn([rec], AwayWin) == m3;
    assert Melt([rec]) == m1;
    assert m3[1..] == [] && m2[1..] == m3 && m1[1..] == m2;
    assert DropNa(m3) == [Row(d, h, a, AwayWin, rec.awayWin.value)];
    assert DropNa(m2) == [Row(d, h, a, Draw, rec.draw.value)] + DropNa(m3);
  }

  lemma ThreeSorted(home: Row, draw: Row, away: Row)
    requires home.odds == 1.5 && draw.odds == 3.0 && away.odds == 2.5
    ensures SortByOdds([home, draw, away]) == [home, away, draw]
  {
    assert [home, draw, away][1..] == [draw, away];
    assert [draw, away][1..] == [away];
    assert [away][1..] == [];
    assert SortByOdds([away]) == [away];
    assert Insert(draw, [away]) == [away, draw];
    assert SortByOdds([draw, away]) == [away, draw];
    assert Insert(home, [away, draw]) == [home, away, draw];
  }
}
