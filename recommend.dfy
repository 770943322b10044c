/** `recommend_bets`: melt the odds table into one row per (record, market) price, drop
    the absent prices, sort by price, keep the first `max_bets` rows and give each the
    same stake `funds / max_bets`. */
module Recommend {
  import opened Wrappers
  import opened Events
  import opened OddsTable
  import Fixtures

  /** A row of the melted table: the id columns, the market and the (possibly absent) price.
      The `market` column holds the name of the price column the row came from, `home_win`,
      `draw` or `away_win`; here it is the corresponding slot. */
  datatype MeltedRow = MeltedRow(date: Timestamp, homeTeam: string, awayTeam: string, market: Slot, odds: Option<Price>)

  /** A row once absent prices are dropped. */
  datatype Row = Row(date: Timestamp, homeTeam: string, awayTeam: string, market: Slot, odds: Price)

  /** A row of the recommendation table: the row and its `stake` column. */
  datatype Bet = Bet(row: Row, stake: real)

  // ---------------------------------------------------------------------------
  // The pipeline

  /** The frame built from the records has a column for slot `s` exactly when some
      record holds that key. */
  predicate HasColumn(records: seq<OddsRecord>, s: Slot)
  {
    exists i :: 0 <= i < |records| && SlotPrice(records[i], s).Some?
  }

  /** The columns `melt` names are all present. The id columns exist as soon as there is
      a record, so this is only about the three price columns. */
  predicate HasAllColumns(records: seq<OddsRecord>)
  {
    HasColumn(records, HomeWin) && HasColumn(records, Draw) && HasColumn(records, AwayWin)
  }

  function MeltColumn(records: seq<OddsRecord>, s: Slot): seq<MeltedRow>
  {
    if records == [] then []
    else
      var r := records[0];
      [MeltedRow(r.date, r.homeTeam, r.awayTeam, s, SlotPrice(r, s))] + MeltColumn(records[1..], s)
  }

  /** `melt` stacks the value columns one after the other: every record's home_win, then
      every record's draw, then every record's away_win. */
  function Melt(records: seq<OddsRecord>): seq<MeltedRow>
  {
    MeltColumn(records, HomeWin) + MeltColumn(records, Draw) + MeltColumn(records, AwayWin)
  }

  /** `dropna(subset=['odds'])` */
  function DropNa(rows: seq<MeltedRow>): seq<Row>
  {
    if rows == [] then []
    else
      var m := rows[0];
      (if m.odds.Some? then [Row(m.date, m.homeTeam, m.awayTeam, m.market, m.odds.value)] else [])
        + DropNa(rows[1..])
  }

  predicate SortedByOdds(rows: seq<Row>)
  {
    forall i, j :: 0 <= i < j < |rows| ==> rows[i].odds <= rows[j].odds
  }

  /** A row no worse than all rows of a sorted sequence may go in front of it. */
  lemma ConsSorted(h: Row, t: seq<Row>)
    requires SortedByOdds(t)
    requires forall y :: y in multiset(t) ==> h.odds <= y.odds
    ensures SortedByOdds([h] + t)
  {
    forall i, j | 0 <= i < j < |[h] + t| ensures ([h] + t)[i].odds <= ([h] + t)[j].odds {
      assert t[j - 1] in multiset(t);
    }
  }

  /** Every row of a sorted sequence is no better than its first. */
  lemma FirstIsLeast(rows: seq<Row>)
    requires SortedByOdds(rows) && rows != []
    ensures forall y :: y in multiset(rows[1..]) ==> rows[0].odds <= y.odds
  {
    forall y | y in multiset(rows[1..]) ensures rows[0].odds <= y.odds {
      var k :| 0 <= k < |rows[1..]| && rows[1..][k] == y;
      assert rows[k + 1] == y;
    }
  }

  function Insert(x: Row, rows: seq<Row>): (r: seq<Row>)
    requires SortedByOdds(rows)
    ensures SortedByOdds(r)
    ensures multiset(r) == multiset(rows) + multiset{x}
  {
    if rows == [] then [x]
    else if x.odds <= rows[0].odds then
      FirstIsLeast(rows);
      SplitFirst(rows);
      ConsSorted(x, rows);
      [x] + rows
    else
      var tail := Insert(x, rows[1..]);
      FirstIsLeast(rows);
      SplitFirst(rows);
      ConsInsert(rows[0], x, rows[1..], tail);
      [rows[0]] + tail
  }

  lemma SplitFirst(rows: seq<Row>)
    requires rows != []
    ensures multiset(rows) == multiset{rows[0]} + multiset(rows[1..])
  {
    assert rows == [rows[0]] + rows[1..];
  }

  /** The step of `Insert` that keeps the smaller head in front of the inserted tail. */
  lemma ConsInsert(h: Row, x: Row, rest: seq<Row>, tail: seq<Row>)
    requires SortedByOdds(tail) && multiset(tail) == multiset(rest) + multiset{x}
    requires h.odds < x.odds
    requires forall y :: y in multiset(rest) ==> h.odds <= y.odds
    ensures SortedByOdds([h] + tail)
    ensures multiset([h] + tail) == multiset{h} + multiset(rest) + multiset{x}
  {
    ConsSorted(h, tail);
  }

  /** `sort_values(by='odds', ascending=True)`. The library's sort is not stable; this one
      is, and nothing stated below depends on the order of rows with equal odds. */
  function SortByOdds(rows: seq<Row>): (r: seq<Row>)
    ensures SortedByOdds(r)
    ensures multiset(r) == multiset(rows)
  {
    if rows == [] then []
    else
      assert rows == [rows[0]] + rows[1..];
      Insert(rows[0], SortByOdds(rows[1..]))
  }

  /** `head(n)`, which is the slice `[:n]`: the first n rows, or for a negative n all rows
      but the last -n. */
  function Head<T>(rows: seq<T>, n: int): (r: seq<T>)
    ensures |r| == if n >= 0 then Min(n, |rows|) else Max(|rows| + n, 0)
    ensures r == rows[..|r|]
  {
    if n >= 0 then rows[..Min(n, |rows|)] else rows[..Max(|rows| + n, 0)]
  }

  function Min(a: int, b: int): int { if a <= b then a else b }

  function Max(a: int, b: int): int { if a >= b then a else b }

  function WithStake(rows: seq<Row>, stake: real): (r: seq<Bet>)
    ensures |r| == |rows|
    ensures forall i :: 0 <= i < |r| ==> r[i].row == rows[i] && r[i].stake == stake
  {
    seq(|rows|, i requires 0 <= i < |rows| => Bet(rows[i], stake))
  }

  /** The melted table after `dropna`: every present price of every record. */
  function Present(records: seq<OddsRecord>): seq<Row>
  {
    DropNa(Melt(records))
  }

  /** `recommend_bets(X_fix, O_fix, funds, max_bets)`; the fixtures are not used. */
  function RecommendBets(fixtures: seq<Fixtures.Fixture>, records: seq<OddsRecord>, funds: real, maxBets: int)
    : Result<seq<Bet>, Failure>
  {
    if !HasAllColumns(records) then Err(MissingColumns)
    else
      var top := Head(SortByOdds(Present(records)), maxBets);
      if maxBets == 0 then Err(ZeroDivision)
      else Ok(WithStake(top, funds / maxBets as real))
  }

  // ---------------------------------------------------------------------------
  // Reference definitions

  /** How many of a record's three slots hold a price. */
  function PricesIn(r: OddsRecord): nat
  {
    (if r.homeWin.Some? then 1 else 0) + (if r.draw.Some? then 1 else 0) + (if r.awayWin.Some? then 1 else 0)
  }

  /** How many prices the whole table holds, counted record by record. */
  function PriceCount(records: seq<OddsRecord>): nat
  {
    if records == [] then 0 else PricesIn(records[0]) + PriceCount(records[1..])
  }

  /** `x` is the price of slot `x.market` of some record with `x`'s teams and date. */
  predicate QuotedIn(x: Row, records: seq<OddsRecord>)
  {
    exists j :: 0 <= j < |records|
      && records[j].date == x.date && records[j].homeTeam == x.homeTeam && records[j].awayTeam == x.awayTeam
      && SlotPrice(records[j], x.market) == Some(x.odds)
  }

  function Rows(bets: seq<Bet>): (r: seq<Row>)
    ensures |r| == |bets| && forall i :: 0 <= i < |bets| ==> r[i] == bets[i].row
  {
    seq(|bets|, i requires 0 <= i < |bets| => bets[i].row)
  }

  function TotalStake(bets: seq<Bet>): real
  {
    if bets == [] then 0.0 else bets[0].stake + TotalStake(bets[1..])
  }

  // ---------------------------------------------------------------------------
  // The melted table

  lemma {:induction false} MeltColumnAt(records: seq<OddsRecord>, s: Slot)
    ensures |MeltColumn(records, s)| == |records|
    ensures forall i :: 0 <= i < |records| ==>
      MeltColumn(records, s)[i] == MeltedRow(records[i].date, records[i].homeTeam, records[i].awayTeam, s, SlotPrice(records[i], s))
  {
    if records != [] {
      MeltColumnAt(records[1..], s);
      assert forall i :: 1 <= i < |records| ==> MeltColumn(records, s)[i] == MeltColumn(records[1..], s)[i - 1];
    }
  }

  /** The layout of the melted table: with n records, row i, row n + i and row 2n + i are
      record i's home_win, draw and away_win, each with that record's teams and date. */
  lemma MeltLayout(records: seq<OddsRecord>)
    ensures |Melt(records)| == 3 * |records|
    ensures forall i :: 0 <= i < |records| ==>
      var r, n := records[i], |records|;
      && Melt(records)[i] == MeltedRow(r.date, r.homeTeam, r.awayTeam, HomeWin, r.homeWin)
      && Melt(records)[n + i] == MeltedRow(r.date, r.homeTeam, r.awayTeam, Draw, r.draw)
      && Melt(records)[2 * n + i] == MeltedRow(r.date, r.homeTeam, r.awayTeam, AwayWin, r.awayWin)
  {
    MeltColumnAt(records, HomeWin);
    MeltColumnAt(records, Draw);
    MeltColumnAt(records, AwayWin);
    ThreeParts(MeltColumn(records, HomeWin), MeltColumn(records, Draw), MeltColumn(records, AwayWin), |records|);
  }

  lemma ThreeParts<T>(a: seq<T>, b: seq<T>, c: seq<T>, n: nat)
    requires |a| == n && |b| == n && |c| == n
    ensures |a + b + c| == 3 * n
    ensures forall i :: 0 <= i < n ==> (a + b + c)[i] == a[i] && (a + b + c)[n + i] == b[i] && (a + b + c)[2 * n + i] == c[i]
  {
  }

  lemma {:induction false} DropNaAppend(a: seq<MeltedRow>, b: seq<MeltedRow>)
    ensures DropNa(a + b) == DropNa(a) + DropNa(b)
  {
    if a != [] {
      var m := a[0];
      var h := if m.odds.Some? then [Row(m.date, m.homeTeam, m.awayTeam, m.market, m.odds.value)] else [];
      DropNaAppend(a[1..], b);
      assert (a + b)[0] == m;
      assert (a + b)[1..] == a[1..] + b;
      assert DropNa(a + b) == h + DropNa(a[1..] + b);
      assert DropNa(a) == h + DropNa(a[1..]);
      assert h + (DropNa(a[1..]) + DropNa(b)) == (h + DropNa(a[1..])) + DropNa(b);
    } else {
      assert a + b == b;
    }
  }

  function SlotCount(records: seq<OddsRecord>, s: Slot): nat
  {
    if records == [] then 0 else (if SlotPrice(records[0], s).Some? then 1 else 0) + SlotCount(records[1..], s)
  }

  lemma {:induction false} DropNaColumnSize(records: seq<OddsRecord>, s: Slot)
    ensures |DropNa(MeltColumn(records, s))| == SlotCount(records, s)
  {
    if records != [] {
      DropNaColumnSize(records[1..], s);
    }
  }

  lemma {:induction false} PriceCountBySlot(records: seq<OddsRecord>)
    ensures PriceCount(records) == SlotCount(records, HomeWin) + SlotCount(records, Draw) + SlotCount(records, AwayWin)
  {
    if records != [] {
      PriceCountBySlot(records[1..]);
    }
  }

  /** Stacking and dropping keeps exactly the present prices: as many rows as the records
      hold prices. */
  lemma PresentSize(records: seq<OddsRecord>)
    ensures |Present(records)| == PriceCount(records)
  {
    DropNaAppend(MeltColumn(records, HomeWin) + MeltColumn(records, Draw), MeltColumn(records, AwayWin));
    DropNaAppend(MeltColumn(records, HomeWin), MeltColumn(records, Draw));
    DropNaColumnSize(records, HomeWin);
    DropNaColumnSize(records, Draw);
    DropNaColumnSize(records, AwayWin);
    PriceCountBySlot(records);
  }

  lemma {:induction false} DropNaColumnMembers(records: seq<OddsRecord>, s: Slot)
    ensures forall x :: x in DropNa(MeltColumn(records, s)) <==> x.market == s && QuotedIn(x, records)
  {
    if records != [] {
      DropNaColumnMembers(records[1..], s);
      var r := records[0];
      forall x ensures x in DropNa(MeltColumn(records, s)) <==> x.market == s && QuotedIn(x, records) {
        if x.market == s && QuotedIn(x, records) {
          var j :| 0 <= j < |records|
            && records[j].date == x.date && records[j].homeTeam == x.homeTeam && records[j].awayTeam == x.awayTeam
            && SlotPrice(records[j], x.market) == Some(x.odds);
          if j > 0 {
            assert records[1..][j - 1] == records[j];
            assert QuotedIn(x, records[1..]);
          }
        }
        if x in DropNa(MeltColumn(records[1..], s)) {
          var j :| 0 <= j < |records[1..]|
            && records[1..][j].date == x.date && records[1..][j].homeTeam == x.homeTeam && records[1..][j].awayTeam == x.awayTeam
            && SlotPrice(records[1..][j], x.market) == Some(x.odds);
          assert records[j + 1] == records[1..][j];
        }
      }
    }
  }

  /** A row survives melting and dropping exactly when it is a present price of some
      record, under that price's market, with that record's teams and date. */
  lemma PresentMembers(records: seq<OddsRecord>)
    ensures forall x :: x in Present(records) <==> QuotedIn(x, records)
  {
    DropNaAppend(MeltColumn(records, HomeWin) + MeltColumn(records, Draw), MeltColumn(records, AwayWin));
    DropNaAppend(MeltColumn(records, HomeWin), MeltColumn(records, Draw));
    DropNaColumnMembers(records, HomeWin);
    DropNaColumnMembers(records, Draw);
    DropNaColumnMembers(records, AwayWin);
  }

  // ---------------------------------------------------------------------------
  // What a recommendation is

  /** `recommend_bets` fails with a KeyError when the odds table lacks one of the columns
      `melt` names (always so for an empty table, and for one where no record prices a
      draw), and with ZeroDivisionError when `max_bets` is 0; otherwise it succeeds. */
  lemma RecommendBetsFailures(fixtures: seq<Fixtures.Fixture>, records: seq<OddsRecord>, funds: real, maxBets: int)
    ensures RecommendBets(fixtures, records, funds, maxBets).Ok? <==> HasAllColumns(records) && maxBets != 0
    ensures RecommendBets(fixtures, records, funds, maxBets) == Err(MissingColumns) <==> !HasAllColumns(records)
    ensures (records == [] || forall i :: 0 <= i < |records| ==> records[i].draw.None?) ==>
      RecommendBets(fixtures, records, funds, maxBets) == Err(MissingColumns)
    ensures HasAllColumns(records) && maxBets == 0 ==> RecommendBets(fixtures, records, funds, maxBets) == Err(ZeroDivision)
  {
  }

  /** The number of recommendations is `min(max_bets, K)` for K the number of present
      prices in the table (for a negative `max_bets`, K minus its magnitude, at least 0). */
  lemma RecommendLength(fixtures: seq<Fixtures.Fixture>, records: seq<OddsRecord>, funds: real, maxBets: int)
    requires RecommendBets(fixtures, records, funds, maxBets).Ok?
    ensures var k, n := PriceCount(records), |RecommendBets(fixtures, records, funds, maxBets).value|;
      n == if maxBets >= 0 then Min(maxBets, k) else Max(k + maxBets, 0)
  {
    PresentSize(records);
    var sorted := SortByOdds(Present(records));
    assert |sorted| == |multiset(sorted)| == |multiset(Present(records))| == |Present(records)|;
  }

  /** The recommendations come in non-decreasing order of odds. */
  lemma RecommendSorted(fixtures: seq<Fixtures.Fixture>, records: seq<OddsRecord>, funds: real, maxBets: int)
    requires RecommendBets(fixtures, records, funds, maxBets).Ok?
    ensures var bets := RecommendBets(fixtures, records, funds, maxBets).value;
      forall i, j :: 0 <= i < j < |bets| ==> bets[i].row.odds <= bets[j].row.odds
  {
  }

  /** A prefix of a sorted sequence is its cheapest part: nothing left out is cheaper
      than anything kept. */
  lemma PrefixIsCheapest(sorted: seq<Row>, m: nat)
    requires SortedByOdds(sorted) && m <= |sorted|
    ensures multiset(sorted[..m]) <= multiset(sorted)
    ensures forall x, y :: x in sorted[..m] && y in multiset(sorted) - multiset(sorted[..m]) ==> x.odds <= y.odds
  {
    var top, rest := sorted[..m], sorted[m..];
    assert sorted == top + rest;
    assert multiset(sorted) == multiset(top) + multiset(rest);
    forall x, y | x in top && y in multiset(sorted) - multiset(top) ensures x.odds <= y.odds {
      assert y in multiset(rest);
      var i :| 0 <= i < |top| && top[i] == x;
      var j :| 0 <= j < |rest| && rest[j] == y;
      assert sorted[i] == x && sorted[m + j] == y;
    }
  }

  /** The recommendations are drawn from the present prices (with multiplicity), and
      every selected price is at most every present price that was not selected. */
  lemma RecommendCheapest(fixtures: seq<Fixtures.Fixture>, records: seq<OddsRecord>, funds: real, maxBets: int)
    requires RecommendBets(fixtures, records, funds, maxBets).Ok?
    ensures var chosen := Rows(RecommendBets(fixtures, records, funds, maxBets).value);
      && multiset(chosen) <= multiset(Present(records))
      && forall x, y :: x in chosen && y in multiset(Present(records)) - multiset(chosen) ==> x.odds <= y.odds
  {
    var sorted := SortByOdds(Present(records));
    var top := Head(sorted, maxBets);
    var chosen := Rows(RecommendBets(fixtures, records, funds, maxBets).value);
    assert chosen == top;
    PrefixIsCheapest(sorted, |top|);
  }

  /** Every recommendation is a present price of some odds record: its market is one of
      the three slots of a record with its teams and date, and that slot holds its odds. */
  lemma RecommendQuoted(fixtures: seq<Fixtures.Fixture>, records: seq<OddsRecord>, funds: real, maxBets: int)
    requires RecommendBets(fixtures, records, funds, maxBets).Ok?
    ensures var bets := RecommendBets(fixtures, records, funds, maxBets).value;
      forall i :: 0 <= i < |bets| ==> QuotedIn(bets[i].row, records)
  {
    RecommendCheapest(fixtures, records, funds, maxBets);
    PresentMembers(records);
    var bets := RecommendBets(fixtures, records, funds, maxBets).value;
    forall i | 0 <= i < |bets| ensures QuotedIn(bets[i].row, records) {
      assert bets[i].row in multiset(Rows(bets));
    }
  }

  /** Every recommendation gets the same stake `funds / max_bets`, whatever its odds. */
  lemma RecommendStakes(fixtures: seq<Fixtures.Fixture>, records: seq<OddsRecord>, funds: real, maxBets: int)
    requires RecommendBets(fixtures, records, funds, maxBets).Ok?
    ensures maxBets != 0
    ensures var bets := RecommendBets(fixtures, records, funds, maxBets).value;
      forall i :: 0 <= i < |bets| ==> bets[i].stake == funds / maxBets as real
  {
  }

  /** Bets that all carry the stake q add up to q times their number. */
  lemma {:induction false} EqualStakesTotal(bets: seq<Bet>, q: real)
    requires forall i :: 0 <= i < |bets| ==> bets[i].stake == q
    ensures TotalStake(bets) == |bets| as real * q
  {
    if bets != [] {
      EqualStakesTotal(bets[1..], q);
    }
  }

  /** Bets that all carry the stake `funds / m` add up to a nonzero `funds` exactly when
      there are m of them. */
  lemma EqualStakesSumToFunds(bets: seq<Bet>, funds: real, m: int)
    requires m != 0 && funds != 0.0
    requires forall i :: 0 <= i < |bets| ==> bets[i].stake == funds / m as real
    ensures TotalStake(bets) == funds <==> |bets| == m
  {
    var q := funds / m as real;
    EqualStakesTotal(bets, q);
    ScaledShare(|bets| as real, funds, m as real);
  }

  /** n shares of funds / m make up the funds exactly when n is m. */
  lemma ScaledShare(n: real, funds: real, m: real)
    requires m != 0.0 && funds != 0.0
    ensures n * (funds / m) == funds <==> n == m
  {
    var q := funds / m;
    assert q * m == funds;
    assert q != 0.0;
    assert n * q - m * q == (n - m) * q;
  }

  /** The stakes of the recommendations add up to a nonzero `funds` exactly when there
      are `max_bets` of them; with fewer present prices than that, part of the funds is
      left unstaked. */
  lemma RecommendStakesSumToFunds(fixtures: seq<Fixtures.Fixture>, records: seq<OddsRecord>, funds: real, maxBets: int)
    requires RecommendBets(fixtures, records, funds, maxBets).Ok? && funds != 0.0
    ensures var bets := RecommendBets(fixtures, records, funds, maxBets).value;
      TotalStake(bets) == funds <==> |bets| == maxBets
  {
    RecommendStakes(fixtures, records, funds, maxBets);
    EqualStakesSumToFunds(RecommendBets(fixtures, records, funds, maxBets).value, funds, maxBets);
  }

  /** The fixtures argument plays no part in the result. */
  lemma RecommendIgnoresFixtures(f1: seq<Fixtures.Fixture>, f2: seq<Fixtures.Fixture>, records: seq<OddsRecord>, funds: real, maxBets: int)
    ensures RecommendBets(f1, records, funds, maxBets) == RecommendBets(f2, records, funds, maxBets)
  {
  }
}
