/** `prepare_fixture_data`: one fixture row per event, built by a list comprehension. */
module Fixtures {
  import opened Wrappers
  import opened Events

  datatype Fixture = Fixture(sport: string, homeTeam: string, awayTeam: string, date: Timestamp)

  /** The dictionary the comprehension builds for one event. The keys of the literal are
      read in the order it lists them; `sport_title` falls back to the empty string. */
  function FixtureOf(e: Event): Result<Fixture, Failure>
  {
    match ReadHeader(e)
    case Err(f) => Err(f)
    case Ok(h) => Ok(Fixture(GetOr(e.sportTitle, ""), h.homeTeam, h.awayTeam, h.date))
  }

  /** The comprehension over all events; the first event whose fixture fails aborts it. */
  function PrepareFixtureData(events: seq<Event>): Result<seq<Fixture>, Failure>
  {
    if events == [] then Ok([])
    else
      match FixtureOf(events[0])
      case Err(f) => Err(f)
      case Ok(x) => Join(Ok([x]), PrepareFixtureData(events[1..]))
  }

  /** Fixture extraction succeeds exactly when every event has the required keys; it then
      yields one fixture per event, in input order, whose teams and date are the event's
      and whose sport is the event's `sport_title`, or "" when that is absent. */
  lemma {:induction false} FixturesOnePerEvent(events: seq<Event>)
    ensures PrepareFixtureData(events).Ok? <==> forall i :: 0 <= i < |events| ==> HasEventKeys(events[i])
    ensures PrepareFixtureData(events).Ok? ==>
      var fs := PrepareFixtureData(events).value;
      && |fs| == |events|
      && forall i :: 0 <= i < |events| ==>
        && Some(fs[i].homeTeam) == events[i].homeTeam
        && Some(fs[i].awayTeam) == events[i].awayTeam
        && Some(fs[i].date) == events[i].commenceTime
        && fs[i].sport == (if events[i].sportTitle.Some? then events[i].sportTitle.value else "")
  {
    if events != [] {
      FixturesOnePerEvent(events[1..]);
      assert forall i :: 1 <= i < |events| ==> events[i] == events[1..][i - 1];
    }
  }

  /** When extraction fails, the failure is the KeyError of the first event lacking a
      required key, for the first key it lacks; the events before it are complete. */
  lemma {:induction false} FixturesFirstFailure(events: seq<Event>)
    ensures PrepareFixtureData(events).Err? ==>
      exists k :: 0 <= k < |events|
        && !HasEventKeys(events[k])
        && (forall j :: 0 <= j < k ==> HasEventKeys(events[j]))
        && PrepareFixtureData(events).error == KeyError(FirstMissingKey(events[k]))
  {
    if events != [] && PrepareFixtureData(events).Err? {
      if HasEventKeys(events[0]) {
        FixturesFirstFailure(events[1..]);
        var k :| 0 <= k < |events[1..]|
          && !HasEventKeys(events[1..][k])
          && (forall j :: 0 <= j < k ==> HasEventKeys(events[1..][j]))
          && PrepareFixtureData(events[1..]).error == KeyError(FirstMissingKey(events[1..][k]));
        assert forall j :: 1 <= j < k + 1 ==> events[j] == events[1..][j - 1];
        assert !HasEventKeys(events[k + 1]);
      } else {
        assert !HasEventKeys(events[0]);
      }
    }
  }
}
