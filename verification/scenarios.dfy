/** Worked scenarios proved on the model: a schedule over a three-station network,
    accepted along linked stops and refused across a missing link, and a search
    that returns three connections fastest first. */
module Scenarios {
  import opened Results
  import opened Keys
  import opened Store
  import opened Search
  import opened Traits

  const AToB := Connection(1, "A", "B", 10)
  const BToC := Connection(2, "B", "C", 15)

  /** Stations A, B, C with connections A to B (10 minutes) and B to C (15 minutes). */
  predicate IsNetwork(s: State) {
    s.stations.Keys == {"A", "B", "C"} && s.connections == [AToB, BToC]
  }

  /** Registering A, B, C and connecting A to B and B to C, from empty tables. */
  function Network(): (s: State)
    ensures IsNetwork(s)
  {
    var s1 := AddTrainStation(Empty, TraitsKey("A"), "").value.0;
    var s2 := AddTrainStation(s1, TraitsKey("B"), "").value.0;
    var s3 := AddTrainStation(s2, TraitsKey("C"), "").value.0;
    var s4 := ConnectTrainStations(s3, TraitsKey("A"), TraitsKey("B"), 10).value;
    ConnectTrainStations(s4, TraitsKey("B"), TraitsKey("C"), 15).value
  }

  function Stops(names: seq<string>): (r: seq<Stop>)
    ensures |r| == |names|
    ensures forall i :: 0 <= i < |r| ==> r[i].station.ToString() == names[i]
  {
    if |names| == 0 then [] else [Stop(TraitsKey(names[0]), 0)] + Stops(names[1..])
  }

  lemma NetworkLinks(s: State)
    requires IsNetwork(s)
    ensures Linked(s, "A", "B") && Linked(s, "B", "C")
  {
    assert s.connections[0] == AToB && s.connections[1] == BToC;
  }

  /** A schedule over A, B, C is accepted. */
  lemma ScheduleScenarioAccepted(s: State)
    requires IsNetwork(s)
    ensures AddSchedule(s, Some(TraitsKey("T1")), 8, 0, Stops(["A", "B", "C"]),
                        1, 1, 2024, 31, 12, 2024).Ok?
  {
    var stops := Stops(["A", "B", "C"]);
    NetworkLinks(s);
    assert PairLinked(s, stops, 0) && PairLinked(s, stops, 1);
  }

  lemma NoDirectFromAToC(s: State)
    requires IsNetwork(s)
    ensures !HasDirect(s.connections, "A", "C")
    ensures StationsDistinctAndRegistered(s, "A", "C")
  {
  }

  /** A schedule from A straight to C is refused, naming the unconnected pair. */
  lemma ScheduleScenarioRefused(s: State)
    requires IsNetwork(s)
    ensures AddSchedule(s, Some(TraitsKey("T2")), 9, 0, Stops(["A", "C"]),
                        1, 1, 2024, 31, 12, 2024) == Err(NotConnected("A", "C"))
  {
    var stops := Stops(["A", "C"]);
    assert stops[0].station.ToString() == "A";
    assert stops[1].station.ToString() == "C";
    NoDirectFromAToC(s);
    assert FirstGap(s, stops, 0, 0);
    assert PairError(s, stops, 0) == NotConnected("A", "C");
  }

  const Twenty := Connection(2, "A", "B", 20)
  const Five := Connection(3, "A", "B", 5)

  lemma ScenarioRowsAllMatch()
    ensures Matches([AToB, Twenty, Five], "A", "B") == [AToB, Twenty, Five]
  {
  }

  lemma SortTwo()
    ensures SortByTravelTime([Twenty, Five]) == [Five, Twenty]
  {
  }

  lemma InsertTenAfterFive()
    ensures Insert(AToB, [Five, Twenty]) == [Five, AToB, Twenty]
  {
    assert [Five, Twenty][1..] == [Twenty];
    assert Insert(AToB, [Twenty]) == [AToB, Twenty];
  }

  lemma SortThree()
    ensures SortByTravelTime([AToB, Twenty, Five]) == [Five, AToB, Twenty]
  {
    assert [AToB, Twenty, Five][1..] == [Twenty, Five];
    SortTwo();
    InsertTenAfterFive();
  }

  lemma ScenarioRowsSorted()
    ensures FastestFirst([AToB, Twenty, Five], 5) == [Five, AToB, Twenty]
  {
    SortThree();
  }

  /** Three connections A to B of 10, 20 and 5 minutes, between registered
      stations A and B, come back fastest first. */
  lemma SearchScenario(s: State)
    requires s.stations.Keys == {"A", "B"}
    requires s.connections == [AToB, Twenty, Five]
    ensures SearchConnections(s, TraitsKey("A"), TraitsKey("B"), NoFilter, OverallTravelTime,
                              true, DefaultLimit) == Ok([Five, AToB, Twenty])
  {
    assert StationsDistinctAndRegistered(s, "A", "B");
    ScenarioRowsAllMatch();
    ScenarioRowsSorted();
  }
}
