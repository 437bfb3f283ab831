/** Properties that relate several operations: what a later read observes after
    a write, which inputs an operation ignores, and how the written `buy_ticket`
    departs from the intended one. */
module Properties {
  import opened Results
  import opened Keys
  import opened Store
  import opened Search
  import opened Traits

  /** The filters, the sort criterion and the direction never change a search. */
  lemma SearchIgnoresFilters(s: State, start: TraitsKey, end: TraitsKey, limit: int,
                             f1: TimeFilter, f2: TimeFilter, by1: SortingCriteria, by2: SortingCriteria,
                             asc1: bool, asc2: bool)
    ensures SearchConnections(s, start, end, f1, by1, asc1, limit)
         == SearchConnections(s, start, end, f2, by2, asc2, limit)
  {
  }

  /** A search for a linked pair with a positive limit returns at least one row,
      and for an unlinked but registered, distinct pair returns none. */
  lemma {:induction false} SearchFindsIffDirect(s: State, start: TraitsKey, end: TraitsKey,
                                                f: TimeFilter, order: SortingCriteria, asc: bool, limit: int)
    requires limit > 0
    ensures var q := SearchConnections(s, start, end, f, order, asc, limit);
      (q.Ok? && |q.value| > 0) <==> Linked(s, start.ToString(), end.ToString())
  {
    MatchesNonEmpty(s.connections, start.ToString(), end.ToString());
  }

  /** After connecting two stations, a search between them finds a connection
      at least as fast as the new one, and the pair counts as linked. */
  lemma {:induction false} ConnectThenSearch(s: State, start: TraitsKey, end: TraitsKey, travelTime: int,
                                             limit: int)
    requires ConnectTrainStations(s, start, end, travelTime).Ok?
    requires limit > 0
    ensures var t := ConnectTrainStations(s, start, end, travelTime).value;
      && Linked(t, start.ToString(), end.ToString())
      && var q := SearchConnections(t, start, end, NoFilter, OverallTravelTime, true, limit);
         q.Ok? && |q.value| > 0 && q.value[0].travelTime <= travelTime
  {
    var t := ConnectTrainStations(s, start, end, travelTime).value;
    var a, b := start.ToString(), end.ToString();
    var c := t.connections[|s.connections|];
    assert HasDirect(t.connections, a, b);
    MatchesNonEmpty(t.connections, a, b);
    var m := Matches(t.connections, a, b);
    assert c in multiset(t.connections);
    assert c in multiset(m);
    var q := SearchConnections(t, start, end, NoFilter, OverallTravelTime, true, limit);
    FirstIsFastest(q.value, m, c);
  }

  /** A train added with a status reads back with that status. */
  lemma AddTrainThenStatus(s: State, trainKey: Option<TraitsKey>, capacity: int, status: TrainStatus)
    requires AddTrain(s, trainKey, capacity, status).Ok?
    ensures var (t, key) := AddTrain(s, trainKey, capacity, status).value;
      GetTrainCurrentStatus(t, key) == Ok(Some(status))
  {
  }

  /** A second registration under the same key is refused. */
  lemma AddTrainTwiceFails(s: State, trainKey: TraitsKey, capacity: int, status: TrainStatus,
                           capacity2: int, status2: TrainStatus)
    requires AddTrain(s, Some(trainKey), capacity, status).Ok?
    ensures AddTrain(AddTrain(s, Some(trainKey), capacity, status).value.0, Some(trainKey),
                     capacity2, status2) == Err(TrainExists)
  {
  }

  /** An update that supplies a status makes a registered train read back with it. */
  lemma UpdateThenStatus(s: State, trainKey: TraitsKey, capacity: Option<int>, status: TrainStatus)
    requires trainKey.ToString() in s.trains
    ensures GetTrainCurrentStatus(UpdateTrainDetails(s, trainKey, capacity, Some(status)), trainKey)
         == Ok(Some(status))
  {
  }

  /** Repeating an update changes nothing more. */
  lemma UpdateIdempotent(s: State, trainKey: TraitsKey, capacity: Option<int>, status: Option<TrainStatus>)
    ensures var t := UpdateTrainDetails(s, trainKey, capacity, status);
      UpdateTrainDetails(t, trainKey, capacity, status) == t
  {
  }

  /** A deleted train reads as absent, and its schedules are still there. */
  lemma DeleteTrainThenStatus(s: State, trainKey: TraitsKey)
    ensures GetTrainCurrentStatus(DeleteTrain(s, trainKey), trainKey) == Ok(None)
    ensures DeleteTrain(s, trainKey).schedules == s.schedules
  {
  }

  /** A registered station cannot be registered again. */
  lemma AddStationTwiceFails(s: State, stationKey: TraitsKey, details: string, details2: string)
    requires AddTrainStation(s, stationKey, details).Ok?
    ensures AddTrainStation(AddTrainStation(s, stationKey, details).value.0, stationKey, details2)
         == Err(StationExists)
  {
  }

  /** A freshly added user can buy a ticket. */
  lemma AddUserThenBuy(s: State, userEmail: string, details: string, connectionId: int, reserve: bool)
    requires AddUser(s, userEmail, details).Ok?
    ensures BuyTicket(AddUser(s, userEmail, details).value, userEmail, connectionId, reserve).Ok?
  {
  }

  /** The two readings of `buy_ticket` agree on an unknown buyer and part on
      every registered one: as written it aborts, as intended it sells. */
  lemma BuyTicketAsWrittenRefusesEveryBuyer(s: State, userEmail: string, connectionId: int, reserve: bool)
    ensures BuyTicketAsWritten(s, userEmail, connectionId, reserve).Err?
    ensures userEmail !in s.users ==>
      BuyTicketAsWritten(s, userEmail, connectionId, reserve) == BuyTicket(s, userEmail, connectionId, reserve)
    ensures userEmail in s.users <==>
      BuyTicketAsWritten(s, userEmail, connectionId, reserve) != BuyTicket(s, userEmail, connectionId, reserve)
  {
  }

  /** A concrete buyer: after `add_user("a@b", "")` on empty tables, the written
      `buy_ticket` aborts on the user row while the intended one adds a ticket. */
  lemma RegisteredBuyerRefusedAsWritten()
    ensures var s := AddUser(Empty, "a@b", "").value;
      && BuyTicketAsWritten(s, "a@b", 1, true) == Err(RowIndexedByName)
      && BuyTicket(s, "a@b", 1, true).Ok?
  {
    assert '@' in "a@b";
  }

  /** Once a user holds a ticket, the store refuses to delete the user. */
  lemma BuyThenDeleteUserFails(s: State, userEmail: string, connectionId: int, reserve: bool)
    requires BuyTicket(s, userEmail, connectionId, reserve).Ok?
    ensures DeleteUser(BuyTicket(s, userEmail, connectionId, reserve).value, userEmail)
         == Err(UserReferenced)
  {
  }

  /** The validation of a schedule reads only stations and connections: the
      train table, and whether the train exists, never matter. */
  lemma {:induction false} AddScheduleIgnoresTrains(s: State, trains: map<string, Train>,
                                                    trainKey: Option<TraitsKey>, hour: int, minute: int,
                                                    stops: seq<Stop>, fromDay: int, fromMonth: int,
                                                    fromYear: int, untilDay: int, untilMonth: int,
                                                    untilYear: int)
    ensures var t := s.(trains := trains);
      var r1 := AddSchedule(s, trainKey, hour, minute, stops, fromDay, fromMonth, fromYear,
                            untilDay, untilMonth, untilYear);
      var r2 := AddSchedule(t, trainKey, hour, minute, stops, fromDay, fromMonth, fromYear,
                            untilDay, untilMonth, untilYear);
      r1.Ok? <==> r2.Ok?
  {
    var t := s.(trains := trains);
    forall j | 0 <= j && j + 1 < |stops|
      ensures PairLinked(s, stops, j) <==> PairLinked(t, stops, j)
    {
    }
  }
}
