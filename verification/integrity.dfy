/** Every operation that writes keeps the integrity the tables' keys and foreign
    keys demand (`Store.Valid`), so reads made after any sequence of operations
    started from empty tables meet it too. */
module Integrity {
  import opened Results
  import opened Keys
  import opened Store
  import opened Traits

  lemma BuyTicketKeepsValid(s: State, userEmail: string, connectionId: int, reserve: bool)
    requires Valid(s)
    ensures BuyTicket(s, userEmail, connectionId, reserve).Ok? ==>
      Valid(BuyTicket(s, userEmail, connectionId, reserve).value)
  {
  }

  /** A new user gets an id no registered user has. */
  lemma AddUserKeepsValid(s: State, userEmail: string, details: string)
    requires Valid(s)
    ensures AddUser(s, userEmail, details).Ok? ==>
      && Valid(AddUser(s, userEmail, details).value)
      && !HasUserId(s.users, AddUser(s, userEmail, details).value.users[userEmail].id)
  {
  }

  /** Removing a user no ticket refers to leaves every ticket's user in place. */
  lemma DeleteUserKeepsValid(s: State, userEmail: string)
    requires Valid(s)
    ensures DeleteUser(s, userEmail).Ok? ==> Valid(DeleteUser(s, userEmail).value)
  {
  }

  /** A stored train always has a decodable status and the counter stays above
      every numeric key, so a generated key is never taken. */
  lemma AddTrainKeepsValid(s: State, trainKey: Option<TraitsKey>, capacity: int,
                                              status: TrainStatus)
    requires Valid(s)
    ensures AddTrain(s, trainKey, capacity, status).Ok? ==>
      Valid(AddTrain(s, trainKey, capacity, status).value.0)
  {
  }

  lemma UpdateTrainDetailsKeepsValid(s: State, trainKey: TraitsKey, capacity: Option<int>,
                                     status: Option<TrainStatus>)
    requires Valid(s)
    ensures Valid(UpdateTrainDetails(s, trainKey, capacity, status))
  {
  }

  lemma DeleteTrainKeepsValid(s: State, trainKey: TraitsKey)
    requires Valid(s)
    ensures Valid(DeleteTrain(s, trainKey))
  {
  }

  lemma AddTrainStationKeepsValid(s: State, stationKey: TraitsKey, details: string)
    requires Valid(s)
    ensures AddTrainStation(s, stationKey, details).Ok? ==>
      Valid(AddTrainStation(s, stationKey, details).value.0)
  {
  }

  /** A new connection joins registered stations and gets an id above every
      existing one. */
  lemma ConnectTrainStationsKeepsValid(s: State, start: TraitsKey, end: TraitsKey,
                                                          travelTime: int)
    requires Valid(s)
    ensures ConnectTrainStations(s, start, end, travelTime).Ok? ==>
      Valid(ConnectTrainStations(s, start, end, travelTime).value)
  {
  }

  lemma AddScheduleKeepsValid(s: State, trainKey: Option<TraitsKey>, hour: int, minute: int,
                              stops: seq<Stop>, fromDay: int, fromMonth: int, fromYear: int,
                              untilDay: int, untilMonth: int, untilYear: int)
    requires Valid(s)
    ensures var r := AddSchedule(s, trainKey, hour, minute, stops, fromDay, fromMonth, fromYear,
                                 untilDay, untilMonth, untilYear);
      r.Ok? ==> Valid(r.value)
  {
  }

  /** On valid tables a status read never meets an undecodable value. */
  lemma StatusReadNeverFails(s: State, trainKey: TraitsKey)
    requires Valid(s)
    ensures GetTrainCurrentStatus(s, trainKey).Ok?
  {
  }

  /** On valid tables a train added without a key always gets one. */
  lemma GeneratedTrainKeyIsFresh(s: State, capacity: int, status: TrainStatus)
    requires Valid(s)
    ensures AddTrain(s, None, capacity, status).Ok?
    ensures AddTrain(s, None, capacity, status).value.1.ToString() !in s.trains
  {
  }
}
