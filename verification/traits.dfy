/** The public operations of the booking backend, each a pure transition on the
    abstract state: it either aborts with an error, writing nothing, or returns
    the new state together with the operation's result. */
module Traits {
  import opened Results
  import opened Format
  import opened Keys
  import opened Store
  import opened Search

  /** `get_train_current_status`: absent for an unknown train, otherwise the
      stored status decoded into the enumeration. */
  function GetTrainCurrentStatus(s: State, trainKey: TraitsKey): (r: Result<Option<TrainStatus>, Error>)
    ensures trainKey.ToString() !in s.trains ==> r == Ok(None)
    ensures r.Ok? && r.value.Some? ==>
      trainKey.ToString() in s.trains && StatusToInt(r.value.value) == s.trains[trainKey.ToString()].status
    ensures r.Err? <==>
      trainKey.ToString() in s.trains && StatusFromInt(s.trains[trainKey.ToString()].status).None?
    ensures r.Ok? ==> (r.value.Some? <==> trainKey.ToString() in s.trains)
    ensures r.Err? ==>
      trainKey.ToString() in s.trains && r.error == UnknownStatus(s.trains[trainKey.ToString()].status)
  {
    var k := trainKey.ToString();
    if k !in s.trains then Ok(None)
    else
      var code := s.trains[k].status;
      StatusDecodeIsEncoding(code);
      match StatusFromInt(code)
      case Some(st) => Ok(Some(st))
      case None => Err(UnknownStatus(code))
  }

  /** `buy_ticket`: the buyer must be a registered user; one ticket row is added. */
  function BuyTicket(s: State, userEmail: string, connectionId: int, alsoReserveSeats: bool)
    : (r: Result<State, Error>)
    ensures r.Err? <==> userEmail !in s.users
    ensures r.Err? ==> r.error == UserMissing
    ensures r.Ok? ==> r.value == s.(tickets := r.value.tickets)
    ensures r.Ok? ==> |r.value.tickets| == |s.tickets| + 1 && r.value.tickets[..|s.tickets|] == s.tickets
    ensures r.Ok? ==>
      && r.value.tickets[|s.tickets|].userId == s.users[userEmail].id
      && r.value.tickets[|s.tickets|].connectionId == connectionId
      && r.value.tickets[|s.tickets|].reserved == alsoReserveSeats
  {
    if userEmail !in s.users then Err(UserMissing)
    else Ok(s.(tickets := s.tickets + [Ticket(s.users[userEmail].id, connectionId, alsoReserveSeats)]))
  }

  /** `buy_ticket` as the source writes it. Its cursor is the default one, whose
      rows are tuples (only `get_train` asks for dictionaries, and the other
      reads index rows by position), so subscripting the found user row with
      `'id'` aborts for every registered buyer and no ticket is written.
      `BuyTicket` is the intended behaviour, which the rest of the model uses. */
  function BuyTicketAsWritten(s: State, userEmail: string, connectionId: int, alsoReserveSeats: bool)
    : (r: Result<State, Error>)
    ensures r.Err?
    ensures userEmail !in s.users ==> r.error == UserMissing
    ensures userEmail in s.users ==> r.error == RowIndexedByName
  {
    if userEmail !in s.users then Err(UserMissing)
    else Err(RowIndexedByName)
  }

  /** The purchase-history rows of one email, in table order. */
  function EntriesOf(ps: seq<PurchaseEntry>, userEmail: string): (r: seq<PurchaseEntry>)
    ensures forall e :: multiset(r)[e] == if e.userEmail == userEmail then multiset(ps)[e] else 0
  {
    if |ps| == 0 then []
    else
      assert ps == [ps[0]] + ps[1..];
      var rest := EntriesOf(ps[1..], userEmail);
      if ps[0].userEmail == userEmail then [ps[0]] + rest else rest
  }

  /** `get_purchase_history`: exactly the rows recorded for the email, each as
      often as it is stored. */
  function GetPurchaseHistory(s: State, userEmail: string): (r: seq<PurchaseEntry>)
    ensures forall i :: 0 <= i < |r| ==> r[i].userEmail == userEmail
    ensures forall e: PurchaseEntry :: e.userEmail == userEmail ==> multiset(r)[e] == multiset(s.purchases)[e]
  {
    var r := EntriesOf(s.purchases, userEmail);
    forall i | 0 <= i < |r|
      ensures r[i].userEmail == userEmail
    {
      assert r[i] in multiset(r);
    }
    r
  }

  /** `add_user`: the email must contain `@` (checked first) and be new. */
  function AddUser(s: State, userEmail: string, userDetails: string): (r: Result<State, Error>)
    ensures '@' !in userEmail ==> r == Err(InvalidEmail)
    ensures '@' in userEmail && userEmail in s.users ==> r == Err(UserExists)
    ensures r.Ok? <==> '@' in userEmail && userEmail !in s.users
    ensures r.Ok? ==> r.value == s.(users := r.value.users, nextUserId := r.value.nextUserId)
    ensures r.Ok? ==> r.value.users.Keys == s.users.Keys + {userEmail}
    ensures r.Ok? ==> r.value.users[userEmail].details == userDetails
    ensures r.Ok? ==> forall e :: e in s.users ==> r.value.users[e] == s.users[e]
  {
    if '@' !in userEmail then Err(InvalidEmail)
    else if userEmail in s.users then Err(UserExists)
    else Ok(s.(users := s.users[userEmail := User(s.nextUserId, userDetails)],
               nextUserId := s.nextUserId + 1))
  }

  /** Some ticket row still refers to the user id. */
  predicate HasTickets(s: State, userId: nat) {
    exists i :: 0 <= i < |s.tickets| && s.tickets[i].userId == userId
  }

  /** `delete_user`: removes the user with that email, if any; the foreign key of
      `tickets` makes the store refuse while a ticket refers to the user. */
  function DeleteUser(s: State, userEmail: string): (r: Result<State, Error>)
    ensures userEmail !in s.users ==> r == Ok(s)
    ensures r.Err? <==> userEmail in s.users && HasTickets(s, s.users[userEmail].id)
    ensures r.Err? ==> r.error == UserReferenced
    ensures r.Ok? ==> r.value == s.(users := r.value.users)
    ensures r.Ok? ==> r.value.users.Keys == s.users.Keys - {userEmail}
    ensures r.Ok? ==> forall e :: e in r.value.users ==> r.value.users[e] == s.users[e]
  {
    if userEmail !in s.users then Ok(s)
    else if HasTickets(s, s.users[userEmail].id) then Err(UserReferenced)
    else Ok(s.(users := s.users - {userEmail}))
  }

  /** The AUTO_INCREMENT counter after a row with key `k` is written explicitly:
      a numeric key at or above the counter moves it past that key. */
  function BumpCounter(next: nat, k: string): (r: nat)
    ensures r >= next
    ensures IsNumeral(k) ==> NumeralValue(k) < r
  {
    if IsNumeral(k) && NumeralValue(k) >= next then NumeralValue(k) + 1 else next
  }

  /** `add_train`: with a key, refuses a duplicate and stores the row under it;
      without one, the store numbers the row from its counter and the new
      number is returned as the key. */
  function AddTrain(s: State, trainKey: Option<TraitsKey>, capacity: int, status: TrainStatus)
    : (r: Result<(State, TraitsKey), Error>)
    ensures trainKey.Some? ==> (r.Err? <==> trainKey.value.ToString() in s.trains)
    ensures r.Err? ==> r.error == TrainExists
    ensures trainKey.None? && TrainIdsBelowCounter(s) ==> r.Ok?
    ensures r.Ok? && trainKey.Some? ==> r.value.1 == trainKey.value
    ensures r.Ok? ==> r.value.1.ToString() !in s.trains
    ensures r.Ok? ==> r.value.0 == s.(trains := r.value.0.trains, nextTrainId := r.value.0.nextTrainId)
    ensures r.Ok? ==>
      r.value.0.trains == s.trains[r.value.1.ToString() := Train(capacity, StatusToInt(status))]
  {
    match trainKey
    case Some(key) =>
      var k := key.ToString();
      if k in s.trains then Err(TrainExists)
      else Ok((s.(trains := s.trains[k := Train(capacity, StatusToInt(status))],
                  nextTrainId := BumpCounter(s.nextTrainId, k)), key))
    case None =>
      var key := KeyOfId(s.nextTrainId);
      var k := key.ToString();
      // a collision would be a duplicate primary key; the counter invariant rules it out
      NatToStringRoundTrip(s.nextTrainId);
      if k in s.trains then Err(TrainExists)
      else Ok((s.(trains := s.trains[k := Train(capacity, StatusToInt(status))],
                  nextTrainId := s.nextTrainId + 1), key))
  }

  /** `update_train_details`: sets the supplied fields of the row with that key;
      with no field supplied, or no such row, nothing changes. */
  function UpdateTrainDetails(s: State, trainKey: TraitsKey, capacity: Option<int>,
                              status: Option<TrainStatus>): (r: State)
    ensures capacity.None? && status.None? ==> r == s
    ensures trainKey.ToString() !in s.trains ==> r == s
    ensures r == s.(trains := r.trains)
    ensures r.trains.Keys == s.trains.Keys
    ensures forall k :: k in s.trains && k != trainKey.ToString() ==> r.trains[k] == s.trains[k]
    ensures trainKey.ToString() in s.trains ==>
      && r.trains[trainKey.ToString()].capacity ==
         (if capacity.Some? then capacity.value else s.trains[trainKey.ToString()].capacity)
      && r.trains[trainKey.ToString()].status ==
         (if status.Some? then StatusToInt(status.value) else s.trains[trainKey.ToString()].status)
  {
    var k := trainKey.ToString();
    if capacity.None? && status.None? then s
    else if k !in s.trains then s
    else
      var row := s.trains[k];
      var cap := if capacity.Some? then capacity.value else row.capacity;
      var code := if status.Some? then StatusToInt(status.value) else row.status;
      s.(trains := s.trains[k := Train(cap, code)])
  }

  /** `delete_train`: removes the row with that key, if any; schedules that name
      the train are left in place. */
  function DeleteTrain(s: State, trainKey: TraitsKey): (r: State)
    ensures r == s.(trains := r.trains)
    ensures r.trains.Keys == s.trains.Keys - {trainKey.ToString()}
    ensures forall k :: k in r.trains ==> r.trains[k] == s.trains[k]
  {
    s.(trains := s.trains - {trainKey.ToString()})
  }

  /** `add_train_station`: refuses a duplicate key, otherwise registers the station
      and returns its key. */
  function AddTrainStation(s: State, stationKey: TraitsKey, details: string)
    : (r: Result<(State, TraitsKey), Error>)
    ensures r.Err? <==> stationKey.ToString() in s.stations
    ensures r.Err? ==> r.error == StationExists
    ensures r.Ok? ==> r.value.1 == stationKey
    ensures r.Ok? ==> r.value.0 == s.(stations := r.value.0.stations)
    ensures r.Ok? ==> r.value.0.stations.Keys == s.stations.Keys + {stationKey.ToString()}
    ensures r.Ok? ==> r.value.0.stations[stationKey.ToString()] == details
    ensures r.Ok? ==> forall k :: k in s.stations ==> r.value.0.stations[k] == s.stations[k]
  {
    var k := stationKey.ToString();
    if k in s.stations then Err(StationExists)
    else Ok((s.(stations := s.stations[k := details]), stationKey))
  }

  /** `connect_train_stations`: the same two-distinct-stations gate as a search,
      then one connection row is appended. */
  function ConnectTrainStations(s: State, start: TraitsKey, end: TraitsKey, travelTimeInMinutes: int)
    : (r: Result<State, Error>)
    ensures r.Err? <==> !StationsDistinctAndRegistered(s, start.ToString(), end.ToString())
    ensures r.Err? ==> r.error == StationsMissing
    ensures r.Ok? ==> r.value == s.(connections := r.value.connections,
                                    nextConnectionId := r.value.nextConnectionId)
    ensures r.Ok? ==>
      |r.value.connections| == |s.connections| + 1 && r.value.connections[..|s.connections|] == s.connections
    ensures r.Ok? ==>
      && r.value.connections[|s.connections|].start == start.ToString()
      && r.value.connections[|s.connections|].end == end.ToString()
      && r.value.connections[|s.connections|].travelTime == travelTimeInMinutes
    ensures r.Ok? ==> r.value.connections[|s.connections|].id == s.nextConnectionId < r.value.nextConnectionId
  {
    var a, b := start.ToString(), end.ToString();
    if ExistingCount(s.stations, a, b) < 2 then Err(StationsMissing)
    else
      Ok(s.(connections := s.connections + [Connection(s.nextConnectionId, a, b, travelTimeInMinutes)],
            nextConnectionId := s.nextConnectionId + 1))
  }

  /** One stop of a schedule: a station and an offset the backend never reads. */
  datatype Stop = Stop(station: TraitsKey, offset: int)

  /** Both stations exist, differ, and a direct connection joins them. */
  predicate Linked(s: State, a: string, b: string) {
    StationsDistinctAndRegistered(s, a, b) && HasDirect(s.connections, a, b)
  }

  predicate PairLinked(s: State, stops: seq<Stop>, j: nat)
    requires j + 1 < |stops|
  {
    Linked(s, stops[j].station.ToString(), stops[j + 1].station.ToString())
  }

  /** Every consecutive pair of stops starting at a position in [i, j) is linked. */
  predicate LinkedBetween(s: State, stops: seq<Stop>, i: nat, j: nat) {
    forall k :: i <= k < j && k + 1 < |stops| ==> PairLinked(s, stops, k)
  }

  /** Every consecutive pair of stops from position `i` on is linked. */
  predicate LinkedFrom(s: State, stops: seq<Stop>, i: nat) {
    LinkedBetween(s, stops, i, |stops|)
  }

  /** The pair at `j` is the first pair from position `i` on that is not linked. */
  predicate FirstGap(s: State, stops: seq<Stop>, i: nat, j: nat) {
    i <= j && j + 1 < |stops| && !PairLinked(s, stops, j) && LinkedBetween(s, stops, i, j)
  }

  /** The error reported for an unlinked pair of stations. */
  function GapError(s: State, a: string, b: string): Error {
    if StationsDistinctAndRegistered(s, a, b) then NotConnected(a, b) else StationsMissing
  }

  /** The error reported for the pair of stops at `j`, `j + 1`. */
  function PairError(s: State, stops: seq<Stop>, j: nat): Error
    requires j + 1 < |stops|
  {
    GapError(s, stops[j].station.ToString(), stops[j + 1].station.ToString())
  }

  /** One step of the validation loop: a search with the default arguments, which
      must succeed and find at least one direct connection. */
  function CheckPair(s: State, a: TraitsKey, b: TraitsKey): (r: Result<(), Error>)
    ensures r.Ok? <==> Linked(s, a.ToString(), b.ToString())
    ensures r.Err? ==> r.error == GapError(s, a.ToString(), b.ToString())
  {
    MatchesNonEmpty(s.connections, a.ToString(), b.ToString());
    match SearchConnections(s, a, b, NoFilter, OverallTravelTime, true, DefaultLimit)
    case Err(e) => Err(e)
    case Ok(found) =>
      if |found| == 0 then Err(NotConnected(a.ToString(), b.ToString())) else Ok(())
  }

  lemma LinkedFromStep(s: State, stops: seq<Stop>, i: nat)
    requires i + 1 < |stops|
    ensures LinkedFrom(s, stops, i) <==> PairLinked(s, stops, i) && LinkedFrom(s, stops, i + 1)
  {
  }

  lemma FirstGapStep(s: State, stops: seq<Stop>, i: nat, j: nat)
    requires i + 1 < |stops| && PairLinked(s, stops, i) && FirstGap(s, stops, i + 1, j)
    ensures FirstGap(s, stops, i, j)
  {
  }

  /** The validation loop of `add_schedule` from position `i`: one check per
      consecutive pair, stopping at the first pair that fails. */
  function CheckStops(s: State, stops: seq<Stop>, i: nat): (r: Result<(), Error>)
    ensures r.Ok? <==> LinkedFrom(s, stops, i)
    ensures r.Err? ==> exists j :: FirstGap(s, stops, i, j) && r.error == PairError(s, stops, j)
    decreases |stops| - i
  {
    if i + 1 >= |stops| then Ok(())
    else
      LinkedFromStep(s, stops, i);
      var here := CheckPair(s, stops[i].station, stops[i + 1].station);
      if here.Err? then
        assert FirstGap(s, stops, i, i);
        Err(here.error)
      else
        var r := CheckStops(s, stops, i + 1);
        if r.Err? then
          var j :| FirstGap(s, stops, i + 1, j) && r.error == PairError(s, stops, j);
          FirstGapStep(s, stops, i, j);
          r
        else r
  }

  /** The schedule node `add_schedule` stores: the train's key, the start time as
      `HH:MM` and the validity bounds as year-month-day, each reading back as
      the numbers given. */
  function ScheduleNode(trainKey: TraitsKey, hour: int, minute: int, fromDay: int, fromMonth: int,
                        fromYear: int, untilDay: int, untilMonth: int, untilYear: int): (n: Schedule)
    ensures n.trainKey == trainKey.ToString()
    ensures ParseTime(n.startTime) == Some((hour, minute))
    ensures ParseDate(n.validFrom) == Some((fromYear, fromMonth, fromDay))
    ensures ParseDate(n.validUntil) == Some((untilYear, untilMonth, untilDay))
    ensures 0 <= hour < 100 && 0 <= minute < 100 ==> IsTimeShape(n.startTime)
    ensures 0 <= fromMonth < 100 && 0 <= fromDay < 100 ==> IsDateShape(n.validFrom, fromYear)
    ensures 0 <= untilMonth < 100 && 0 <= untilDay < 100 ==> IsDateShape(n.validUntil, untilYear)
    ensures IsTimeOf(n.startTime, hour, minute)
    ensures IsDateOf(n.validFrom, fromYear, fromMonth, fromDay)
    ensures IsDateOf(n.validUntil, untilYear, untilMonth, untilDay)
  {
    TimeRoundTrip(hour, minute);
    DateRoundTrip(fromYear, fromMonth, fromDay);
    DateRoundTrip(untilYear, untilMonth, untilDay);
    Schedule(trainKey.ToString(), FormatTime(hour, minute),
             FormatDate(fromYear, fromMonth, fromDay), FormatDate(untilYear, untilMonth, untilDay))
  }

  /** `add_schedule`: at least two stops (checked first), a train key, and every
      consecutive pair of stops linked; then one schedule node is written with
      the key's string, the `HH:MM` start time and the `Y-MM-DD` validity bounds.
      Whether the train exists is never consulted, and the stops are not stored. */
  function AddSchedule(s: State, trainKey: Option<TraitsKey>, startingHours: int, startingMinutes: int,
                       stops: seq<Stop>, validFromDay: int, validFromMonth: int, validFromYear: int,
                       validUntilDay: int, validUntilMonth: int, validUntilYear: int)
    : (r: Result<State, Error>)
    ensures |stops| < 2 ==> r == Err(TooFewStops)
    ensures |stops| >= 2 && trainKey.None? ==> r == Err(InvalidTrainKey)
    ensures r.Ok? <==> |stops| >= 2 && trainKey.Some? && LinkedFrom(s, stops, 0)
    ensures r.Err? && |stops| >= 2 && trainKey.Some? ==>
      exists j :: FirstGap(s, stops, 0, j) && r.error == PairError(s, stops, j)
    ensures r.Ok? ==> r.value == s.(schedules := r.value.schedules)
    ensures r.Ok? ==> r.value.schedules == s.schedules + [ScheduleNode(
      trainKey.value, startingHours, startingMinutes, validFromDay, validFromMonth, validFromYear,
      validUntilDay, validUntilMonth, validUntilYear)]
  {
    if |stops| < 2 then Err(TooFewStops)
    else if trainKey.None? then Err(InvalidTrainKey)
    else
      match CheckStops(s, stops, 0)
      case Err(e) => Err(e)
      case Ok(_) =>
        Ok(s.(schedules := s.schedules + [ScheduleNode(
          trainKey.value, startingHours, startingMinutes, validFromDay, validFromMonth, validFromYear,
          validUntilDay, validUntilMonth, validUntilYear)]))
  }
}
