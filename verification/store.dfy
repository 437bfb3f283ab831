/** The abstract state that replaces the backend's two stores: the relational
    tables (stations, connections, trains, users, tickets, purchase history,
    with their AUTO_INCREMENT counters) and the graph store's schedule nodes. */
module Store {
  import opened Results
  import opened Format
  import opened Keys

  /** A row of `connections`: a directed edge between two station keys. */
  datatype Connection = Connection(id: nat, start: string, end: string, travelTime: int)

  /** A row of `trains`; the status column holds the status's integer value. */
  datatype Train = Train(capacity: int, status: int)

  /** A row of `users`, indexed by its unique email. */
  datatype User = User(id: nat, details: string)

  /** A row of `tickets`. */
  datatype Ticket = Ticket(userId: nat, connectionId: int, reserved: bool)

  /** A row of `purchase_history`; the travel date is a nullable timestamp. */
  datatype PurchaseEntry = PurchaseEntry(userEmail: string, travelDate: Option<int>, details: string)

  /** A `Schedule` node of the graph store: only strings, no stop list. */
  datatype Schedule = Schedule(trainKey: string, startTime: string, validFrom: string, validUntil: string)

  datatype State = State(
    stations: map<string, string>,
    connections: seq<Connection>,
    trains: map<string, Train>,
    users: map<string, User>,
    tickets: seq<Ticket>,
    purchases: seq<PurchaseEntry>,
    schedules: seq<Schedule>,
    nextConnectionId: nat,
    nextTrainId: nat,
    nextUserId: nat)

  /** Freshly created tables; AUTO_INCREMENT counters start at 1. */
  const Empty: State := State(map[], [], map[], map[], [], [], [], 1, 1, 1)

  /** Why an operation aborted. */
  datatype Error =
    | StationsMissing              // one or both stations do not exist (or they coincide)
    | InvalidLimit                 // the relational store rejects a negative LIMIT
    | UserMissing
    | InvalidEmail
    | UserExists
    | TrainExists
    | StationExists
    | TooFewStops
    | InvalidTrainKey
    | NotConnected(from: string, to: string)
    | UserReferenced               // a ticket's foreign key still points at the user
    | UnknownStatus(code: int)     // a stored status no member of the enumeration has
    | RowIndexedByName             // a tuple row subscripted with a column name

  /** Both endpoints of every connection are registered stations (the foreign keys
      of `connections`). */
  predicate ConnectionsReferenceStations(s: State) {
    forall i :: 0 <= i < |s.connections| ==>
      s.connections[i].start in s.stations && s.connections[i].end in s.stations
  }

  /** Connection ids are increasing in insertion order and below the counter. */
  predicate ConnectionIdsFresh(s: State) {
    && (forall i :: 0 <= i < |s.connections| ==> s.connections[i].id < s.nextConnectionId)
    && (forall i, j :: 0 <= i < j < |s.connections| ==> s.connections[i].id < s.connections[j].id)
  }

  /** User ids are distinct and below the counter. */
  predicate UserIdsFresh(s: State) {
    && (forall e :: e in s.users ==> s.users[e].id < s.nextUserId)
    && (forall e, f :: e in s.users && f in s.users && e != f ==> s.users[e].id != s.users[f].id)
  }

  predicate HasUserId(users: map<string, User>, id: nat) {
    exists e :: e in users && users[e].id == id
  }

  /** Every ticket belongs to an existing user (the foreign key of `tickets`). */
  predicate TicketsReferenceUsers(s: State) {
    forall i :: 0 <= i < |s.tickets| ==> HasUserId(s.users, s.tickets[i].userId)
  }

  /** Every stored status decodes to a member of the enumeration. */
  predicate StatusesDecode(s: State) {
    forall k :: k in s.trains ==> StatusFromInt(s.trains[k].status).Some?
  }

  /** Every numeric train key lies below the AUTO_INCREMENT counter. */
  predicate TrainIdsBelowCounter(s: State) {
    forall k :: k in s.trains && IsNumeral(k) ==> NumeralValue(k) < s.nextTrainId
  }

  /** The integrity the operations maintain. */
  predicate Valid(s: State) {
    && ConnectionsReferenceStations(s)
    && ConnectionIdsFresh(s)
    && UserIdsFresh(s)
    && TicketsReferenceUsers(s)
    && StatusesDecode(s)
    && TrainIdsBelowCounter(s)
  }

  lemma EmptyIsValid()
    ensures Valid(Empty)
  {
  }
}
