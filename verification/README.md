# Traits booking backend — a Dafny model

The `Traits` class of `traits/implementation.py` is the core of a rail booking
backend. It keeps stations, direct connections, trains, users, tickets and
purchase history in a relational store, and schedules in a graph store. Each
public method is a short check-then-write sequence written as SQL and Cypher
calls. This project replaces both stores with one immutable `Store.State`:

- maps for stations (key to details), trains (key to capacity and integer
  status) and users (email to id and details);
- sequences for connections, tickets, purchase-history rows and schedule nodes;
- the three AUTO_INCREMENT counters of `connections`, `trains` and `users`.

Each method becomes a pure function in module `Traits`. It returns either an
`Err` (the source raises, and nothing is written) or the new state with the
method's result. Read-only methods return only their result, so "the state does
not change" holds by construction.

Files and modules:

- `results.dfy` (`Results`): `Option` and `Result`.
- `format.dfy` (`Format`): Python's `str(int)` and `f"{x:02}"`; the `HH:MM`
  start time and the `Y-MM-DD` validity bounds; parsers proved to invert them.
- `keys.dfy` (`Keys`): the opaque `TraitsKey`, the closed `TrainStatus`
  enumeration with its integer encoding, and `SortingCriteria`.
- `store.dfy` (`Store`): rows, state, errors, and the integrity predicate
  `Valid`. `Valid` covers the foreign keys, unique ids, decodable statuses and
  the train-id counter.
- `search.dfy` (`Search`): the distinct-stations existence gate and
  `search_connections`.
- `traits.dfy` (`Traits`): every other modelled method of the class, including the
  schedule-validation loop.
- `integrity.dfy` (`Integrity`): every write keeps `Valid`.
- `properties.dfy` (`Properties`): laws that relate several operations.
- `scenarios.dfy` (`Scenarios`): worked scenarios proved on the model. A schedule over stations A, B
  and C is accepted, one from A straight to C is refused, and a search returns
  connections of 10, 20 and 5 minutes in the order 5, 10, 20.

How the SQL is read:

- `COUNT(*) ... WHERE id IN (a, b)` is the size of `{a, b}` intersected with the
  station keys. The gate `< 2` therefore also refuses `a == b`.
- `ORDER BY travel_time LIMIT n` is a sort by travel time that keeps the first
  `n` rows. SQL does not fix the order of rows with equal travel times. The
  contracts therefore state only sortedness, contents and the limit.
- `UPDATE`/`DELETE ... WHERE id = k` with no matching row changes nothing.
- The `tickets.user_id` foreign key has the default RESTRICT action. So
  `delete_user` is refused while a ticket still refers to the user.
- A key inserted explicitly into an AUTO_INCREMENT column moves the counter past
  it when it is numeric. A generated train key is the counter's decimal string.
  Under `Valid` it is never already taken.

Behaviour worth noting:

- `search_connections` always sorts ascending by travel time. It ignores the
  time filters, `sort_by` and `is_ascending`.
- `search_connections` also fails when start and end are the same station.
- `buy_ticket` does not check that the connection exists.
- `add_train` does not require a positive capacity.
- The errors do not all have the same origin. Most are `ValueError`s that the
  methods raise themselves. `UserReferenced` is the driver's integrity error:
  the `tickets.user_id` foreign key (line 58) refuses the `DELETE` of
  `delete_user` (line 166). `InvalidLimit` is the programming error MySQL raises
  for a negative `LIMIT` (lines 110-112). `UnknownStatus` is the `ValueError`
  of the enumeration's constructor (line 122). `RowIndexedByName` is the
  `TypeError` described under "Findings". The `Store.Error` constructors tell
  them apart by cause.
- `add_schedule` checks the number of stops before it checks for a missing train
  key.

## Model

| member | source | states |
|---|---|---|
| Format.NatToString | traits/implementation.py:280 | the decimal digits of a natural number in Python's form: a non-empty numeral with no leading zero (a single `0` for zero), of one digit below 10 and two digits below 100 |
| Format.CanonicalNumeralUnique | traits/implementation.py:280-282 | a numeral without a leading zero is exactly the one `NatToString` produces for its value, so the rendering is Python's only one |
| Format.LeadingDigitPositive | traits/implementation.py:280-282 | a numeral whose first digit is not `0` denotes a positive number |
| Format.NatToStringRoundTrip | traits/implementation.py:280 | reading the digits back yields the number |
| Format.IntToString | traits/implementation.py:281 | `str(year)`: the canonical numeral for a non-negative number, and for a negative one a minus sign followed by the canonical numeral of its magnitude, never `-0…`; it meets the independent description `IsDecimalOf` for every integer |
| Format.ParseInt | traits/implementation.py:281 | the reader accepts exactly the optionally signed numerals |
| Format.IntToStringRoundTrip | traits/implementation.py:281 | `str(i)` reads back as `i` for every integer, negative ones included |
| Format.Pad2 | traits/implementation.py:280-282 | `f"{x:02}"` reads back as `x` and is at least two characters long. For 0..9 it is `0` and the digit, for 10 and above the canonical numeral, for negative numbers the minus sign and the canonical magnitude; it meets the independent description `IsPaddedOf` for every integer |
| Format.FormatTime | traits/implementation.py:280 | for every hour and minute the start time is the padded hour, a colon and the padded minute (`IsTimeOf`); for hour and minute in 0..99 that is five characters, two digits, a colon and two digits |
| Format.DateShapeOf | traits/implementation.py:281-282 | the year's string followed by two two-digit numerals, each after a dash, has the `Y-MM-DD` shape |
| Format.DateSplits | traits/implementation.py:281-282 | a bound joined from three signed numerals splits back into them at its first two dashes after the sign |
| Format.FormatDate | traits/implementation.py:281-282 | for every year, month and day the bound is `str(year)`, a dash, the padded month, a dash and the padded day (`IsDateOf`); for month and day in 0..99 that is `str(year)` followed by `-MM-DD` |
| Format.DecimalOfUnique | traits/implementation.py:281-282 | every string that is `str(x)` by the independent description is `IntToString(x)` |
| Format.PaddedOfUnique | traits/implementation.py:280-282 | every string that is `f"{x:02}"` by the independent description is `Pad2(x)` |
| Format.SplitOnceJoins | traits/implementation.py:280-282 | a string split at a separator is its two parts around that separator |
| Format.TimeOfUnique | traits/implementation.py:280 | every string in the form `f"{h:02}:{m:02}"` prints is `FormatTime(h, m)`, for all integers |
| Format.DateOfParts | traits/implementation.py:281-282 | a string in the form `f"{y}-{m:02}-{d:02}"` prints is `str(y)`, the padded month and the padded day joined by dashes |
| Format.DateOfUnique | traits/implementation.py:281-282 | every string in the form `f"{y}-{m:02}-{d:02}"` prints is `FormatDate(y, m, d)`, for all integers |
| Format.TimeRoundTrip | traits/implementation.py:280 | splitting the start time at its colon recovers the hour and minute, for all integers |
| Format.DateRoundTrip | traits/implementation.py:281-282 | splitting a validity bound at its separators recovers year, month and day, for all integers |
| Keys.KeyOfId | traits/implementation.py:191-192 | the key made from a generated row id reads back as that id |
| Keys.StatusFromInt | traits/implementation.py:122 | `TrainStatus(n)` succeeds exactly for the integers the enumeration uses |
| Keys.StatusRoundTrip | traits/implementation.py:181 | decoding the stored `train_status.value` gives back the status |
| Keys.StatusDecodeIsEncoding | traits/implementation.py:122 | every integer that decodes is the encoding of its decoded status |
| Keys.StatusToInt | traits/implementation.py:181 | `train_status.value` is one of the codes 1 to 6 of the encoding assumed under "Left out" |
| Keys.StatusToIntInjective | traits/implementation.py:207 | distinct statuses are stored as distinct integers |
| Store.EmptyIsValid | traits/implementation.py:26-59 | freshly created tables meet the key and foreign-key integrity |
| Search.PairIntersectionSize | traits/implementation.py:97-104 | the registered keys among `a` and `b` number at most 2, and exactly 2 when both stations exist and differ |
| Search.ExistingCount | traits/implementation.py:98-101 | `SELECT COUNT(*) FROM stations WHERE id IN (a, b)` is at most 2, and is 2 exactly when both stations exist and differ, so the gate also refuses `a == b`; `connect_train_stations` runs the same count at lines 236-239 |
| Search.Matches | traits/implementation.py:107-108 | the `WHERE start_station = a AND end_station = b` rows: each matching row as often as stored, no other row |
| Search.MatchesNonEmpty | traits/implementation.py:107-108 | some row matches exactly when a direct connection from a to b is registered |
| Search.Insert | traits/implementation.py:109 | inserting into a sorted sequence keeps it sorted and adds exactly that row |
| Search.SortByTravelTime | traits/implementation.py:109 | `ORDER BY travel_time` is a sorted permutation of the rows |
| Search.SortedPrefixIsFastest | traits/implementation.py:109-110 | the rows a sorted prefix leaves out are no faster than any row it keeps |
| Search.FastestFirst | traits/implementation.py:109-110 | `ORDER BY ... LIMIT n` gives min(n, rows) rows: sorted, drawn from the input, none left out faster than one kept |
| Search.SearchConnections | traits/implementation.py:90-115 | fails with StationsMissing unless both stations exist and differ; fails with InvalidLimit for a negative `limit` between valid stations; otherwise returns only a-to-b connections, sorted, exactly min(`limit`, matches) of them, with no matching connection left out that is faster than one returned |
| Traits.GetTrainCurrentStatus | traits/implementation.py:117-122 | absent exactly for an unknown key; for a registered train the status whose encoding is the stored integer, failing exactly when that integer decodes to nothing, with `UnknownStatus` of that integer |
| Traits.BuyTicket | traits/implementation.py:124-137 | fails exactly when no user has the email; otherwise appends one ticket with that user's id, the connection id and the flag, and changes nothing else |
| Traits.EntriesOf | traits/implementation.py:141-146 | filtering keeps each row of the email as often as stored and no other row |
| Traits.GetPurchaseHistory | traits/implementation.py:139-147 | returns only rows of that email, each as often as it is stored |
| Traits.AddUser | traits/implementation.py:149-161 | an email without `@` is refused first, then a duplicate; otherwise exactly one user is added and every other user and table is unchanged |
| Traits.DeleteUser | traits/implementation.py:163-167 | an unknown email changes nothing; a user some ticket refers to cannot be deleted (foreign key of `tickets`, lines 53-59); otherwise only that user is removed |
| Traits.BumpCounter | traits/implementation.py:177-181 | after an explicit numeric key the AUTO_INCREMENT counter never decreases and lies above that key |
| Traits.AddTrain | traits/implementation.py:169-194 | a given key that exists is refused; otherwise one row under a key not present before is inserted and the key is returned; with no key, the insert succeeds on tables whose counter is above every numeric key (the counter is unbounded here; see the INT ceiling under "Left out") |
| Traits.UpdateTrainDetails | traits/implementation.py:196-213 | with no field supplied, or no such train, nothing changes; otherwise only the supplied fields of that one row change |
| Traits.DeleteTrain | traits/implementation.py:215-219 | removes only that row, and schedules and all other tables are untouched |
| Traits.AddTrainStation | traits/implementation.py:221-231 | a duplicate key is refused; otherwise exactly that station is added and its key is returned |
| Traits.ConnectTrainStations | traits/implementation.py:233-250 | fails with nothing written unless both stations exist and differ; otherwise appends exactly one connection (start, end, travel time) under a new id and changes nothing else |
| Traits.CheckPair | traits/implementation.py:268-273 | one validation step succeeds exactly when both stops exist, differ and are joined by a direct connection, and otherwise reports that pair |
| Traits.CheckStops | traits/implementation.py:267-273 | the validation loop succeeds exactly when every consecutive pair is linked; otherwise it reports the first unlinked pair |
| Traits.LinkedFromStep | traits/implementation.py:267 | all pairs from i are linked exactly when pair i is linked and all pairs from i + 1 are linked |
| Traits.FirstGapStep | traits/implementation.py:267-273 | the first gap after a linked pair is also the first gap counting from that pair |
| Traits.AddSchedule | traits/implementation.py:256-283 | fewer than two stops are refused first, then a missing train key; it succeeds exactly when every consecutive pair of stops is linked, and otherwise reports the first gap with no write; on success it appends one node with the key string, `HH:MM` and the two `Y-MM-DD` bounds |
| Integrity.BuyTicketKeepsValid | traits/implementation.py:124-137 | a new ticket refers to an existing user |
| Integrity.AddUserKeepsValid | traits/implementation.py:149-161 | a new user gets an id no registered user holds, and integrity is kept |
| Integrity.DeleteUserKeepsValid | traits/implementation.py:163-167 | after a permitted delete, every ticket still refers to an existing user |
| Integrity.AddTrainKeepsValid | traits/implementation.py:169-194 | inserted statuses decode, and the counter stays above every numeric train key |
| Integrity.UpdateTrainDetailsKeepsValid | traits/implementation.py:196-213 | an updated status still decodes |
| Integrity.DeleteTrainKeepsValid | traits/implementation.py:215-219 | deleting a train keeps integrity |
| Integrity.AddTrainStationKeepsValid | traits/implementation.py:221-231 | adding a station keeps integrity |
| Integrity.ConnectTrainStationsKeepsValid | traits/implementation.py:233-250 | a new connection joins registered stations, and its id is above every existing id |
| Integrity.AddScheduleKeepsValid | traits/implementation.py:256-283 | writing a schedule keeps integrity |
| Integrity.StatusReadNeverFails | traits/implementation.py:117-122 | on valid tables a status read never fails to decode |
| Integrity.GeneratedTrainKeyIsFresh | traits/implementation.py:182-192 | on valid tables a train added without a key is inserted under a key that was not present (with an unbounded counter; see the INT ceiling under "Left out") |
| Properties.SearchIgnoresFilters | traits/implementation.py:90-115 | the day/month/year/hour/minute filters, `is_departure_time`, `sort_by` and `is_ascending` never change the result |
| Properties.SearchFindsIffDirect | traits/implementation.py:97-115 | with a positive limit, a search returns rows exactly when the pair is linked |
| Properties.ConnectThenSearch | traits/implementation.py:233-250 | after a connection is added, a search between its stations succeeds, and its first row is at least as fast as the new connection |
| Properties.AddTrainThenStatus | traits/implementation.py:169-194 | a train just added reads back with its status |
| Properties.AddTrainTwiceFails | traits/implementation.py:171-175 | the same key cannot be added twice |
| Properties.UpdateThenStatus | traits/implementation.py:205-212 | after an update that supplies a status, the train reads back with that status |
| Properties.UpdateIdempotent | traits/implementation.py:196-213 | repeating an update changes nothing more |
| Properties.DeleteTrainThenStatus | traits/implementation.py:215-219 | a deleted train reads as absent, and its schedules remain |
| Properties.AddStationTwiceFails | traits/implementation.py:223-226 | the same station key cannot be registered twice |
| Traits.BuyTicketAsWritten | traits/implementation.py:124-136 | the method as written: an unknown buyer is refused, and every registered buyer aborts on the `'id'` subscript of a tuple row, so no ticket is ever written |
| Properties.BuyTicketAsWrittenRefusesEveryBuyer | traits/implementation.py:124-136 | the written and the intended `buy_ticket` agree on unknown buyers and differ exactly on registered ones |
| Properties.RegisteredBuyerRefusedAsWritten | traits/implementation.py:124-161 | after `add_user("a@b", "")` on empty tables the written method aborts while the intended one sells a ticket |
| Properties.AddUserThenBuy | traits/implementation.py:124-161 | a newly registered user can buy a ticket |
| Properties.BuyThenDeleteUserFails | traits/implementation.py:136-167 | a user who holds a ticket cannot be deleted |
| Properties.AddScheduleIgnoresTrains | traits/implementation.py:260-275 | whether a schedule is accepted does not depend on the trains table |
| Traits.ScheduleNode | traits/implementation.py:275-283 | the stored node carries the train key's string; its start time is exactly `f"{hour:02}:{minute:02}"` and its bounds exactly `f"{year}-{month:02}-{day:02}"` for all integers (`IsTimeOf`, `IsDateOf`), with `HH:MM` and `Y-MM-DD` shapes in 0..99; each reads back as the hour, minute, year, month and day given |
| Scenarios.Network | traits/implementation.py:221-250 | registering A, B, C and connecting A to B and B to C gives those three stations and those two connections |
| Scenarios.NetworkLinks | traits/implementation.py:106-115 | in that network a search from A to B and from B to C finds a connection |
| Scenarios.ScheduleScenarioAccepted | traits/implementation.py:256-283 | in any state whose stations are A, B, C and whose connections are A to B and B to C, a schedule over A, B, C is accepted |
| Scenarios.ScheduleScenarioRefused | traits/implementation.py:267-273 | a schedule from A straight to C is refused with the pair A, C named |
| Scenarios.SortThree | traits/implementation.py:106-115 | rows of 10, 20 and 5 minutes are ordered 5, 10, 20 |
| Scenarios.SearchScenario | traits/implementation.py:106-115 | connections of 10, 20 and 5 minutes come back in the order 5, 10, 20 |

## Findings

| source | as written | input that shows it | evidently intended | confidence | as-written member | corrected member |
|---|---|---|---|---|---|---|
| traits/implementation.py:125-136 | the user row comes from the default cursor, whose rows are tuples (only line 286 asks for `dictionary=True`, and lines 101, 122 and 239 index rows by position), and line 136 subscripts it with `'id'`, a `TypeError` | `add_user("a@b", "")` on empty tables, then `buy_ticket("a@b", …)` | the ticket row is written with the buyer's id | high; not executed | Traits.BuyTicketAsWritten, Properties.BuyTicketAsWrittenRefusesEveryBuyer, Properties.RegisteredBuyerRefusedAsWritten | Traits.BuyTicket, Properties.AddUserThenBuy |

## Left out

- `TraitsUtility` (lines 8-79): DDL and GRANT strings and bulk reads. Only the tables' keys and foreign keys are used, as the integrity predicate `Store.Valid`.
- `get_train` (lines 285-298): it passes the key object itself, not its string, to SQL, and indexes the graph driver like a document store, so no faithful behaviour can be stated.
- Cursors, sessions, commits, transactions and concurrent callers: each method is one atomic transition. The two stores share no transaction, so validation and the schedule write are not atomic in the source either. Replaying them as one step hides that gap.
- The `except mysql.connector.Error` path of `connect_train_stations` (lines 251-254): `mysql` is never imported, and the path only handles store failure.
- Store-level refusals other than those named above: VARCHAR length limits, a non-numeric key written to the INT `trains.id` column, and NULL details. The model keeps keys as opaque strings.
- Integer width: the INT columns (`users.id`, `trains.id`, `capacity`, `status`, `connections.id`, `travel_time`, `tickets.connection_id`; lines 27, 33-35, 44-47 and 54-56) hold 32-bit signed values, while the model uses unbounded `int` and `nat`. Under the default strict SQL mode the store refuses a value outside -2147483648..2147483647, such as `connect_train_stations(a, b, 2147483648)` or `update_train_details(k, 3000000000, None)`, and the model accepts it. An AUTO_INCREMENT counter cannot pass 2147483647 either. So after `add_train("2147483647", …)` a keyless `add_train` fails in the store, while the model returns the key `"2147483648"`. `Traits.AddTrain`, `Traits.AddUser`, `Traits.ConnectTrainStations` and `Integrity.GeneratedTrainKeyIsFresh` promise success only with this unbounded counter.
- Integrity.GeneratedTrainKeyIsFresh: the keyless insert is promised to succeed only because the model's counter never reaches the INT ceiling of 2147483647. In the store it fails once the counter is there.
- Traits.GetPurchaseHistory: does not model the `ORDER BY travel_date DESC` order over the nullable DATETIME column; the contract states only which rows are returned and how often.
- Search.SearchConnections: does not fix the order of rows with equal travel times, which SQL leaves open. A negative `limit`, which MySQL rejects, is modelled as the error `InvalidLimit`.
- Traits.BuyTicket: models the intended behaviour, reading the buyer's id from the user row. As written the method always aborts for a registered buyer (see "Findings"). The connection is given by its id. The source subscripts the `connection` argument with `'id'`, and a row from `search_connections` is a tuple too.
- Traits.AddTrain: train keys are compared as exact strings, while `trains.id` is an INT column (line 33) and MySQL compares the key after converting it to a number. So the model accepts `add_train` with key `"7"` and then with key `"07"`, which the source refuses as a duplicate (lines 172-175). An explicit key `"0"` is stored by the model as `"0"`, but AUTO_INCREMENT gives that row a fresh number. `get_train_current_status` with key `"7x"` reads row 7 in the source (the SELECT only warns about the truncated value) and finds no row in the model. Under the default strict SQL mode, `update_train_details` and `delete_train` with such a key are refused with an error instead, and the model treats them as a write to a missing row that changes nothing.
- Traits.AddTrainStation: station keys and user emails are VARCHAR columns and are compared as exact strings, while the default case-insensitive collation makes `"a"` and `"A"` the same station (lines 98, 223, 236) and the same email (lines 126, 154, 165). The model therefore accepts registrations that the source refuses as duplicates, and it finds no station or user where the source finds one that differs only in case or trailing spaces.
- Traits.AddTrain: when a generated key is already taken (impossible under `Valid`), the model reports `TrainExists`, as a duplicate primary key would be refused.
- Keys.StatusToInt: the enumeration's definition is not part of this model. It is modelled with six members (not arrived, arrived, in transit, delayed, cancelled, archived) encoded as 1 to 6. Only the fact that the encoding is a bijection is used.
- `SortingCriteria`: only `OVERALL_TRAVEL_TIME` is named. Any other member is an opaque code, and the search ignores the criterion anyway.
- Date and time ranges: the source performs no range checks, and the model adds none.
