/** The identifier and enumeration types the booking backend imports from its
    interface module: an opaque key with a canonical string form, the closed set
    of train states stored as integers, and the sorting criteria of a search. */
module Keys {
  import opened Results
  import opened Format

  /** An opaque identifier for stations, trains and cross-store references;
      its canonical string form is the only thing the backend ever reads. */
  datatype TraitsKey = TraitsKey(value: string) {
    function ToString(): string {
      value
    }
  }

  /** The key the store hands back for an auto-generated integer row id. */
  function KeyOfId(id: int): (k: TraitsKey)
    ensures ParseInt(k.ToString()) == Some(id)
  {
    IntToStringRoundTrip(id);
    TraitsKey(IntToString(id))
  }

  /** The closed set of train states. */
  datatype TrainStatus = NotArrived | Arrived | InTransit | Delayed | Cancelled | Archived

  /** The integer a status is stored as (`train_status.value`). */
  function StatusToInt(st: TrainStatus): (r: int)
    ensures 1 <= r <= 6
  {
    match st
    case NotArrived => 1
    case Arrived => 2
    case InTransit => 3
    case Delayed => 4
    case Cancelled => 5
    case Archived => 6
  }

  /** `TrainStatus(n)`: decoding a stored integer, absent when no member has it. */
  function StatusFromInt(n: int): (r: Option<TrainStatus>)
    ensures r.Some? <==> 1 <= n <= 6
  {
    if n == 1 then Some(NotArrived)
    else if n == 2 then Some(Arrived)
    else if n == 3 then Some(InTransit)
    else if n == 4 then Some(Delayed)
    else if n == 5 then Some(Cancelled)
    else if n == 6 then Some(Archived)
    else None
  }

  /** Decoding inverts encoding ... */
  lemma StatusRoundTrip(st: TrainStatus)
    ensures StatusFromInt(StatusToInt(st)) == Some(st)
  {
  }

  /** ... and every integer that decodes is the encoding of what it decodes to. */
  lemma StatusDecodeIsEncoding(n: int)
    ensures StatusFromInt(n).Some? ==> StatusToInt(StatusFromInt(n).value) == n
  {
  }

  /** Distinct states are stored as distinct integers. */
  lemma StatusToIntInjective(a: TrainStatus, b: TrainStatus)
    ensures StatusToInt(a) == StatusToInt(b) ==> a == b
  {
  }

  /** How a search may be ordered; only the overall travel time is named by the
      backend, the other members of the enumeration are carried as an opaque code. */
  datatype SortingCriteria = OverallTravelTime | OtherCriterion(code: int)
}
