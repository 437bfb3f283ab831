/** `search_connections`: the combined station-existence gate, then the direct
    connections between two stations ordered by travel time and cut at a limit. */
module Search {
  import opened Results
  import opened Keys
  import opened Store

  /** `COUNT(*) FROM stations WHERE id IN (a, b)`: how many distinct registered
      stations the two keys name. */
  function ExistingCount(stations: map<string, string>, a: string, b: string): (r: nat)
    ensures r <= 2
    ensures r == 2 <==> a != b && a in stations && b in stations
  {
    PairIntersectionSize(stations, a, b);
    |{a, b} * stations.Keys|
  }

  /** The keys `a` and `b` name at most two stations, and exactly two when both
      are registered and different. */
  lemma {:induction false} PairIntersectionSize(stations: map<string, string>, a: string, b: string)
    ensures |{a, b} * stations.Keys| <= 2
    ensures |{a, b} * stations.Keys| == 2 <==> a != b && a in stations && b in stations
  {
    var both := {a, b} * stations.Keys;
    if a == b {
      assert both <= {a};
      assert both == {} || both == {a};
    } else if a in stations && b in stations {
      assert both == {a, b};
    } else if a in stations {
      assert both == {a};
    } else if b in stations {
      assert both == {b};
    } else {
      assert both == {};
    }
  }

  /** The connections running from `a` to `b`, in insertion order. */
  function Matches(cs: seq<Connection>, a: string, b: string): (r: seq<Connection>)
    ensures forall c :: multiset(r)[c] == if c.start == a && c.end == b then multiset(cs)[c] else 0
    ensures multiset(r) <= multiset(cs)
    ensures |r| <= |cs|
  {
    if |cs| == 0 then []
    else
      var rest := Matches(cs[1..], a, b);
      assert cs == [cs[0]] + cs[1..];
      if cs[0].start == a && cs[0].end == b then [cs[0]] + rest else rest
  }

  /** Some registered connection runs directly from `a` to `b`. */
  predicate HasDirect(cs: seq<Connection>, a: string, b: string) {
    exists k :: 0 <= k < |cs| && cs[k].start == a && cs[k].end == b
  }

  lemma MatchesNonEmpty(cs: seq<Connection>, a: string, b: string)
    ensures |Matches(cs, a, b)| > 0 <==> HasDirect(cs, a, b)
  {
  }

  /** What the existence gate of a search or a connection demands. */
  predicate StationsDistinctAndRegistered(s: State, a: string, b: string) {
    a in s.stations && b in s.stations && a != b
  }

  /** Non-decreasing travel time. */
  predicate Sorted(cs: seq<Connection>) {
    forall i, j :: 0 <= i < j < |cs| ==> cs[i].travelTime <= cs[j].travelTime
  }

  /** Places `c` before the first connection of `cs` that is not faster. */
  function Insert(c: Connection, cs: seq<Connection>): (r: seq<Connection>)
    requires Sorted(cs)
    ensures Sorted(r)
    ensures multiset(r) == multiset(cs) + multiset{c}
    ensures |r| == |cs| + 1
    ensures r[0] == c || (|cs| > 0 && r[0] == cs[0])
  {
    if |cs| == 0 || c.travelTime <= cs[0].travelTime then [c] + cs
    else
      assert cs == [cs[0]] + cs[1..];
      var rest := Insert(c, cs[1..]);
      assert cs[0].travelTime <= rest[0].travelTime;
      [cs[0]] + rest
  }

  /** `ORDER BY travel_time`: a sorted rearrangement of the rows. */
  function SortByTravelTime(cs: seq<Connection>): (r: seq<Connection>)
    ensures Sorted(r)
    ensures multiset(r) == multiset(cs)
    ensures |r| == |cs|
  {
    if |cs| == 0 then []
    else
      assert cs == [cs[0]] + cs[1..];
      Insert(cs[0], SortByTravelTime(cs[1..]))
  }

  /** A prefix of a sorted sequence is sorted and drawn from it. */
  lemma SortedPrefix(sorted: seq<Connection>, k: nat)
    requires Sorted(sorted) && k <= |sorted|
    ensures Sorted(sorted[..k])
    ensures multiset(sorted[..k]) <= multiset(sorted)
  {
    assert sorted == sorted[..k] + sorted[k..];
  }

  /** The rows a sorted sequence leaves out after its first `k` are no faster
      than any row it keeps. */
  lemma {:induction false} SortedPrefixIsFastest(sorted: seq<Connection>, k: nat)
    requires Sorted(sorted) && k <= |sorted|
    ensures forall c, i :: c in multiset(sorted) - multiset(sorted[..k]) && 0 <= i < |sorted[..k]| ==>
      sorted[..k][i].travelTime <= c.travelTime
  {
    var rest := sorted[k..];
    assert sorted == sorted[..k] + rest;
    assert multiset(sorted) - multiset(sorted[..k]) == multiset(rest);
    forall c: Connection, i | c in multiset(rest) && 0 <= i < k
      ensures sorted[..k][i].travelTime <= c.travelTime
    {
      var j :| 0 <= j < |rest| && rest[j] == c;
      assert sorted[k + j] == c;
      assert sorted[..k][i] == sorted[i];
    }
  }

  /** The time-window filters `search_connections` accepts. */
  datatype TimeFilter = TimeFilter(
    day: Option<int>, month: Option<int>, year: Option<int>,
    hour: Option<int>, minute: Option<int>, isDepartureTime: bool)

  /** The defaults: no filter, departure time. */
  const NoFilter: TimeFilter := TimeFilter(None, None, None, None, None, true)

  const DefaultLimit: int := 5

  function Min(a: int, b: int): int {
    if a <= b then a else b
  }

  /** `ORDER BY travel_time LIMIT n`: the rows sorted by travel time, of which at
      most `n` are kept, none of those left out being faster than one kept. */
  function FastestFirst(cs: seq<Connection>, n: nat): (r: seq<Connection>)
    ensures Sorted(r)
    ensures multiset(r) <= multiset(cs)
    ensures |r| == Min(n, |cs|)
    ensures forall c, i :: c in multiset(cs) - multiset(r) && 0 <= i < |r| ==>
      r[i].travelTime <= c.travelTime
  {
    var sorted := SortByTravelTime(cs);
    var k := Min(n, |sorted|);
    SortedPrefix(sorted, k);
    SortedPrefixIsFastest(sorted, k);
    sorted[..k]
  }

  /** The first row of a sorted selection is at least as fast as any candidate
      it left out. */
  lemma FirstIsFastest(r: seq<Connection>, candidates: seq<Connection>, c: Connection)
    requires Sorted(r) && |r| > 0
    requires c in multiset(candidates)
    requires forall x, i :: x in multiset(candidates) - multiset(r) && 0 <= i < |r| ==>
      r[i].travelTime <= x.travelTime
    ensures r[0].travelTime <= c.travelTime
  {
  }

  /** Rows drawn from the matches run from `a` to `b` and are stored rows. */
  lemma DrawnFromMatches(r: seq<Connection>, cs: seq<Connection>, a: string, b: string)
    requires multiset(r) <= multiset(Matches(cs, a, b))
    ensures forall i :: 0 <= i < |r| ==> r[i].start == a && r[i].end == b
    ensures multiset(r) <= multiset(cs)
  {
    forall i | 0 <= i < |r|
      ensures r[i].start == a && r[i].end == b
    {
      assert r[i] in multiset(r);
    }
  }

  /** `search_connections`: fails unless both stations exist and are distinct,
      then returns the fastest `limit` direct connections from `start` to `end`.
      The filters, `sortBy` and `isAscending` are accepted and not consulted. */
  function SearchConnections(s: State, start: TraitsKey, end: TraitsKey, filter: TimeFilter,
                             sortBy: SortingCriteria, isAscending: bool, limit: int)
    : (r: Result<seq<Connection>, Error>)
    ensures !StationsDistinctAndRegistered(s, start.ToString(), end.ToString()) ==>
      r == Err(StationsMissing)
    ensures r.Err? <==> !StationsDistinctAndRegistered(s, start.ToString(), end.ToString()) || limit < 0
    ensures StationsDistinctAndRegistered(s, start.ToString(), end.ToString()) && limit < 0 ==>
      r == Err(InvalidLimit)
    ensures r.Ok? ==> forall i :: 0 <= i < |r.value| ==>
      r.value[i].start == start.ToString() && r.value[i].end == end.ToString()
    ensures r.Ok? ==> Sorted(r.value)
    ensures r.Ok? ==> multiset(r.value) <= multiset(s.connections)
    ensures r.Ok? ==> |r.value| == Min(limit, |Matches(s.connections, start.ToString(), end.ToString())|)
    ensures r.Ok? ==> forall c, i ::
      (c in multiset(Matches(s.connections, start.ToString(), end.ToString())) - multiset(r.value)
       && 0 <= i < |r.value|) ==> r.value[i].travelTime <= c.travelTime
  {
    var a, b := start.ToString(), end.ToString();
    if ExistingCount(s.stations, a, b) < 2 then Err(StationsMissing)
    else if limit < 0 then Err(InvalidLimit)
    else
      var r := FastestFirst(Matches(s.connections, a, b), limit);
      DrawnFromMatches(r, s.connections, a, b);
      Ok(r)
  }
}
