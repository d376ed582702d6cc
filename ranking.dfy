/** Ranking of stations by their distance from the user. The great-circle
    distance itself is a parameter: any function of the two coordinate
    pairs (latitude and longitude of the origin, then of the station). */
module Ranking {
  import opened Stations

  /** The user's location (latitude, longitude), in degrees. */
  datatype Coordinate = Coordinate(latitude: real, longitude: real)

  /** distance(lat1, lon1, lat2, lon2). */
  type DistanceFunction = (real, real, real, real) -> real

  /** The distance from the origin to a station, as the sort comparator computes it. */
  function DistanceFrom(distance: DistanceFunction, origin: Coordinate, station: Station): real {
    distance(origin.latitude, origin.longitude, station.position.lat, station.position.lng)
  }

  /** Stations in non-decreasing order of distance from the origin. */
  predicate SortedByDistance(stations: seq<Station>, distance: DistanceFunction, origin: Coordinate) {
    forall i, j :: 0 <= i < j < |stations| ==>
      DistanceFrom(distance, origin, stations[i]) <= DistanceFrom(distance, origin, stations[j])
  }

  /** Sorts the caller's array in place, nearest station first, and hands
      back that same array. The order of equidistant stations is not
      specified. */
  method StationsSortedByDistance(stations: array<Station>, origin: Coordinate, distance: DistanceFunction)
    returns (sorted: array<Station>)
    modifies stations
    ensures sorted == stations
    ensures multiset(stations[..]) == old(multiset(stations[..]))
    ensures SortedByDistance(stations[..], distance, origin)
  {
    var n := stations.Length;
    if n > 1 {
      var i := 1;
      while i < n
        invariant 1 <= i <= n
        invariant multiset(stations[..]) == old(multiset(stations[..]))
        invariant SortedByDistance(stations[..i], distance, origin)
      {
        InsertLast(stations, i, origin, distance);
        i := i + 1;
      }
      assert stations[..n] == stations[..];
    }
    sorted := stations;
  }

  /** One step of the insertion sort: the first i stations are in order;
      move station i down until the first i + 1 are in order. */
  method InsertLast(stations: array<Station>, i: nat, origin: Coordinate, distance: DistanceFunction)
    requires i < stations.Length
    requires SortedByDistance(stations[..i], distance, origin)
    modifies stations
    ensures multiset(stations[..]) == old(multiset(stations[..]))
    ensures SortedByDistance(stations[..i + 1], distance, origin)
    ensures forall k :: i < k < stations.Length ==> stations[k] == old(stations[k])
  {
    var j := i;
    while j > 0 && DistanceFrom(distance, origin, stations[j - 1]) > DistanceFrom(distance, origin, stations[j])
      invariant 0 <= j <= i
      invariant multiset(stations[..]) == old(multiset(stations[..]))
      invariant forall k :: i < k < stations.Length ==> stations[k] == old(stations[k])
      invariant forall p, q :: 0 <= p < q <= i && p != j && q != j ==>
        DistanceFrom(distance, origin, stations[p]) <= DistanceFrom(distance, origin, stations[q])
      invariant forall p, q :: 0 <= p < j < q <= i ==>
        DistanceFrom(distance, origin, stations[p]) <= DistanceFrom(distance, origin, stations[q])
      invariant forall q :: j < q <= i ==>
        DistanceFrom(distance, origin, stations[j]) <= DistanceFrom(distance, origin, stations[q])
    {
      Swap(stations, j - 1, j);
      j := j - 1;
    }
  }

  /** Exchanges two neighbouring stations. */
  method Swap(stations: array<Station>, i: nat, j: nat)
    requires i < j < stations.Length
    modifies stations
    ensures stations[i] == old(stations[j]) && stations[j] == old(stations[i])
    ensures forall k :: 0 <= k < stations.Length && k != i && k != j ==> stations[k] == old(stations[k])
    ensures multiset(stations[..]) == old(multiset(stations[..]))
  {
    stations[i], stations[j] := stations[j], stations[i];
  }
}
