/** Station records as the provider returns them, and the rule that
    decides whether a station is worth suggesting. */
module Stations {

  /** A station's coordinates (position.lat, position.lng), in degrees. */
  datatype Position = Position(lat: real, lng: real)

  /** One station record. The status is the provider's string; the two
      counts are the provider's integers. */
  datatype Station = Station(
    address: string,
    position: Position,
    status: string,
    availableBikes: int,
    availableBikeStands: int)

  /** The status string of a station that is in service. */
  const StationOpen: string := "OPEN"

  /** The least count of bikes (or stands) that makes a station worth suggesting. */
  const MinEntityCount: int := 3

  /** The request type that asks for free stands; every other value asks for bikes. */
  const StandsType: string := "stands"

  predicate IsOpen(station: Station) {
    station.status == StationOpen
  }

  predicate HasBikes(station: Station) {
    station.availableBikes >= MinEntityCount
  }

  predicate HasStands(station: Station) {
    station.availableBikeStands >= MinEntityCount
  }

  predicate IsSuggested(station: Station, kind: string) {
    (if kind == StandsType then HasStands(station) else HasBikes(station)) && IsOpen(station)
  }

  /** The count a request of the given type is about. */
  function RelevantCount(station: Station, kind: string): int {
    if kind == StandsType then station.availableBikeStands else station.availableBikes
  }

  /** A station is suggested exactly when it is open and its relevant
      count is at least three; "stands" selects the stand count, any other
      type string the bike count. */
  lemma SuggestedIff(station: Station, kind: string)
    ensures IsSuggested(station, kind) <==> station.status == "OPEN" && RelevantCount(station, kind) >= 3
    ensures kind == "stands" ==> RelevantCount(station, kind) == station.availableBikeStands
    ensures kind != "stands" ==> RelevantCount(station, kind) == station.availableBikes
  {
  }

  /** The threshold is inclusive: two is too few, three is enough. */
  lemma SuggestedThreshold(station: Station, kind: string)
    requires station.status == "OPEN"
    ensures RelevantCount(station, kind) == 2 ==> !IsSuggested(station, kind)
    ensures RelevantCount(station, kind) == 3 ==> IsSuggested(station, kind)
  {
  }

  /** A station that is not open is never suggested, whatever its counts. */
  lemma ClosedNeverSuggested(station: Station, kind: string)
    requires station.status != "OPEN"
    ensures !IsSuggested(station, kind)
  {
  }

  /** The count a request is not about plays no part in the decision. */
  lemma SuggestedIgnoresOtherCount(a: Station, b: Station, kind: string)
    requires a.status == b.status
    requires RelevantCount(a, kind) == RelevantCount(b, kind)
    ensures IsSuggested(a, kind) == IsSuggested(b, kind)
  {
  }
}
