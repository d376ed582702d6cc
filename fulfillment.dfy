/** The reply to a station request: the spoken sentence about the top
    station and, on a device with a screen, a card listing the selection;
    and what the request handler makes of a failure. */
module Fulfillment {
  import opened Stations
  import opened Ranking
  import opened Selection
  import opened Formatting

  datatype Option<T> = None | Some(value: T)

  datatype Result<T, E> = Success(value: T) | Failure(error: E)

  /** The card shown on a screen: its title and its body text. The
      Directions button and its map link are not modelled. */
  datatype Card = Card(title: string, text: string)

  /** What the conversation is closed with: what is said, and the card if any. */
  datatype Reply = Reply(speech: string, card: Option<Card>)

  /** Why the request for the station list failed (network, HTTP status or
      body); the handler does not tell the causes apart. */
  datatype FetchError = RequestFailed

  /** Why finishWithStations throws: the selection was empty, so reading
      the top station's fields fails. */
  datatype Fault = NoTopStation

  // Both apologies are written as a short first word plus the rest, which
  // lets the verifier see their first character.

  /** What the handler adds when anything in the station chain fails. */
  const UnavailableMessage: string := "Sorry, " + "the service seem unavailable right now."

  /** What the handler says when it has no coordinates to search from. */
  const NotFoundMessage: string := "Sorry, " + "I couldn't find any station."

  /** finishWithStations as written: select, take element 0 as the top
      station, speak about it, and on a screen add the card. With nothing
      selected the top station is undefined and the call throws. */
  function FinishWithStations(stations: seq<Station>, kind: string, screen: bool): (r: Result<Reply, Fault>)
    ensures r.Failure? <==> forall j :: 0 <= j < |stations| ==> !IsSuggested(stations[j], kind)
    ensures r.Success? <==> Select(stations, kind) != []
    ensures r.Success? ==>
      && r.value.speech == StationSpoken(TopStation(stations, kind), kind)
      && (r.value.card.Some? <==> screen)
      && (screen ==> r.value.card.value == Card(TopStation(stations, kind).address, CardBody(Select(stations, kind), kind)))
  {
    SelectionNonEmptyIff(stations, kind);
    var selection := Select(stations, kind);
    if selection == [] then Failure(NoTopStation)
    else
      var top := selection[0];
      Success(Reply(StationSpoken(top, kind), if screen then Some(Card(top.address, CardBody(selection, kind))) else None))
  }

  /** No station sentence reads like either apology. */
  lemma SpokenIsNoApology(station: Station, kind: string)
    ensures StationSpoken(station, kind) != UnavailableMessage
    ensures StationSpoken(station, kind) != NotFoundMessage
  {
    assert StationSpoken(station, kind)[0] == 'T';
  }

  /** getStationsForCoords(...).then(finishWithStations).catch(add the
      apology), given the outcome of the request for the ranked station list. */
  function ReplyAfterFetch(fetched: Result<seq<Station>, FetchError>, kind: string, screen: bool): (r: Reply)
    ensures r == Reply(UnavailableMessage, None) <==>
      fetched.Failure? || forall j :: 0 <= j < |fetched.value| ==> !IsSuggested(fetched.value[j], kind)
    ensures fetched.Success? && FinishWithStations(fetched.value, kind, screen).Success? ==>
      r == FinishWithStations(fetched.value, kind, screen).value
  {
    match fetched
    case Failure(_) => Reply(UnavailableMessage, None)
    case Success(stations) =>
      match FinishWithStations(stations, kind, screen)
      case Failure(_) => Reply(UnavailableMessage, None)
      case Success(reply) => SpokenIsNoApology(TopStation(stations, kind), kind); reply
  }

  /** As written, a station list in which nothing is suggested is
      answered exactly as a failed request is: the user is told the service
      is unavailable although it answered. */
  lemma EmptySelectionReportedAsUnavailable(stations: seq<Station>, kind: string, screen: bool)
    requires forall j :: 0 <= j < |stations| ==> !IsSuggested(stations[j], kind)
    ensures ReplyAfterFetch(Success(stations), kind, screen) == ReplyAfterFetch(Failure(RequestFailed), kind, screen)
  {
  }

  /** One closed station in an otherwise empty answer is enough. */
  lemma ClosedStationReportedAsUnavailable()
    ensures var closed := Station("Brunnsparken", Position(57.7, 11.97), "CLOSED", 10, 10);
      ReplyAfterFetch(Success([closed]), "bikes", true).speech == UnavailableMessage
  {
    var closed := Station("Brunnsparken", Position(57.7, 11.97), "CLOSED", 10, 10);
    assert !IsSuggested([closed][0], "bikes");
  }

  /** finishWithStations with the empty selection handled: the same reply
      whenever a station is selected, and the "no station" apology otherwise. */
  function FinishCorrected(stations: seq<Station>, kind: string, screen: bool): (r: Reply)
    ensures r == Reply(NotFoundMessage, None) <==> forall j :: 0 <= j < |stations| ==> !IsSuggested(stations[j], kind)
    ensures (exists j :: 0 <= j < |stations| && IsSuggested(stations[j], kind)) ==> FinishWithStations(stations, kind, screen) == Success(r)
  {
    match FinishWithStations(stations, kind, screen)
    case Failure(_) => Reply(NotFoundMessage, None)
    case Success(reply) => SpokenIsNoApology(TopStation(stations, kind), kind); reply
  }

  /** The request chain with FinishCorrected: the service is called
      unavailable exactly when the request failed, and "no station" is said
      exactly when the list came back with nothing to suggest. */
  function ReplyAfterFetchCorrected(fetched: Result<seq<Station>, FetchError>, kind: string, screen: bool): (r: Reply)
    ensures r.speech == UnavailableMessage <==> fetched.Failure?
    ensures r.speech == NotFoundMessage <==>
      fetched.Success? && forall j :: 0 <= j < |fetched.value| ==> !IsSuggested(fetched.value[j], kind)
    ensures fetched.Failure? ==> r == Reply(UnavailableMessage, None)
    ensures fetched.Success? ==> r == FinishCorrected(fetched.value, kind, screen)
  {
    match fetched
    case Failure(_) => Reply(UnavailableMessage, None)
    case Success(stations) =>
      SelectionNonEmptyIff(stations, kind);
      if Select(stations, kind) != [] then SpokenIsNoApology(TopStation(stations, kind), kind); FinishCorrected(stations, kind, screen)
      else FinishCorrected(stations, kind, screen)
  }

  /** The worked example: a bikes request is answered about A, a stands
      request about B and its ten free stands. */
  lemma ExampleReplies()
    ensures var a := Station("A", Position(0.0, 0.0), "OPEN", 5, 1);
      var b := Station("B", Position(0.0, 1.0), "OPEN", 0, 10);
      && FinishWithStations([a, b], "bikes", false) == Success(Reply(StationSpoken(a, "bikes"), None))
      && FinishWithStations([a, b], "stands", false) == Success(Reply("There are 10 available bike stands at B.", None))
  {
    ExampleSelection();
    ExampleStandsSentence();
  }

  /** The station chain without its I/O: rank the fetched array in place,
      then finish with it. When a reply is produced, it speaks of the
      nearest suggested station. */
  method RankAndFinish(stations: array<Station>, origin: Coordinate, distance: DistanceFunction, kind: string, screen: bool)
    returns (r: Result<Reply, Fault>)
    modifies stations
    ensures multiset(stations[..]) == old(multiset(stations[..]))
    ensures SortedByDistance(stations[..], distance, origin)
    ensures r == FinishWithStations(stations[..], kind, screen)
    ensures r.Failure? <==> forall s :: s in old(stations[..]) ==> !IsSuggested(s, kind)
    ensures r.Success? ==>
      var top := TopStation(stations[..], kind);
      && r.value.speech == StationSpoken(top, kind)
      && forall s :: s in old(stations[..]) && IsSuggested(s, kind) ==>
        DistanceFrom(distance, origin, top) <= DistanceFrom(distance, origin, s)
  {
    var ranked := StationsSortedByDistance(stations, origin, distance);
    r := FinishWithStations(ranked[..], kind, screen);
    ghost var now := stations[..];
    assert forall s :: s in old(stations[..]) <==> s in now by {
      forall s ensures s in old(stations[..]) <==> s in now {
        assert s in old(stations[..]) <==> s in multiset(old(stations[..]));
        assert s in now <==> s in multiset(now);
      }
    }
    if r.Success? {
      TopIsNearest(now, kind, distance, origin);
    }
  }
}
