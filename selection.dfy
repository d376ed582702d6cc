/** The choice of stations to present: keep the suggested stations of the
    ranked list, in rank order, and at most the first three of them. */
module Selection {
  import opened Stations
  import opened Ranking

  /** How many stations a reply lists at most. */
  const SelectionLimit: nat := 3

  /** stations.filter(station => isSuggested(station, kind)). */
  function Suggested(stations: seq<Station>, kind: string): (r: seq<Station>)
    ensures |r| <= |stations|
    ensures forall k :: 0 <= k < |r| ==> IsSuggested(r[k], kind)
    ensures multiset(r) <= multiset(stations)
  {
    if stations == [] then []
    else
      assert stations == [stations[0]] + stations[1..];
      (if IsSuggested(stations[0], kind) then [stations[0]] else []) + Suggested(stations[1..], kind)
  }

  /** The indices, from `from` on and in increasing order, of the suggested
      stations: an account of the filter independent of how it is computed. */
  function SuggestedPositions(stations: seq<Station>, kind: string, from: nat): (idx: seq<nat>)
    requires from <= |stations|
    ensures forall k :: 0 <= k < |idx| ==> from <= idx[k] < |stations| && IsSuggested(stations[idx[k]], kind)
    ensures forall k, l :: 0 <= k < l < |idx| ==> idx[k] < idx[l]
    ensures forall j :: from <= j < |stations| && IsSuggested(stations[j], kind) ==> j in idx
    decreases |stations| - from
  {
    if from == |stations| then []
    else if IsSuggested(stations[from], kind) then [from] + SuggestedPositions(stations, kind, from + 1)
    else SuggestedPositions(stations, kind, from + 1)
  }

  /** The stations at the given indices, in the order of the indices. */
  function Pick(stations: seq<Station>, idx: seq<nat>): (r: seq<Station>)
    requires forall k :: 0 <= k < |idx| ==> idx[k] < |stations|
    ensures |r| == |idx|
  {
    seq(|idx|, k requires 0 <= k < |idx| => stations[idx[k]])
  }

  lemma {:induction false} SuggestedPicksPositions(stations: seq<Station>, kind: string, from: nat)
    requires from <= |stations|
    ensures Suggested(stations[from..], kind) == Pick(stations, SuggestedPositions(stations, kind, from))
    decreases |stations| - from
  {
    if from < |stations| {
      var tail := stations[from..];
      assert tail[0] == stations[from];
      assert tail[1..] == stations[from + 1..];
      var rest := SuggestedPositions(stations, kind, from + 1);
      SuggestedPicksPositions(stations, kind, from + 1);
      assert Suggested(tail, kind) == (if IsSuggested(stations[from], kind) then [stations[from]] else []) + Pick(stations, rest);
      if IsSuggested(stations[from], kind) {
        PickCons(stations, from, rest);
      }
    } else {
      assert stations[from..] == [];
    }
  }

  lemma PickCons(stations: seq<Station>, i: nat, idx: seq<nat>)
    requires i < |stations|
    requires forall k :: 0 <= k < |idx| ==> idx[k] < |stations|
    ensures Pick(stations, [i] + idx) == [stations[i]] + Pick(stations, idx)
  {
    var l := Pick(stations, [i] + idx);
    var r := [stations[i]] + Pick(stations, idx);
    assert |l| == |r|;
    forall k | 0 <= k < |l| ensures l[k] == r[k] {
      if k > 0 {
        assert ([i] + idx)[k] == idx[k - 1];
      }
    }
  }

  /** The filter keeps exactly the suggested stations and never reorders
      them: it picks the stations at the suggested indices, in increasing
      order of index, and an index is among those exactly when its station
      is suggested. */
  lemma FilterKeepsSuggestedInOrder(stations: seq<Station>, kind: string)
    ensures Suggested(stations, kind) == Pick(stations, SuggestedPositions(stations, kind, 0))
    ensures forall j :: 0 <= j < |stations| ==> (j in SuggestedPositions(stations, kind, 0) <==> IsSuggested(stations[j], kind))
  {
    SuggestedPicksPositions(stations, kind, 0);
    assert stations[0..] == stations;
  }

  /** xs.slice(0, n): the first n elements, or all of them when there are fewer. */
  function Take(xs: seq<Station>, n: nat): (r: seq<Station>)
    ensures |r| == if |xs| < n then |xs| else n
    ensures r == xs[..|r|]
  {
    if |xs| <= n then xs else xs[..n]
  }

  /** The stations a reply presents: suggested ones only, at most three,
      the start of the filtered list, and all of it when it is shorter. */
  function Select(stations: seq<Station>, kind: string): (sel: seq<Station>)
    ensures |sel| <= SelectionLimit
    ensures forall k :: 0 <= k < |sel| ==> IsSuggested(sel[k], kind)
    ensures |sel| <= |Suggested(stations, kind)| && sel == Suggested(stations, kind)[..|sel|]
    ensures |sel| < SelectionLimit ==> sel == Suggested(stations, kind)
  {
    Take(Suggested(stations, kind), SelectionLimit)
  }

  /** The selection holds min(3, number of suggested stations) stations,
      every one of them suggested, and is the start of the suggested list. */
  lemma SelectionShape(stations: seq<Station>, kind: string)
    ensures var sel := Select(stations, kind);
      && |sel| == (if |Suggested(stations, kind)| < 3 then |Suggested(stations, kind)| else 3)
      && (forall k :: 0 <= k < |sel| ==> IsSuggested(sel[k], kind))
      && sel == Suggested(stations, kind)[..|sel|]
  {
  }

  /** The k-th selected station is the one at the k-th suggested index of
      the ranked input, so the selection keeps rank order. */
  lemma SelectionPositions(stations: seq<Station>, kind: string)
    ensures var idx := SuggestedPositions(stations, kind, 0);
      var sel := Select(stations, kind);
      |sel| <= |idx| && forall k :: 0 <= k < |sel| ==> sel[k] == stations[idx[k]]
  {
    FilterKeepsSuggestedInOrder(stations, kind);
  }

  /** Some station is selected exactly when some station is suggested. */
  lemma SelectionNonEmptyIff(stations: seq<Station>, kind: string)
    ensures Select(stations, kind) != [] <==> exists j :: 0 <= j < |stations| && IsSuggested(stations[j], kind)
  {
    FilterKeepsSuggestedInOrder(stations, kind);
    var idx := SuggestedPositions(stations, kind, 0);
    if Select(stations, kind) != [] {
      assert IsSuggested(stations[idx[0]], kind);
    }
  }

  /** stations[0] after the filter and slice. The source does not check
      that it exists, so callers must. */
  function TopStation(stations: seq<Station>, kind: string): (top: Station)
    requires Select(stations, kind) != []
    ensures top in stations && IsSuggested(top, kind)
  {
    FilterKeepsSuggestedInOrder(stations, kind);
    Select(stations, kind)[0]
  }

  /** The top station is the first suggested station in rank order. */
  lemma TopIsFirstSuggested(stations: seq<Station>, kind: string)
    requires Select(stations, kind) != []
    ensures var idx := SuggestedPositions(stations, kind, 0);
      && |idx| > 0
      && TopStation(stations, kind) == stations[idx[0]]
      && forall j :: 0 <= j < idx[0] ==> !IsSuggested(stations[j], kind)
  {
    FilterKeepsSuggestedInOrder(stations, kind);
    var idx := SuggestedPositions(stations, kind, 0);
    forall j | 0 <= j < |stations| && IsSuggested(stations[j], kind)
      ensures idx[0] <= j
    {
      assert j in idx;
    }
  }

  /** When the input is ranked by distance, so is the selection. */
  lemma SelectionSorted(stations: seq<Station>, kind: string, distance: DistanceFunction, origin: Coordinate)
    requires SortedByDistance(stations, distance, origin)
    ensures SortedByDistance(Select(stations, kind), distance, origin)
  {
    FilterKeepsSuggestedInOrder(stations, kind);
    SelectionPositions(stations, kind);
  }

  /** When the input is ranked by distance, no suggested station that the
      selection leaves out (the m-th suggested one, for m at or past the
      selection's length) is nearer than any selected station. */
  lemma SelectionIsNearest(stations: seq<Station>, kind: string, distance: DistanceFunction, origin: Coordinate)
    requires SortedByDistance(stations, distance, origin)
    ensures var sel := Select(stations, kind);
      var idx := SuggestedPositions(stations, kind, 0);
      forall k, m :: 0 <= k < |sel| <= m < |idx| ==>
        DistanceFrom(distance, origin, sel[k]) <= DistanceFrom(distance, origin, stations[idx[m]])
  {
    SelectionPositions(stations, kind);
  }

  /** The top station of a ranked list is the nearest suggested station. */
  lemma TopIsNearest(stations: seq<Station>, kind: string, distance: DistanceFunction, origin: Coordinate)
    requires SortedByDistance(stations, distance, origin)
    requires Select(stations, kind) != []
    ensures forall j :: 0 <= j < |stations| && IsSuggested(stations[j], kind) ==>
      DistanceFrom(distance, origin, TopStation(stations, kind)) <= DistanceFrom(distance, origin, stations[j])
  {
    TopIsFirstSuggested(stations, kind);
    FilterKeepsSuggestedInOrder(stations, kind);
    var idx := SuggestedPositions(stations, kind, 0);
    forall j | 0 <= j < |stations| && IsSuggested(stations[j], kind)
      ensures idx[0] <= j
    {
      assert j in idx;
    }
  }

  /** Two open stations, A with five bikes and one free stand, B with no
      bikes and ten free stands: a bikes request selects A alone, a stands
      request B alone. */
  lemma ExampleSelection()
    ensures var a := Station("A", Position(0.0, 0.0), "OPEN", 5, 1);
      var b := Station("B", Position(0.0, 1.0), "OPEN", 0, 10);
      && Select([a, b], "bikes") == [a]
      && Select([a, b], "stands") == [b]
  {
    var a := Station("A", Position(0.0, 0.0), "OPEN", 5, 1);
    var b := Station("B", Position(0.0, 1.0), "OPEN", 0, 10);
    assert [a, b][1..] == [b];
    assert [b][1..] == [];
  }
}
