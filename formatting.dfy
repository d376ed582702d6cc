/** The texts of a reply: the spoken sentence about the top station, one
    card line per selected station, and the card body that joins them. */
module Formatting {
  import opened Decimal
  import opened Stations

  const SpokenPrefix: string := "There are "
  const StandsPhrase: string := " available bike stands at "
  const BikesPhrase: string := " available bikes at "

  /** The separator between card lines (a Markdown line break). */
  const LineBreak: string := "  \n"

  /** The sentence the assistant speaks about a station: it opens with
      "There are " and closes with the address and a full stop. */
  function StationSpoken(station: Station, kind: string): (r: string)
    ensures |r| > |SpokenPrefix| + |station.address|
    ensures r[..|SpokenPrefix|] == SpokenPrefix
    ensures r[|r| - |station.address| - 1..] == station.address + "."
  {
    if kind == StandsType then
      SpokenPrefix + IntToString(station.availableBikeStands) + StandsPhrase + station.address + "."
    else
      SpokenPrefix + IntToString(station.availableBikes) + BikesPhrase + station.address + "."
  }

  /** The counts of a station on one card line, the requested kind first;
      with includeAddress, preceded by the address in bold on a line of its own. */
  function StationText(station: Station, kind: string, includeAddress: bool): (r: string)
    ensures includeAddress <==> '\n' in r
    ensures includeAddress ==> |r| > 2 && r[..2] == "**"
    decreases if includeAddress then 1 else 0
  {
    NoNewlineInNumeral(IntToString(station.availableBikes));
    NoNewlineInNumeral(IntToString(station.availableBikeStands));
    if includeAddress then
      "**" + station.address + "**" + LineBreak + StationText(station, kind, false)
    else if kind == StandsType then
      "Stands: " + IntToString(station.availableBikeStands) + "  (bikes: " + IntToString(station.availableBikes) + ")"
    else
      "Bikes: " + IntToString(station.availableBikes) + "  (stands: " + IntToString(station.availableBikeStands) + ")"
  }

  /** parts.join(sep): it starts with the first part and ends with the last. */
  function Join(parts: seq<string>, sep: string): (r: string)
    ensures |parts| > 0 ==> |r| >= |parts[0]| && r[..|parts[0]|] == parts[0]
    ensures |parts| > 0 ==> |r| >= |parts[|parts| - 1]| && r[|r| - |parts[|parts| - 1]|..] == parts[|parts| - 1]
  {
    if |parts| == 0 then ""
    else if |parts| == 1 then parts[0]
    else parts[0] + sep + Join(parts[1..], sep)
  }

  /** selection.map((station, i) => stationText(station, kind, i > 0)). */
  function CardLines(selection: seq<Station>, kind: string): (lines: seq<string>)
    ensures |lines| == |selection|
  {
    seq(|selection|, i requires 0 <= i < |selection| => StationText(selection[i], kind, i > 0))
  }

  /** The text of the card: it starts with the top station's counts line
      and ends with the last station's line. */
  function CardBody(selection: seq<Station>, kind: string): (r: string)
    ensures selection != [] ==> var first := StationText(selection[0], kind, false);
      |r| >= |first| && r[..|first|] == first
    ensures selection != [] ==> var last := StationText(selection[|selection| - 1], kind, |selection| > 1);
      |r| >= |last| && r[|r| - |last|..] == last
  {
    Join(CardLines(selection, kind), LineBreak)
  }

  // ---- What a sentence tells the listener ----

  /** The spoken sentence starts with "There are ", names the relevant
      count, says "stands" exactly for the stands request, and ends with the
      address followed by a full stop. */
  lemma SpokenShape(station: Station, kind: string)
    ensures var r := StationSpoken(station, kind);
      var phrase := if kind == "stands" then " available bike stands at " else " available bikes at ";
      r == "There are " + IntToString(RelevantCount(station, kind)) + phrase + station.address + "."
  {
  }

  /** Two stations that give the same sentence for a request have the same
      address and the same relevant count: the sentence names both. */
  lemma SpokenDeterminesCountAndAddress(a: Station, b: Station, kind: string)
    requires StationSpoken(a, kind) == StationSpoken(b, kind)
    ensures RelevantCount(a, kind) == RelevantCount(b, kind)
    ensures a.address == b.address
  {
    var phrase := if kind == StandsType then StandsPhrase else BikesPhrase;
    TemplateUnique(SpokenPrefix, IntToString(RelevantCount(a, kind)), phrase, a.address, ".",
                   IntToString(RelevantCount(b, kind)), b.address);
    IntToStringInjective(RelevantCount(a, kind), RelevantCount(b, kind));
  }

  /** A text made of a fixed prefix, a rendered integer, a fixed middle that
      starts with a non-numeral, a variable part and a fixed end determines
      the integer and the variable part. */
  lemma TemplateUnique(p: string, d1: string, m: string, t1: string, e: string, d2: string, t2: string)
    requires AllNumerals(d1) && AllNumerals(d2)
    requires |m| > 0 && !IsNumeral(m[0])
    requires p + d1 + m + t1 + e == p + d2 + m + t2 + e
    ensures d1 == d2 && t1 == t2
  {
    var w1, w2 := p + d1 + m + t1 + e, p + d2 + m + t2 + e;
    var r1, r2 := m + t1 + e, m + t2 + e;
    assert w1 == p + (d1 + r1);
    assert w2 == p + (d2 + r2);
    assert d1 + r1 == w1[|p|..];
    assert d2 + r2 == w2[|p|..];
    NumeralPrefixUnique(d1, r1, d2, r2);
    assert t1 == r1[|m|..|r1| - |e|];
    assert t2 == r2[|m|..|r2| - |e|];
  }

  /** The sentence for a station with ten free stands at address "B". */
  lemma ExampleStandsSentence()
    ensures StationSpoken(Station("B", Position(0.0, 1.0), "OPEN", 0, 10), "stands")
      == "There are 10 available bike stands at B."
  {
    assert IntToString(10) == "10" by {
      assert NatToString(10) == NatToString(1) + [DigitChar(0)];
    }
  }

  // ---- What a card line tells the reader ----

  /** A counts line names both counts: equal lines mean equal counts. */
  lemma CountsLineDeterminesCounts(a: Station, b: Station, kind: string)
    requires StationText(a, kind, false) == StationText(b, kind, false)
    ensures a.availableBikes == b.availableBikes
    ensures a.availableBikeStands == b.availableBikeStands
  {
    var first := if kind == StandsType then "Stands: " else "Bikes: ";
    var second := if kind == StandsType then "  (bikes: " else "  (stands: ";
    var fa := RelevantCount(a, kind);
    var fb := RelevantCount(b, kind);
    var sa := if kind == StandsType then a.availableBikes else a.availableBikeStands;
    var sb := if kind == StandsType then b.availableBikes else b.availableBikeStands;
    TemplateUnique(first, IntToString(fa), second, IntToString(sa), ")", IntToString(fb), IntToString(sb));
    IntToStringInjective(fa, fb);
    IntToStringInjective(sa, sb);
  }

  /** A card line with the address names the address and both counts,
      whatever characters the address holds. */
  lemma AddressedLineDeterminesStation(a: Station, b: Station, kind: string)
    requires StationText(a, kind, true) == StationText(b, kind, true)
    ensures a.address == b.address
    ensures a.availableBikes == b.availableBikes
    ensures a.availableBikeStands == b.availableBikeStands
  {
    AddressedLineSplit(a, kind);
    AddressedLineSplit(b, kind);
    LastLineUnique(BoldLine(a.address), StationText(a, kind, false), BoldLine(b.address), StationText(b, kind, false));
    CountsLineDeterminesCounts(a, b, kind);
    BoldLineUnique(a.address, b.address);
  }

  /** The address in bold, followed by the two spaces of the line break. */
  function BoldLine(address: string): string {
    "**" + address + "**  "
  }

  lemma AddressedLineSplit(station: Station, kind: string)
    ensures StationText(station, kind, true) == BoldLine(station.address) + "\n" + StationText(station, kind, false)
    ensures '\n' !in StationText(station, kind, false)
  {
  }

  lemma BoldLineUnique(x: string, y: string)
    requires BoldLine(x) == BoldLine(y)
    ensures x == y
  {
    assert x == BoldLine(x)[2..|BoldLine(x)| - 4];
    assert y == BoldLine(y)[2..|BoldLine(y)| - 4];
  }

  lemma NoNewlineInNumeral(s: string)
    requires AllNumerals(s)
    ensures '\n' !in s
  {
    assert forall i :: 0 <= i < |s| ==> s[i] != '\n';
  }

  /** The length of the text after the last newline of w. */
  function LastLineLength(w: string): (n: nat)
    ensures n <= |w|
  {
    if w == [] || w[|w| - 1] == '\n' then 0 else 1 + LastLineLength(w[..|w| - 1])
  }

  lemma {:induction false} LastLineLengthOfConcat(x: string, y: string)
    requires '\n' !in y
    ensures LastLineLength(x + "\n" + y) == |y|
  {
    if y == [] {
      assert x + "\n" + y == x + "\n";
    } else {
      var w := x + "\n" + y;
      assert w[..|w| - 1] == x + "\n" + y[..|y| - 1];
      assert y[|y| - 1] in y;
      LastLineLengthOfConcat(x, y[..|y| - 1]);
    }
  }

  /** Two texts that end in a newline-free last line split at the same newline. */
  lemma LastLineUnique(x1: string, y1: string, x2: string, y2: string)
    requires '\n' !in y1 && '\n' !in y2
    requires x1 + "\n" + y1 == x2 + "\n" + y2
    ensures x1 == x2 && y1 == y2
  {
    var w := x1 + "\n" + y1;
    LastLineLengthOfConcat(x1, y1);
    LastLineLengthOfConcat(x2, y2);
    assert x1 == w[..|x1|] == x2;
    assert y1 == w[|x1| + 1..] == y2;
  }

  // ---- The card body ----

  /** A card for one station shows its counts only: the title carries the address. */
  lemma CardBodyOfOne(station: Station, kind: string)
    ensures CardBody([station], kind) == StationText(station, kind, false)
  {
  }

  /** Each further station adds a line break and its line with the address.
      With CardBodyOfOne this determines the body of every non-empty selection. */
  lemma CardBodyAppend(selection: seq<Station>, station: Station, kind: string)
    requires selection != []
    ensures CardBody(selection + [station], kind) == CardBody(selection, kind) + LineBreak + StationText(station, kind, true)
  {
    var lines := CardLines(selection, kind);
    assert CardLines(selection + [station], kind) == lines + [StationText(station, kind, true)];
    JoinAppend(lines, StationText(station, kind, true), LineBreak);
  }

  lemma {:induction false} JoinAppend(parts: seq<string>, last: string, sep: string)
    requires parts != []
    ensures Join(parts + [last], sep) == Join(parts, sep) + sep + last
    decreases |parts|
  {
    if |parts| > 1 {
      assert (parts + [last])[1..] == parts[1..] + [last];
      JoinAppend(parts[1..], last, sep);
    } else {
      assert parts + [last] == [parts[0], last];
    }
  }
}
