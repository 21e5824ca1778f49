/**
 * The depth legend: a header, then one entry per row of a depth table, each a
 * colour swatch followed by a label giving the row's depth range in km. The
 * HTML text is built by appending to a string, as the legend control's onAdd
 * callback appends to its div's innerHTML. The text modelled is what is
 * appended; the browser's parsing and re-serialisation of innerHTML on each
 * round is not part of the model.
 */
module Legend {
  import opened Wrappers
  import opened Decimal
  import Markers

  const Header: string := "<b>Depth Legend</b><br>"
  const Dash: string := "&ndash;"
  const BoundedTail: string := " km<br>"
  const OpenTail: string := "+ km"
  const SwatchOpen: string := "<i style=\"background:"
  const SwatchClose: string := "\"></i> "

  /** The table the legend callback declares: lower depths and the colour of each row. */
  const LegendDepths: seq<int> := [-10, 10, 30, 50, 70, 90]
  const LegendColors: seq<string> := ["#00ff00", "#80ff00", "#ffff00", "#ffbf00", "#ff8000", "#ff0000"]

  /** What a label says: an inclusive integer range, or a lower bound with no upper one. */
  datatype Range = Bounded(low: int, high: int) | OpenEnded(low: int)

  datatype Entry = Entry(color: string, text: string)

  /**
   * Whether row i has a next row, as the callback tests it: by the truthiness of
   * depths[i + 1], which is false past the end of the table (undefined) and
   * also when the next depth is 0.
   */
  predicate HasNext(depths: seq<int>, i: nat)
    requires i < |depths|
    ensures HasNext(depths, i) ==> i + 1 < |depths|
    ensures i + 1 == |depths| ==> !HasNext(depths, i)
  {
    i + 1 < |depths| && depths[i + 1] != 0
  }

  /** The range row i announces: up to one below the next row's depth, or open-ended. */
  function RangeOf(depths: seq<int>, i: nat): (r: Range)
    requires i < |depths|
    ensures r.low == depths[i]
    ensures r.Bounded? <==> HasNext(depths, i)
    ensures r.Bounded? ==> r.high + 1 == depths[i + 1]
  {
    if HasNext(depths, i) then Bounded(depths[i], depths[i + 1] - 1) else OpenEnded(depths[i])
  }

  function Label(r: Range): (s: string)
    ensures |IntToString(r.low)| < |s| && s[..|IntToString(r.low)|] == IntToString(r.low)
    ensures r.OpenEnded? ==> s[|IntToString(r.low)|..] == OpenTail
    ensures r.Bounded? ==> s[|IntToString(r.low)|..] == Dash + IntToString(r.high) + BoundedTail
  {
    match r
    case Bounded(low, high) => IntToString(low) + (Dash + IntToString(high) + BoundedTail)
    case OpenEnded(low) => IntToString(low) + OpenTail
  }

  /** Reads a label back into the range it states. */
  function ParseLabel(s: string): Option<Range> {
    match ReadInt(s)
    case None => None
    case Some((low, rest)) =>
      if rest == OpenTail then Some(OpenEnded(low))
      else if |rest| >= |Dash| && rest[..|Dash|] == Dash then
        match ReadInt(rest[|Dash|..])
        case Some((high, tail)) => if tail == BoundedTail then Some(Bounded(low, high)) else None
        case None => None
      else None
  }

  /** A label states its range unambiguously: reading it back gives the range it was built from. */
  lemma LabelRoundTrip(r: Range)
    ensures ParseLabel(Label(r)) == Some(r)
  {
    match r
    case Bounded(low, high) =>
      var rest := Dash + IntToString(high) + BoundedTail;
      assert Label(r) == IntToString(low) + rest;
      ReadIntRoundTrip(low, rest);
      assert rest[..|Dash|] == Dash;
      assert rest[|Dash|..] == IntToString(high) + BoundedTail;
      ReadIntRoundTrip(high, BoundedTail);
      assert rest != OpenTail by { assert rest[0] != OpenTail[0]; }
    case OpenEnded(low) =>
      ReadIntRoundTrip(low, OpenTail);
  }

  /** The colour swatch that opens each entry. */
  function Swatch(color: string): (s: string)
    ensures |s| == |SwatchOpen| + |color| + |SwatchClose|
    ensures s[..|SwatchOpen|] == SwatchOpen
    ensures s[|SwatchOpen|..|SwatchOpen| + |color|] == color
    ensures s[|SwatchOpen| + |color|..] == SwatchClose
  {
    SwatchOpen + color + SwatchClose
  }

  /** The text one round of the loop appends: the entry's swatch, then its label. */
  function EntryHtml(e: Entry): (s: string)
    ensures |s| == |SwatchOpen| + |e.color| + |SwatchClose| + |e.text|
    ensures s[..|SwatchOpen|] == SwatchOpen
    ensures s[|SwatchOpen|..|SwatchOpen| + |e.color|] == e.color
    ensures s[|s| - |e.text|..] == e.text
  {
    Swatch(e.color) + e.text
  }

  lemma LabelsReadBack(depths: seq<int>)
    ensures forall i :: 0 <= i < |depths| ==> ParseLabel(Label(RangeOf(depths, i))) == Some(RangeOf(depths, i))
  {
    forall i | 0 <= i < |depths|
      ensures ParseLabel(Label(RangeOf(depths, i))) == Some(RangeOf(depths, i))
    {
      LabelRoundTrip(RangeOf(depths, i));
    }
  }

  /** Entry i pairs colors[i] with the label of row i of the depth table. */
  function Entries(depths: seq<int>, colors: seq<string>): (es: seq<Entry>)
    requires |colors| == |depths|
    ensures |es| == |depths|
    ensures forall i :: 0 <= i < |es| ==> es[i].color == colors[i] && ParseLabel(es[i].text) == Some(RangeOf(depths, i))
  {
    LabelsReadBack(depths);
    seq(|depths|, i requires 0 <= i < |depths| => Entry(colors[i], Label(RangeOf(depths, i))))
  }

  /** The header once, then the entries in order. */
  function Render(entries: seq<Entry>): (s: string)
    ensures |Header| <= |s| && s[..|Header|] == Header
  {
    if entries == [] then Header
    else Render(entries[..|entries| - 1]) + EntryHtml(entries[|entries| - 1])
  }

  /** The legend loop: after i rounds the text holds the header and exactly the first i entries, in table order. */
  method BuildLegendHtml(depths: seq<int>, colors: seq<string>) returns (html: string)
    requires |colors| == |depths|
    ensures html == Render(Entries(depths, colors))
  {
    ghost var entries := Entries(depths, colors);
    html := "";
    html := html + Header;
    for i := 0 to |depths|
      invariant html == Render(entries[..i])
    {
      var caption := IntToString(depths[i]) +
        if i + 1 < |depths| && depths[i + 1] != 0 then Dash + IntToString(depths[i + 1] - 1) + BoundedTail
        else OpenTail;
      var entry := "<i style=\"background:" + colors[i] + "\"></i> " + caption;
      assert entries[i] == Entry(colors[i], Label(RangeOf(depths, i)));
      assert caption == Label(RangeOf(depths, i));
      assert entry == EntryHtml(entries[i]);
      ghost var done := entries[..i + 1];
      assert done[..i] == entries[..i] && done[i] == entries[i];
      assert Render(done) == Render(entries[..i]) + EntryHtml(entries[i]);
      html := html + entry;
    }
    assert entries[..|depths|] == entries;
  }

  /**
   * Entry i carries colors[i] and a label that reads back as the range of row i:
   * starting at depths[i], and ending one below depths[i + 1] when the row has a next.
   */
  lemma EntriesFollowTable(depths: seq<int>, colors: seq<string>, i: nat)
    requires |colors| == |depths| && i < |depths|
    ensures |Entries(depths, colors)| == |depths|
    ensures Entries(depths, colors)[i].color == colors[i]
    ensures ParseLabel(Entries(depths, colors)[i].text) ==
      Some(if HasNext(depths, i) then Bounded(depths[i], depths[i + 1] - 1) else OpenEnded(depths[i]))
  {
  }

  /** When no depth after the first is 0, exactly the last entry is open-ended. */
  lemma OnlyLastOpenEnded(depths: seq<int>, i: nat)
    requires i < |depths|
    requires forall j :: 0 < j < |depths| ==> depths[j] != 0
    ensures RangeOf(depths, i).OpenEnded? <==> i == |depths| - 1
  {
  }

  /** A 0 later in the table is falsy, so the row before it is labelled open-ended although rows follow. */
  lemma ZeroDepthCutsLabelShort()
    ensures RangeOf([-10, 0, 10], 0) == OpenEnded(-10)
    ensures Label(RangeOf([-10, 0, 10], 0)) == "-10+ km"
  {
  }

  /** The callback's own table: the truthiness test agrees with the end-of-table test, since no later depth is 0. */
  lemma LegendTableHasNext(i: nat)
    requires i < |LegendDepths|
    ensures HasNext(LegendDepths, i) <==> i + 1 < |LegendDepths|
  {
  }

  /** The callback's table gives six labels in ascending depth order; only the last is open-ended. */
  lemma LegendTableShape()
    ensures |Entries(LegendDepths, LegendColors)| == 6
    ensures forall i :: 0 <= i < 6 ==> Entries(LegendDepths, LegendColors)[i].color == Markers.Palette[i]
    ensures forall i :: 0 <= i < 5 ==>
      ParseLabel(Entries(LegendDepths, LegendColors)[i].text) == Some(Bounded(LegendDepths[i], LegendDepths[i + 1] - 1))
    ensures ParseLabel(Entries(LegendDepths, LegendColors)[5].text) == Some(OpenEnded(90))
  {
  }

  predicate Covers(r: Range, d: int) {
    match r
    case Bounded(low, high) => low <= d <= high
    case OpenEnded(low) => low <= d
  }

  /** The legend's integer ranges tile the integers from -10 up: each such depth is covered by exactly one entry. */
  lemma LegendRangesPartition(d: int)
    ensures d >= -10 ==> exists i :: 0 <= i < 6 && Covers(RangeOf(LegendDepths, i), d)
    ensures d < -10 ==> forall i :: 0 <= i < 6 ==> !Covers(RangeOf(LegendDepths, i), d)
    ensures forall i, j :: 0 <= i < 6 && 0 <= j < 6 && Covers(RangeOf(LegendDepths, i), d) && Covers(RangeOf(LegendDepths, j), d) ==> i == j
  {
    if d >= -10 {
      var i := if d < 10 then 0 else if d < 30 then 1 else if d < 50 then 2 else if d < 70 then 3 else if d < 90 then 4 else 5;
      assert Covers(RangeOf(LegendDepths, i), d);
    }
  }

  /**
   * The legend and the classifier disagree exactly at the lower bounds 10, 30,
   * 50, 70 and 90: the legend files such a depth under the row it starts, the
   * classifier under the row below, whose range test is closed above.
   */
  lemma LegendMatchesClassifierExceptAtLowerBounds(d: int, i: nat)
    requires i < |LegendDepths| && Covers(RangeOf(LegendDepths, i), d)
    ensures Markers.MarkerColor(d as real) == LegendColors[i] <==> d !in {10, 30, 50, 70, 90}
  {
  }

  /**
   * Depths below -10 are under no legend entry, yet the classifier draws them
   * in the colour the legend gives to its last, open-ended entry.
   */
  lemma BelowShallowLimitShownAsDeepest(d: int)
    requires d < -10
    ensures Markers.MarkerColor(d as real) == LegendColors[|LegendColors| - 1]
    ensures forall i :: 0 <= i < |LegendDepths| ==> !Covers(RangeOf(LegendDepths, i), d)
  {
  }

  lemma BoundedLabel(low: int, high: int, lowText: string, highText: string)
    requires IntToString(low) == lowText && IntToString(high) == highText
    ensures Label(Bounded(low, high)) == lowText + "&ndash;" + highText + " km<br>"
  {
  }

  lemma OpenLabel(low: int, lowText: string)
    requires IntToString(low) == lowText
    ensures Label(OpenEnded(low)) == lowText + "+ km"
  {
  }

  /** The labels of the callback's table, as they appear on the map. */
  const LegendLabels: seq<string> := [
    "-10&ndash;9 km<br>", "10&ndash;29 km<br>", "30&ndash;49 km<br>",
    "50&ndash;69 km<br>", "70&ndash;89 km<br>", "90+ km"]

  /** The decimal text of every number the callback's labels print. */
  lemma LegendNumberTexts()
    ensures IntToString(-10) == "-10" && IntToString(9) == "9"
    ensures IntToString(10) == "10" && IntToString(29) == "29"
    ensures IntToString(30) == "30" && IntToString(49) == "49"
    ensures IntToString(50) == "50" && IntToString(69) == "69"
    ensures IntToString(70) == "70" && IntToString(89) == "89"
    ensures IntToString(90) == "90"
  {
  }

  /** Row by row, the ranges of the callback's table: each row up to one below the next, the last open-ended. */
  lemma LegendTableRanges()
    ensures RangeOf(LegendDepths, 0) == Bounded(-10, 9)
    ensures RangeOf(LegendDepths, 1) == Bounded(10, 29)
    ensures RangeOf(LegendDepths, 2) == Bounded(30, 49)
    ensures RangeOf(LegendDepths, 3) == Bounded(50, 69)
    ensures RangeOf(LegendDepths, 4) == Bounded(70, 89)
    ensures RangeOf(LegendDepths, 5) == OpenEnded(90)
  {
  }

  lemma LegendRangeTextsShallow()
    ensures Label(Bounded(-10, 9)) == LegendLabels[0]
    ensures Label(Bounded(10, 29)) == LegendLabels[1]
  {
    LegendNumberTexts();
    BoundedLabel(-10, 9, "-10", "9");
    BoundedLabel(10, 29, "10", "29");
  }

  lemma LegendRangeTextsMiddle()
    ensures Label(Bounded(30, 49)) == LegendLabels[2]
    ensures Label(Bounded(50, 69)) == LegendLabels[3]
  {
    LegendNumberTexts();
    BoundedLabel(30, 49, "30", "49");
    BoundedLabel(50, 69, "50", "69");
  }

  lemma LegendRangeTextsDeep()
    ensures Label(Bounded(70, 89)) == LegendLabels[4]
    ensures Label(OpenEnded(90)) == LegendLabels[5]
  {
    LegendNumberTexts();
    BoundedLabel(70, 89, "70", "89");
    OpenLabel(90, "90");
  }

  lemma LegendTableLabel(i: nat)
    requires i < |LegendDepths|
    ensures Label(RangeOf(LegendDepths, i)) == LegendLabels[i]
  {
    LegendTableRanges();
    LegendRangeTextsShallow();
    LegendRangeTextsMiddle();
    LegendRangeTextsDeep();
  }

  lemma LegendTableEntries()
    ensures Entries(LegendDepths, LegendColors) ==
      seq(|LegendDepths|, i requires 0 <= i < |LegendDepths| => Entry(LegendColors[i], LegendLabels[i]))
  {
    forall i | 0 <= i < |LegendDepths|
      ensures Entries(LegendDepths, LegendColors)[i] == Entry(LegendColors[i], LegendLabels[i])
    {
      LegendTableLabel(i);
    }
  }

  lemma RenderSix(es: seq<Entry>)
    requires |es| == 6
    ensures Render(es) ==
      Header + EntryHtml(es[0]) + EntryHtml(es[1]) + EntryHtml(es[2])
        + EntryHtml(es[3]) + EntryHtml(es[4]) + EntryHtml(es[5])
  {
    forall k | 0 <= k < 6
      ensures Render(es[..k + 1]) == Render(es[..k]) + EntryHtml(es[k])
    {
      assert es[..k + 1][..k] == es[..k];
    }
    assert es[..6] == es;
  }

  /** The legend the callback builds from its own table: the header, then six swatches with their labels, shallowest first. */
  method OnAddLegendHtml() returns (html: string)
    ensures html == Header
      + (Swatch("#00ff00") + "-10&ndash;9 km<br>")
      + (Swatch("#80ff00") + "10&ndash;29 km<br>")
      + (Swatch("#ffff00") + "30&ndash;49 km<br>")
      + (Swatch("#ffbf00") + "50&ndash;69 km<br>")
      + (Swatch("#ff8000") + "70&ndash;89 km<br>")
      + (Swatch("#ff0000") + "90+ km")
  {
    html := BuildLegendHtml(LegendDepths, LegendColors);
    LegendTableEntries();
    var es := Entries(LegendDepths, LegendColors);
    RenderSix(es);
    assert es[0] == Entry("#00ff00", "-10&ndash;9 km<br>");
    assert es[1] == Entry("#80ff00", "10&ndash;29 km<br>");
    assert es[2] == Entry("#ffff00", "30&ndash;49 km<br>");
    assert es[3] == Entry("#ffbf00", "50&ndash;69 km<br>");
    assert es[4] == Entry("#ff8000", "70&ndash;89 km<br>");
    assert es[5] == Entry("#ff0000", "90+ km");
  }
}
