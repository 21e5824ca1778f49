# Earthquake marker styling and depth legend

This project models the browser script that draws a week of USGS earthquakes on a
Leaflet map (`Leaflet-Part-1/static/js/logic.js`). It models the script's only logic:
how an earthquake becomes a styled circle marker, and how the depth legend's HTML is built.

- `Markers` covers the marker side. `MarkerSize` scales a magnitude to a radius (`getMarkerSize`).
  `MarkerColor` is the chain of range tests that picks one of six colours from the depth
  (`getMarkerColor`). `CreateMarkerStyle` builds the style record of a GeoJSON Point feature
  (`createMarkerStyle`). The Feature shape is the one in section 3.2 of RFC 7946.
- `Legend` covers the legend. `BuildLegendHtml` is the loop from the legend control's `onAdd`
  callback. It starts from the header and appends one swatch and label per row of the depth
  table. `Entries` and `Render` give the specification it is proved against.
  `Label` and `ParseLabel` show that every label states its integer range unambiguously.
- `Decimal` covers the number-to-text step of the legend. When JavaScript concatenates an
  integer to a string, it writes the integer in decimal. `ReadInt` reads that text back.
- `Wrappers` holds the `Option` type.

Depths and magnitudes are exact `real`s. The legend's depth table is `int`s, because it
holds integers only.

Three behaviours of the code are modelled as written:

- Depths below -10 fail every range test and come out red (`#ff0000`), not green.
  `Markers.BelowShallowLimitIsRed` states this. `Markers.NotMonotoneBelowShallowLimit` shows
  that the bucket order is therefore monotone only from -10 up.
- The range tests are closed above: 10 is green and 30 is light green. The legend's labels
  are integer ranges closed below (`10–29`). `Legend.LegendMatchesClassifierExceptAtLowerBounds`
  proves that on every integer depth of -10 or more, the legend and the classifier agree except
  at 10, 30, 50, 70 and 90. Depths below -10 are under no legend entry, yet they are drawn in the
  colour the legend gives to "90+ km" (`Legend.BelowShallowLimitShownAsDeepest`).
- The legend tests whether a row has a next row through the truthiness of `depths[i + 1]`.
  That value is false past the end of the table and also when the next depth is 0.
  `Legend.HasNext` models both cases. `Legend.LegendTableHasNext` shows that on the callback's own
  table this test is the same as the end-of-table test, because no later depth is 0.
  `Legend.ZeroDepthCutsLabelShort` shows what a 0 would do.

One might expect buckets closed below (`[-10,10)`, `[10,30)`, …), with depths below -10 in
the first, green bucket. The code does otherwise: its tests are closed above, and depths below
-10 fall to the final red branch. This model follows the code.

A missing third coordinate reads as `undefined` in the script. Every comparison with it is
false, so the colour chain reaches its red branch. `Markers.Depth` returns `None` for this case
and `CreateMarkerStyle` gives red; no precondition rules it out.

The legend's output is fully determined by its two tables, so building it twice gives the same text.

## Model

| member | source | states |
|---|---|---|
| `Markers.MarkerSize` | Leaflet-Part-1/static/js/logic.js:15-17 | dividing the radius by 5 gives back the magnitude; the radius has the sign of the magnitude (zero for zero, negative for negative: no clamping) |
| `Markers.MarkerSizeStrictlyIncreasing` | Leaflet-Part-1/static/js/logic.js:15-17 | a larger magnitude always gives a strictly larger radius |
| `Markers.MarkerSizeValues` | Leaflet-Part-1/static/js/logic.js:15-17 | magnitudes 0, 5 and -1 give radii 0, 25 and -5 |
| `Markers.MarkerColor` | Leaflet-Part-1/static/js/logic.js:21-41 | the colour is the palette entry at an index defined independently of the chain: below -10 the last (red) bucket; otherwise the number of upper bounds 10, 30, 50, 70, 90 the depth exceeds |
| `Markers.Bucket` | Leaflet-Part-1/static/js/logic.js:21-41 | the chosen index always names one of the six palette colours |
| `Markers.MarkerColorTotal` | Leaflet-Part-1/static/js/logic.js:21-41 | every depth receives exactly one of the six colours |
| `Markers.RangesDisjoint` | Leaflet-Part-1/static/js/logic.js:22-36 | no depth passes two of the five range tests |
| `Markers.MarkerColorMatchesRange` | Leaflet-Part-1/static/js/logic.js:22-39 | the colour is palette entry k exactly when the k-th range test admits the depth, or, for red, exactly when no test does (both directions) |
| `Markers.BoundaryValues` | Leaflet-Part-1/static/js/logic.js:22-36 | -10 and 10 are green, 10.5 and 30 light green, 50 yellow, 70 orange, 90 dark orange: each boundary belongs to the bucket below it |
| `Markers.DeepIsRed` | Leaflet-Part-1/static/js/logic.js:34-39 | every depth above 90 is red |
| `Markers.BelowShallowLimitIsRed` | Leaflet-Part-1/static/js/logic.js:22-39 | every depth below -10 passes no range test and is red |
| `Markers.BucketMonotone` | Leaflet-Part-1/static/js/logic.js:22-39 | for depths of -10 and more, a deeper earthquake never gets a lower bucket index |
| `Markers.InRange` | Leaflet-Part-1/static/js/logic.js:22-34 | a depth admitted by any of the five range tests lies between -10 and 90 |
| `Markers.NoRange` | Leaflet-Part-1/static/js/logic.js:22-39 | no range test admits the depth, so the chain reaches its final `else`, exactly when the depth is below -10 or above 90 |
| `Markers.CountBelowMonotone` | Leaflet-Part-1/static/js/logic.js:22-39 | the number of bounds a depth exceeds never decreases as the depth grows |
| `Markers.NotMonotoneBelowShallowLimit` | Leaflet-Part-1/static/js/logic.js:22-39 | depth -11 gets a higher bucket index than depth 0, so the order is monotone only from -10 up |
| `Markers.Depth` | Leaflet-Part-1/static/js/logic.js:49 | a depth is present exactly when the coordinates have a third element, and it is that element, `coordinates[2]` |
| `Markers.CreateMarkerStyle` | Leaflet-Part-1/static/js/logic.js:46-55 | radius is the scaled magnitude; fill colour is the colour of `coordinates[2]` when there is a third coordinate, red when there is not, and always one of the six; stroke colour `#000`, weight 1, opacity 1, fill opacity 0.8 |
| `Markers.StyleDependsOnlyOnMagnitudeAndDepth` | Leaflet-Part-1/static/js/logic.js:46-55 | two features with the same magnitude and depth get the same style, whatever their title, longitude or latitude |
| `Markers.StyleExample` | Leaflet-Part-1/static/js/logic.js:46-55 | magnitude 4 at depth 20 gives radius 20, fill `#80ff00` and the fixed stroke settings |
| `Decimal.NatToString` | Leaflet-Part-1/static/js/logic.js:79 | the text of a natural number is a nonempty run of digits that starts with `0` only for zero, and is one digit long exactly below 10 |
| `Decimal.IntToString` | Leaflet-Part-1/static/js/logic.js:79 | the text of an integer is nonempty and starts with a minus sign exactly when the integer is negative; for a non-negative integer it is the canonical digit text `NatToString(n)` (no leading zero), and after the minus sign it is the canonical text of `-n` |
| `Decimal.NatToStringValue` | Leaflet-Part-1/static/js/logic.js:79 | the digits written for n denote n |
| `Decimal.ReadIntRoundTrip` | Leaflet-Part-1/static/js/logic.js:79 | reading back an integer's text, followed by anything not starting with a digit, gives that integer and the remainder |
| `Legend.HasNext` | Leaflet-Part-1/static/js/logic.js:79 | the truthiness test on `depths[i + 1]` never claims a next row past the end of the table, and the last row never has one |
| `Legend.RangeOf` | Leaflet-Part-1/static/js/logic.js:79 | row i's range starts at `depths[i]`; it is bounded exactly when the row has a next, and then ends one below `depths[i + 1]` |
| `Legend.Label` | Leaflet-Part-1/static/js/logic.js:79 | a label is the text of its lower depth followed by `+ km` when open-ended, or by `&ndash;`, the text of the upper depth and ` km<br>` when bounded |
| `Legend.Swatch` | Leaflet-Part-1/static/js/logic.js:78 | the swatch holds the row's colour, unchanged, between the fixed opening `<i style="background:` and closing `"></i> ` |
| `Legend.EntryHtml` | Leaflet-Part-1/static/js/logic.js:78-79 | the text one loop round appends opens with the swatch's fixed `<i style="background:`, carries the row's colour right after it, and ends with the row's label |
| `Legend.Entries` | Leaflet-Part-1/static/js/logic.js:76-79 | one entry per table row; entry i has colour `colors[i]` and a label that reads back as row i's range |
| `Legend.Render` | Leaflet-Part-1/static/js/logic.js:74-79 | the appended text always begins with the header `<b>Depth Legend</b><br>` |
| `Legend.LabelRoundTrip` | Leaflet-Part-1/static/js/logic.js:79 | every label, bounded or open-ended, reads back as the range it was built from |
| `Legend.BuildLegendHtml` | Leaflet-Part-1/static/js/logic.js:74-80 | the text is the header once, then one entry per table row in table order; after i rounds exactly the first i entries are present |
| `Legend.EntriesFollowTable` | Leaflet-Part-1/static/js/logic.js:76-79 | there are as many entries as rows; entry i has colour colors[i] and a label reading `depths[i]`–`depths[i+1]-1` when the row has a next, `depths[i]+` otherwise |
| `Legend.OnlyLastOpenEnded` | Leaflet-Part-1/static/js/logic.js:79 | when no later depth is 0, an entry is open-ended exactly when it is the last |
| `Legend.ZeroDepthCutsLabelShort` | Leaflet-Part-1/static/js/logic.js:79 | in a table whose second depth is 0, the first row is labelled `-10+ km` although rows follow |
| `Legend.LegendTableHasNext` | Leaflet-Part-1/static/js/logic.js:71-79 | on the callback's table, the truthiness test on the next depth is the same as "a next row exists" |
| `Legend.LegendTableShape` | Leaflet-Part-1/static/js/logic.js:71-80 | the callback's table gives six entries; their colours are the classifier's six colours in order; entries 0 to 4 read as the range from depths[i] to depths[i+1]-1; the last reads as 90 and up |
| `Legend.LegendRangesPartition` | Leaflet-Part-1/static/js/logic.js:71-79 | every integer depth from -10 up is covered by exactly one legend entry, and depths below -10 by none |
| `Legend.LegendMatchesClassifierExceptAtLowerBounds` | Leaflet-Part-1/static/js/logic.js:71-79 | for an integer depth under a legend entry, the classifier gives that entry's colour exactly when the depth is not 10, 30, 50, 70 or 90 |
| `Legend.BelowShallowLimitShownAsDeepest` | Leaflet-Part-1/static/js/logic.js:22-79 | an integer depth below -10 is under no legend entry, yet the classifier gives it the colour of the last, "90+ km" entry |
| `Legend.LegendTableRanges` | Leaflet-Part-1/static/js/logic.js:71-79 | the callback's rows announce the ranges -10..9, 10..29, 30..49, 50..69, 70..89 and 90 and up |
| `Legend.LegendNumberTexts` | Leaflet-Part-1/static/js/logic.js:79 | the numbers the labels print are written `-10`, `9`, `10`, `29`, … `89`, `90` |
| `Legend.LegendTableLabel` | Leaflet-Part-1/static/js/logic.js:79 | row i's label is `-10&ndash;9 km<br>`, `10&ndash;29 km<br>`, …, `70&ndash;89 km<br>`, `90+ km` |
| `Legend.LegendTableEntries` | Leaflet-Part-1/static/js/logic.js:71-79 | entry i of the callback's legend pairs colors[i] with the i-th of those labels |
| `Legend.OnAddLegendHtml` | Leaflet-Part-1/static/js/logic.js:69-83 | the callback's legend text is the header followed by the six swatches and labels, shallowest first |

## Left out

- Map creation and the OpenStreetMap tile layer (lines 4 and 9-11). They are calls into the Leaflet library.
- The `d3.json` fetch of the USGS feed and its callback (lines 90-103). This is asynchronous network I/O with no error handling.
- `L.geoJSON`, `L.circleMarker`, `L.control`, `L.DomUtil.create` and `legend.addTo` (lines 67, 70, 85, 92-100). They are calls into the library and DOM updates. Only the text the legend loop appends is modelled.
- `bindPopupContent` (lines 60-62). It is a single template string passed to `layer.bindPopup`. It involves formatting non-integer JavaScript numbers.
- IEEE-754 numbers are not modelled. The model has no NaN or infinities; a NaN depth would reach the red branch. It also has no rounding in `magnitude * 5`.
- `null` or missing magnitudes and `null` depths are not modelled. JavaScript turns them into 0 or NaN. The model's magnitude is always a number, and a depth is either a number or absent.
- Markers.MarkerSize: exact real multiplication, so the model cannot show the rounding of the floating-point product.
- Decimal.IntToString: writes every integer in plain decimal digits. JavaScript switches to exponent notation from 10^21 on, which the legend's small integers never reach.
- Legend.BuildLegendHtml: the result is the text the loop appends. Assigning to `innerHTML` makes the browser parse and re-serialise the HTML on every round, so reading it back gives `–` (U+2013) where the appended text has `&ndash;`. That step is not modelled.
- Legend.BuildLegendHtml: requires the colour table to be as long as the depth table. The callback's tables are, so the `undefined` a shorter colour table would produce is not modelled.
