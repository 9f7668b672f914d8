# Weather-file statistics, modelled in Dafny

`DatosMeteorologicos.procesar_datos` reads a text file of weather
observations and returns a five-tuple. The tuple holds the mean temperature,
humidity, pressure and wind speed, and the predominant wind direction. Each
line is classified by an exact prefix (`"Temperatura: "`, `"Humedad: "`,
`"Presión: "`, `"Viento: "`). Its payload is parsed and appended to one of
five ordered lists. If a required list is empty the run is refused. Otherwise
each numeric list is averaged. `calcular_direccion_prominente` maps every
wind label to its bearing through a fixed 16-point compass table. It averages
those bearings arithmetically (not as a circular mean) and returns the table
label nearest to that mean; on a tie the label earliest in the table wins.
Every failure is caught and turned into the sentinel `(0, 0, 0, 0, "")`.

The model is pure and functional, with exact `real` arithmetic:

- `options.dfy` — `Option`. `None` stands for "an exception was raised here".
- `text.dfy` — Python's `str.split(sep)` (`Text.Split`), with its `Join`
  round trip and the facts the classifier needs.
- `stats.dfy` — `sum(xs) / len(xs)` (`Stats.Mean`) and its bounds. Also the
  first-minimiser `Stats.FirstMin`, which is what the head of a stable sort
  by key is.
- `compass.dfy` — the direction table, the dictionary lookup, the mean
  bearing and the nearest label (`Compass.Predominant`).
- `weather.dfy` — line classification (`Weather.Classify`), the accumulating
  loop (`Weather.Scan`), aggregation (`Weather.Summarize`) and the whole call
  (`Weather.ProcessFrom` on an instance's current lists; `Weather.Process` on
  a fresh instance).

Inputs the program gets from outside are parameters. The file's lines are a
`seq<string>`, each exactly as `readlines()` returns it, so every line but
possibly the last ends in `"\n"`. Python's `float(text)` is an arbitrary
total function `parse: string -> Option<real>`; `None` means `float` raised.

Details of the code the model keeps:

- The tags are exactly the four prefixes above, the final space included.
- The payload is only the second `": "`-separated field. Text after a second
  `": "` on the same line is dropped.
- A wind payload may hold more than one comma. The label is the text between
  the first and the second comma, kept verbatim: no trimming. So a label that
  ends the line keeps the line's `"\n"`, is not a key of the table, and the run
  yields the sentinel (`Weather.NewlineLabelFails`).
- The instance's lists are never reset. A second call on the same instance
  appends every value again. `Weather.RerunSameInstance` shows that, in exact
  arithmetic, it still returns the same tuple.

## Model

| member | source | states |
|---|---|---|
| Text.FindFrom | entrega_9_apoo.py:19 | the position found for `": "` is an occurrence, and no earlier one exists; `None` exactly when there is none |
| Text.Split | entrega_9_apoo.py:19-28 | `str.split` always returns at least one piece; `Text.JoinSplit` shows the pieces rejoin to the input, `Text.SplitPiecesFree` that none contains the separator, and `Text.SplitFirstCut` that the first cut is at the leftmost occurrence |
| Text.SplitFirstCut | entrega_9_apoo.py:19-28 | when there is a second piece, the separator occurs right after the first piece and nowhere before it: the cut is at the leftmost occurrence |
| Text.SplitOnceIffFree | entrega_9_apoo.py:19-28 | `split` returns a single piece exactly when the separator does not occur, so a second field exists exactly when it does |
| Text.JoinSplit | entrega_9_apoo.py:28 | `split` loses nothing: joining its pieces with the separator gives back the input |
| Text.SplitPiecesFree | entrega_9_apoo.py:28 | no piece returned by `split` contains the separator |
| Text.SplitAfterName | entrega_9_apoo.py:19 | a line that begins with a tag splits first right after the tag's name |
| Text.PiecesWithin | entrega_9_apoo.py:28 | a character missing from the input is missing from every piece |
| Weather.TagsExclusive | entrega_9_apoo.py:18-27 | a line carries at most one of the four tags, so the order of the `elif` chain never matters |
| Weather.Classify | entrega_9_apoo.py:17-32 | a line with no tag is ignored and never fails; a reading's kind is exactly the tag the line starts with |
| Weather.Payload | entrega_9_apoo.py:19-28 | `split(": ")[1]` raises exactly when the line holds no `": "`; the field it returns holds no `": "` |
| Weather.ParseWind | entrega_9_apoo.py:28-30 | a payload without a comma fails (no `viento[1]`); a result is a wind reading whose label holds no comma |
| Weather.TaggedPayload | entrega_9_apoo.py:19 | the payload of a tagged line is the text after the tag, up to the next `": "` |
| Weather.ParseNumber | entrega_9_apoo.py:19-25 | `float(line.split(": ")[1])` fails on a line without `": "` and otherwise is the parse of the second field; `Weather.NumericLineValue` names that field for each tag |
| Weather.NumericLineValue | entrega_9_apoo.py:18-26 | a temperature, humidity or pressure line yields `float` of its payload as a reading of that kind, or fails when `float` fails |
| Weather.WindLabelVerbatim | entrega_9_apoo.py:27-30 | a wind line `Viento: <speed>,<text>`, where neither part holds a comma or a `": "`, yields the speed's parse paired with `<text>` exactly as written, colons and newline included |
| Weather.FreeAcrossComma | entrega_9_apoo.py:28 | joining two `": "`-free texts with a comma creates no `": "`, so the whole wind payload survives the first split |
| Weather.WindLineWithoutCommaFails | entrega_9_apoo.py:28-30 | a wind line with no comma fails (there is no `viento[1]`) |
| Weather.NewlineNeverALabel | entrega_9_apoo.py:51-68 | no key of the table contains a newline |
| Weather.Add | entrega_9_apoo.py:20-32 | one reading appends one value to one numeric list and changes nothing else; a wind reading also appends its label, keeping speeds and labels paired |
| Weather.Scan | entrega_9_apoo.py:17-32 | the loop reads every line exactly when every line classifies; it only ever appends; speeds and labels stay equally long |
| Weather.ScanCollects | entrega_9_apoo.py:17-32 | on a file that parses, the loop appends to each list exactly the values of that kind, in file order |
| Weather.ColumnsPaired | entrega_9_apoo.py:27-32 | the i-th speed and the i-th label come from the same wind line |
| Weather.Summarize | entrega_9_apoo.py:34-43 | a result exists exactly when no required list is empty and every label is a key; then each mean lies between its list's minimum and maximum, and the direction is a table label, so the result is never the sentinel |
| Weather.ProcessFrom | entrega_9_apoo.py:12-47 | the call only appends to the instance's lists; the tuple is either the sentinel or carries a table label |
| Weather.ProcessFromCollects | entrega_9_apoo.py:12-47 | on an instance whose lists already hold values, a file that parses leaves the lists as the old values followed by the file's columns, and the tuple is the summary of those combined lists, or the sentinel where summarising raises |
| Weather.Process | entrega_9_apoo.py:12-47 | the sentinel is returned exactly when the file fails: a line that raises, an empty required list, or an unknown label |
| Weather.ProcessComputesMeans | entrega_9_apoo.py:34-43 | on a file that does not fail, each field is the mean of its filtered column, and the direction is the predominant one of the wind labels |
| Weather.UnknownLabelFails | entrega_9_apoo.py:71 | one wind label that is not exactly a key makes the whole run return the sentinel |
| Weather.NewlineLabelFails | entrega_9_apoo.py:71 | a wind label that kept the line's newline makes the whole run return the sentinel |
| Weather.SummarizeOfDoubled | entrega_9_apoo.py:37-41 | listing every value twice changes no field of the result |
| Weather.RerunSameInstance | entrega_9_apoo.py:17-47 | in exact arithmetic, a second call on the same instance and file returns the same tuple as the first |
| Stats.SumIsLeftFold | entrega_9_apoo.py:37-40 | the model's sum agrees with Python's left-to-right `sum`: the last value is added to the sum of the ones before it |
| Stats.SumAppend | entrega_9_apoo.py:37-40 | the sum of a concatenation is the sum of the two parts' sums |
| Stats.SumWithin | entrega_9_apoo.py:37-40 | values all within [lo, hi] sum to between n·lo and n·hi |
| Stats.Mean | entrega_9_apoo.py:37-40 | `sum(xs) / len(xs)`: the mean times the number of values gives back their sum |
| Stats.MeanWithin | entrega_9_apoo.py:37-40 | the mean lies within any common lower and upper bound of the values |
| Stats.MeanBetweenExtremes | entrega_9_apoo.py:37-40 | the mean lies between the minimum and the maximum |
| Stats.MeanOfDoubled | entrega_9_apoo.py:37-40 | the mean of a list repeated twice is the mean of the list |
| Stats.FirstMin | entrega_9_apoo.py:74-77 | the index returned has the smallest key, and every earlier index has a strictly larger key |
| Stats.StableSortHead | entrega_9_apoo.py:75-77 | whatever stable sort by key is used, its first element is the first minimiser |
| Compass.TableEvenlySpaced | entrega_9_apoo.py:51-68 | the table has 16 entries, 22.5 degrees apart, starting at N = 0 |
| Compass.LabelsDistinct | entrega_9_apoo.py:51-68 | the 16 labels are pairwise different |
| Compass.LabelNotEmpty | entrega_9_apoo.py:51-68 | every label is non-empty, so it never equals the sentinel's `""` |
| Compass.Lookup | entrega_9_apoo.py:71 | the lookup succeeds exactly for the keys of the table and gives that key's bearing |
| Compass.Bearings | entrega_9_apoo.py:71 | the bearings exist exactly when every sample is a key, and there is one per sample |
| Compass.BearingsPointwise | entrega_9_apoo.py:71 | the i-th bearing is the table's bearing for the i-th sample |
| Compass.MeanBearing | entrega_9_apoo.py:71 | the mean bearing exists exactly for a non-empty list of keys, and it lies in [0, 337.5] |
| Compass.Distance | entrega_9_apoo.py:75 | the sort key is the absolute difference between the entry's bearing and the mean: never negative, one of the two signed differences, zero exactly on the entry's own bearing |
| Compass.FirstNearestUnique | entrega_9_apoo.py:74-77 | at most one entry is the first nearest, so the label returned is determined |
| Compass.NearestIndex | entrega_9_apoo.py:74-77 | the entry chosen is at minimal distance from the mean, and every earlier entry is strictly farther |
| Compass.Nearest | entrega_9_apoo.py:74-77 | the label returned is a key of the table and belongs to the first nearest entry |
| Compass.NearestIsSortedHead | entrega_9_apoo.py:74-77 | the head of any stable sort of the keys by distance to the mean is the label returned |
| Compass.NearestOfTableBearing | entrega_9_apoo.py:74-77 | a mean equal to a table bearing resolves to that entry's label |
| Compass.NearestTieGoesToEarlier | entrega_9_apoo.py:75-77 | the mean 11.25 is as far from N as from NNE, and resolves to N |
| Compass.NearestWithinHalfStep | entrega_9_apoo.py:51-77 | for a mean in [0, 337.5] the label returned is at most 11.25 degrees away |
| Compass.Predominant | entrega_9_apoo.py:49-77 | a direction is returned exactly for a non-empty list of keys, and it is one of the 16 labels |
| Compass.PredominantIsFirstNearest | entrega_9_apoo.py:71-77 | for a non-empty list of keys, the direction returned is the label of the first table entry nearest to the arithmetic mean (sum over count) of the samples' bearings |
| Compass.PredominantOfSingle | entrega_9_apoo.py:71-77 | a single known sample resolves to itself |
| Compass.PredominantOfNorthAndEast | entrega_9_apoo.py:71-77 | as many N as E samples give mean 45 and resolve to NE |
| Compass.PredominantWrapsAround | entrega_9_apoo.py:71-77 | the neighbours N and NNW average to 168.75 and resolve to SSE, almost the opposite direction, because the mean is not circular |
| Compass.BearingsOfAppend | entrega_9_apoo.py:71 | the bearings of two concatenated sample lists exist exactly when both parts' bearings do, and are their concatenation |
| Compass.PredominantOfDoubled | entrega_9_apoo.py:71-77 | repeating the sample list leaves the predominant direction unchanged |

## Left out

- Opening and reading the file (lines 14-15) is I/O. The lines are a parameter, and an unreadable file is not modelled.
- The diagnostic `print` of the caught exception (line 46) and the demo run at module level (lines 79-88) are display only.
- `float(...)` is the abstract `parse` parameter. Decimal-to-binary rounding, `inf`/`nan`, and the IEEE-754 rounding of `sum`/`len` are floating-point library behaviour. All arithmetic is exact `real`.
- Exception types and messages are not modelled. Only the fact of failure matters, since the handler at line 45 catches all of them.
- The table's mix of `int` and `float` bearings, and the sentinel's integer zeros, are not modelled. All are `real`, and `0 == 0.0` in Python.
