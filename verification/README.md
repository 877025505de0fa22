# Field-data preprocessing and soil-layer weighting, modelled in Dafny

This project models the computational core of a small field-data pipeline
for soil sensor loggers:

- **Choosing the export file.** For each logger, the pipeline looks through
  a directory walk for the logger's CSV export. It prefers a
  `Configuration 2-` export and falls back to a `Configuration 1-` export.
- **Repairing the table.** The export's header sits on the wrong row. The
  pipeline promotes row 1 to the header and drops the rows above the data.
- **Renaming the columns.** Every `m³/m³ Water Content` column becomes
  `soil_moisture_<depth>cm` and every `°C Soil Temperature` column becomes
  `soil_temperature_<depth>cm`. Each kind of column takes the configured
  depths in order.
- **Depth weighting.** Each sensor depth stands for a soil layer. A layer's
  thickness runs from the midpoint with the depth above it to the midpoint
  with the depth below it. The deepest layer ends half its own depth below
  the deepest sensor. The thicknesses are normalised into weights, and rows
  of readings are averaged with them.
- **Meteorological formulas.** The psychrometric constant, the W/m² to MJ/m²
  conversion, and the Makkink evaporation formula with the vapour-pressure
  slope taken as an input.

The modules are:

- `Results`: `Option`, and a `Result` whose `Error` names each way the
  source crashes or yields a non-number.
- `Strings`: substring search (Python's `in`), `endswith`, `os.path.join`,
  and `str` of an `int`.
- `RealSeqs`: sums and dot products over exact reals.
- `SoilLayers`: thicknesses, weights and weighted averages.
- `Meteorology`: the closed-form formulas.
- `FileSelection`: `find_csv_file`, over the walk's (folder, file name)
  pairs in walk order.
- `ColumnRename`: the header repair and the renaming pass.

Every operation has an independent partner:

- Thicknesses against layer boundaries; weights against thickness over
  total depth.
- Averages against their scale invariance and bounds.
- The renaming loop against a per-column ordinal description.
- File selection against "first qualifying entry" predicates.

## Model

| member | source | states |
|---|---|---|
| SoilLayers.Boundary | code/utils.py:19-22 | Layer `i`'s lower boundary: the midpoint `L` with the next depth, or `d_last + d_last/2` for the deepest layer. A definition; `Thicknesses` states its thicknesses through it. |
| SoilLayers.ThicknessesFrom | code/utils.py:17-23 | The loop from index `i` with `L_prev = previous` yields one thickness per remaining depth. The first is the next boundary minus `previous`; each later one is the gap between consecutive layer boundaries. |
| SoilLayers.Thicknesses | code/utils.py:16-25 | Succeeds exactly for a non-empty depth list (`depths[-1]` raises otherwise). There is one thickness per depth, and layer `i`'s thickness is its lower boundary minus its upper boundary: surface or previous midpoint down to the next midpoint, or to `d_last + d_last/2` for the last layer. |
| SoilLayers.ThicknessesClosedForm | code/utils.py:19-23 | Written out per position: one depth `d` gives `d + d/2`; the top layer ends at the first midpoint; a middle layer is half the gap between its neighbours; the bottom layer runs from the last midpoint to `d_last + d_last/2`. |
| SoilLayers.ThicknessesTelescope | code/utils.py:17-23 | The thicknesses sum to the total depth `d_last + d_last/2`, whatever the depths in between. |
| SoilLayers.ThicknessesPositive | code/utils.py:18-23 | Positive, strictly increasing depths give every layer a positive thickness. |
| SoilLayers.Weights | code/utils.py:37-38 | Fails for an empty depth list. Fails when the thickness sum is zero, i.e. exactly when the deepest depth is 0. Otherwise gives one weight per depth. |
| SoilLayers.TotalThicknessZero | code/utils.py:38 | The divisor `np.sum(soil_thickness)` is zero if and only if the deepest depth is zero. |
| SoilLayers.WeightsSumToOne | code/utils.py:38 | The normalised weights sum to exactly 1. |
| SoilLayers.WeightsProportional | code/utils.py:37-38 | Each weight is its layer's thickness divided by the total depth `d_last + d_last/2`. |
| SoilLayers.WeightedAverages | code/utils.py:57-59 | Succeeds exactly when every row is as wide as the weights and either there are no rows or the weights do not sum to zero. Gives one average per row, and that average times the weight sum is the row's weighted sum. |
| SoilLayers.UniformWeightsGiveMean | code/utils.py:57-59 | Equal non-zero weights turn every row's average into its arithmetic mean. |
| SoilLayers.ConstantRowAverage | code/utils.py:57-59 | A row holding one reading at every depth averages to that reading. |
| SoilLayers.AveragesScaleInvariant | code/utils.py:57-59 | Dividing all weights by the same non-zero number changes no average and no failure. |
| SoilLayers.WeightsAverageLikeThicknesses | code/utils.py:37-38 | Averaging with the normalised weights gives the same result as averaging with the raw thicknesses. |
| SoilLayers.AverageWithinBounds | code/utils.py:57-59 | With non-negative weights, a row's average lies between any lower and upper bound of its readings. |
| SoilLayers.DepthWeightedAverageWithinBounds | code/utils.py:37-59 | For positive, strictly increasing depths, weighting and averaging succeed, and every row's depth-weighted average stays within the range of its readings. |
| RealSeqs.Sum | code/utils.py:38 | `np.sum` of a vector, over exact reals. A definition; `SumDivideAll`, `SumOfConstant` and `ThicknessesTelescope` state its properties. |
| RealSeqs.Dot | code/utils.py:57 | One row of `np.sum(data_array * weights, axis=1)`: the sum of the elementwise products. A definition; `DotBounds`, `DotDivideAll` and `DotConstantRight` state its properties. |
| RealSeqs.DivideAll | code/utils.py:38 | NumPy's `vector / scalar`: same length, and each result element times the divisor is the input element. |
| RealSeqs.DotBounds | code/utils.py:57 | With non-negative weights, the weighted sum lies between the lowest and highest reading, each times the weight sum. |
| Meteorology.PsychrometricConstant | code/utils.py:84-89 | Gamma has the sign of the pressure: positive exactly for positive pressure, zero exactly for zero pressure. |
| Meteorology.PsychrometricLinear | code/utils.py:89 | Gamma is linear in the pressure. |
| Meteorology.PsychrometricAtSeaLevel | code/utils.py:84-89 | At 101.3 kPa, gamma lies strictly between 0.0673 and 0.0674 kPa/°C. |
| Meteorology.WattsToMegajoules | code/utils.py:128 | The result times 1e6 is radiation times accumulation time, i.e. the energy in J/m². |
| Meteorology.WattsToMegajoulesLinear | code/utils.py:128 | The conversion is linear in the radiation. |
| Meteorology.MakkinkFromEnergy | code/utils.py:154 | The result times 2.45 equals `a` times the radiation energy times `delta + gamma`. When `delta + gamma` is zero this makes the result 0, which is what the float expression gives there (a finite numerator over an infinite denominator). |
| Meteorology.MakkinkET | code/utils.py:131-154 | The result times 2.45 equals `a` times the 1800-second radiation energy times `delta + gamma`. The nested quotient `delta / (delta / (delta + gamma))` is `delta + gamma`. The coefficient and the accumulation time default to 0.63 and 1800, as in the source's signature. |
| Meteorology.MakkinkIgnoresAccumulationTime | code/utils.py:131-151 | The `accumulation_time` argument never changes the result. |
| Meteorology.MakkinkETAsIntended | code/utils.py:131-154 | Makkink with the radiation converted over the caller's accumulation time: the result times 2.45 equals `a` times that energy times `delta + gamma`. |
| Meteorology.MakkinkAgreesAtDefault | code/utils.py:135-151 | Called without an accumulation time, so with the default of 1800 s, the source's Makkink and the corrected one give the same result. |
| Meteorology.MakkinkHourlyDiffers | code/utils.py:151 | With 3600 s passed in, the source's result is half the intended one, and so differs from it. |
| FileSelection.Qualifies | code/preprocess.py:33-37 | The filter of both generators: the file name ends in `.csv` and contains the logger id and the pass's marker (`Configuration 2-` on line 33, `Configuration 1-` on line 37). A definition; `FindCsvFile` states the result through it. |
| FileSelection.FirstQualifying | code/preprocess.py:30-33 | Scanning from `start`, the result is the position of the first `.csv` file containing the logger id and the marker, or `None` exactly when no file qualifies. |
| FileSelection.SelectEntry | code/preprocess.py:29-38 | If any `Configuration 2-` file qualifies, the first such file is chosen. Otherwise the first qualifying `Configuration 1-` file is chosen. Nothing is chosen exactly when neither kind exists. |
| FileSelection.FindCsvFile | code/preprocess.py:27-39 | A returned path ends in `.csv`, contains the logger id and contains one of the two markers. `None` is returned exactly when no file of either kind qualifies. |
| FileSelection.FindCsvFileIsSelectedEntry | code/preprocess.py:30 | The returned path is `os.path.join` of the selected entry's folder and file name, and a path is returned exactly when an entry is selected. |
| FileSelection.IrrelevantFilesIgnored | code/preprocess.py:29-38 | Inserting a file that qualifies for neither pass anywhere in the walk leaves the result unchanged. |
| FileSelection.SelectEntryShifts | code/preprocess.py:29-38 | After such an insertion, the selected entry is the same file, at its shifted position. |
| Strings.Contains | code/preprocess.py:33 | Python's `pattern in s` on strings, as used on lines 33, 37, 82 and 85. A definition; `ContainsIffOccurs` relates it to the direct reading. |
| Strings.ContainsIffOccurs | code/preprocess.py:33 | `Contains(s, p)` holds exactly when some index `i` of `s` starts a copy of `p`. |
| Strings.EndsWith | code/preprocess.py:33 | `str.endswith`, used for the `.csv` test. A definition; `EndsWithIffAppended` states what it means. |
| Strings.EndsWithIffAppended | code/preprocess.py:33 | `s` ends with `suffix` exactly when `s` is some string followed by `suffix`. |
| Strings.JoinPath | code/preprocess.py:30 | The joined path ends with the file name. An absolute file name replaces the folder; otherwise the path starts with the folder. |
| Strings.NatToString | code/preprocess.py:73 | `str` of a non-negative depth: non-empty, all decimal digits, a single digit exactly for depths below 10, and no leading zero (it starts with `0` only for 0). With `NatToStringRoundTrip`, the digits denote the depth, so the text is the one Python writes. |
| Strings.IntToString | code/preprocess.py:73 | `str` of any integer depth: it starts with `-` exactly for a negative depth, and every other character is a digit. The digits after the optional sign denote the magnitude and have no leading zero (a `0` comes first only for the depth 0). |
| Strings.NatToStringRoundTrip | code/preprocess.py:73 | Reading back the decimal digits `str` writes for a non-negative depth gives the depth. |
| Strings.IntToStringInjective | code/preprocess.py:73 | Distinct integer depths print as distinct strings, as the value clauses of `IntToString` imply. |
| ColumnRename.RepairHeader | code/preprocess.py:69-70 | Fails exactly when there is no row 1. Otherwise the header is row 1 and the data are rows 3 onwards, in order: none when there are fewer than four rows. |
| ColumnRename.IsMoistureLabel | code/preprocess.py:82 | A column is a moisture column when its label contains `m³/m³ Water Content`. A definition; `MarkersClassified` and `RenameColumnsByOrdinal` state its role. |
| ColumnRename.IsTemperatureLabel | code/preprocess.py:82-85 | A column is a temperature column when it contains `°C Soil Temperature` and is not a moisture column, because the `elif` is reached only then. A definition. |
| ColumnRename.DepthLabel | code/preprocess.py:73 | The `depth_map` entry for a depth: `str(depth)` followed by `cm`. A definition; `DepthLabelInjective` states that distinct depths get distinct labels. |
| ColumnRename.MoistureName | code/preprocess.py:83 | `soil_moisture_` followed by the depth label. A definition; `MoistureNameInjective` and `GeneratedNamesUnmarked` state its properties. |
| ColumnRename.TemperatureName | code/preprocess.py:86 | `soil_temperature_` followed by the depth label. A definition; `TemperatureNameInjective` and `GeneratedNamesUnmarked` state its properties. |
| ColumnRename.NewName | code/preprocess.py:82-89 | One column's new name, given the two counters: the moisture name of `depths[moisture]`, else the temperature name of `depths[temperature]`, else the label itself. A definition; `RenameColumnsByOrdinal` states the result per column. |
| ColumnRename.RenameFrom | code/preprocess.py:79-89 | Starting from counters `moisture` and `temperature`, the pass succeeds exactly when neither counter runs past the depth list. On success the column count is kept. |
| ColumnRename.RenameColumns | code/preprocess.py:76-92 | Succeeds exactly when there are at most as many moisture columns, and at most as many temperature columns, as depths. The header length is kept. |
| ColumnRename.RenameFromAt | code/preprocess.py:79-89 | Column `j` is renamed with the counters advanced by the moisture and temperature columns before it. |
| ColumnRename.RenameColumnsByOrdinal | code/preprocess.py:79-89 | The k-th moisture column (from 0, left to right) becomes `soil_moisture_<depths[k]>cm`. The k-th temperature column becomes `soil_temperature_<depths[k]>cm`, counted independently. A column carrying both markers counts as moisture. Every other column keeps its label. |
| ColumnRename.ProcessTable | code/preprocess.py:69-92 | Succeeds exactly when row 1 exists and its measurement columns fit the depths. The header is row 1 renamed, and the data rows pass through unchanged. |
| ColumnRename.GeneratedNamesUnmarked | code/preprocess.py:83-86 | A generated name contains neither marker. |
| ColumnRename.UnmarkedHeaderUnchanged | code/preprocess.py:88-89 | A header without markers is returned unchanged, whatever the depths. |
| ColumnRename.RenameIdempotent | code/preprocess.py:79-92 | Renaming an already renamed header changes nothing, with any depth list. |
| ColumnRename.OrdinalIncreases | code/preprocess.py:84-87 | Each measurement column raises its own kind's counter for every later column. |
| ColumnRename.MoistureNameInjective | code/preprocess.py:73-83 | Different depths give different moisture names. |
| ColumnRename.TemperatureNameInjective | code/preprocess.py:73-86 | Different depths give different temperature names. |
| ColumnRename.DistinctDepthsGiveDistinctNames | code/preprocess.py:73-89 | With distinct depths, no two measurement columns get the same new name. |
| ColumnRename.MarkersClassified | code/preprocess.py:82-85 | The moisture marker is classified as moisture, and the temperature marker as temperature. |
| ColumnRename.NamesAtFiveCentimetres | code/preprocess.py:73-86 | Depth 5 gives `soil_moisture_5cm` and `soil_temperature_5cm`. |
| ColumnRename.SingleDepthExample | code/preprocess.py:69-92 | Take a two-row table whose row 1 is a non-marker column, a moisture column and a temperature column, with depths `[5]`. It becomes the header `[stamp, soil_moisture_5cm, soil_temperature_5cm]` with no data rows. |
| ColumnRename.SingleDepthExampleConcrete | code/preprocess.py:69-92 | The same for the header `Timestamps`, `m³/m³ Water Content`, `°C Soil Temperature`. |

## Left out

- File-system and process I/O are not modelled: reading the JSON location file, `unzip_files`, `os.walk` itself, `pd.read_csv`, `to_csv` and the printing. The walk is a parameter: the (folder, file name) pairs in the order the walk yields them.
- The driver loop (`code/preprocess.py:51-98`) is not modelled. This covers the hard-coded skip of logger `z6-08822` and the output file name. After "No file found" the source does not `continue`, so it calls `read_csv(None)` and crashes; the model treats that loop as outside its scope.
- The fallback `next(...)` is evaluated eagerly by Python, as the default argument, so the second walk always runs. The result is unaffected, and the model has no side effects to show it.
- `calculate_slope_saturation_vapor_pressure_curve` is not modelled: it needs `np.exp`. Makkink takes the slope as an input instead.
- Floating point is not modelled: every quantity is an exact real. Rounding and `nan` or `inf` values are outside the model.
- Weights: a zero thickness sum (deepest depth 0) gives `Failure(ZeroTotalWeight)` where NumPy yields `nan`/`inf` values.
- WeightedAverages: with at least one row, a zero weight sum gives `Failure(ZeroTotalWeight)`, where NumPy yields `inf` for a row with a non-zero weighted sum and `nan` for one with a zero weighted sum. With no rows the model returns an empty result, as NumPy does. Rows whose width differs from the weights give `Failure(ShapeMismatch)` even where NumPy broadcasting would accept them, e.g. a single weight.
- MakkinkET: requires a non-zero slope, because a zero slope makes the source compute `0/0` and yield `nan`. The slope the source computes is positive in exact arithmetic. In floating point, `np.exp` underflows to 0 for temperatures just above -237.3 °C, which no field reading reaches, and at -237.3 °C the slope is itself `nan`. When `delta + gamma` is zero, the source's denominator is infinite and the result is 0, and the model returns 0 too.
- NumPy's elementwise application of the meteorological formulas is not modelled. They are stated for one value.
- Depths are modelled as integers when they name columns (`str(int)`), and as reals when they weight layers. Float depths in the location file, which Python would print as `5.0cm`, are not modelled.
- Header cells are modelled as strings. A missing cell that pandas reads as a float `NaN` would make the source's `in` operator raise; the model has no such cell.
- The header row is `iloc[1]` of the table pandas holds after `read_csv` has consumed the file's first line. The model starts from that table, not from the raw file lines.
- A duplicate depth in the list (`depth_map` keyed by depth) has no effect on the names, and nothing about it is modelled beyond that.

## Findings

| source | as written | input that shows it | evidently intended | confidence | as-written member | corrected member |
|---|---|---|---|---|---|---|
| code/utils.py:151 | `calculate_Makkink_ET` converts the radiation with `accumulation_time=1800` and ignores its own `accumulation_time` parameter | `accumulation_time=3600` with slope 1, 100 kPa, 100 W/m², `a = 0.63`: the result is half the value for the passed time | convert over the accumulation time the caller passes | medium; not executed | Meteorology.MakkinkET (with Meteorology.MakkinkIgnoresAccumulationTime, Meteorology.MakkinkHourlyDiffers) | Meteorology.MakkinkETAsIntended (with Meteorology.MakkinkAgreesAtDefault) |
