/** Header repair and column renaming of a logger export
    (code/preprocess.py, lines 69-92). The table is the list of rows pandas
    holds after `read_csv` has taken the file's first line as its (wrong)
    header; every cell is text. */
module ColumnRename {
  import opened Results
  import opened Strings

  /** Marks a volumetric soil-moisture column: "m³/m³ Water Content". */
  const WaterContentMarker := "m\U{B3}/m\U{B3} Water Content"
  /** Marks a soil-temperature column: "°C Soil Temperature". */
  const SoilTemperatureMarker := "\U{B0}C Soil Temperature"
  const MoisturePrefix := "soil_moisture_"
  const TemperaturePrefix := "soil_temperature_"
  const DepthUnit := "cm"

  datatype Table = Table(header: seq<string>, rows: seq<seq<string>>)

  /** The moisture marker is looked for first, so a column carrying both markers is a
      moisture column. */
  predicate IsMoistureLabel(column: string) {
    Contains(column, WaterContentMarker)
  }

  predicate IsTemperatureLabel(column: string) {
    !IsMoistureLabel(column) && Contains(column, SoilTemperatureMarker)
  }

  /** `f"{depth}cm"`, the entry of `depth_map` for a depth. */
  function DepthLabel(depth: int): string {
    IntToString(depth) + DepthUnit
  }

  function MoistureName(depth: int): string {
    MoisturePrefix + DepthLabel(depth)
  }

  function TemperatureName(depth: int): string {
    TemperaturePrefix + DepthLabel(depth)
  }

  function CountMoisture(labels: seq<string>): nat {
    if |labels| == 0 then 0
    else (if IsMoistureLabel(labels[0]) then 1 else 0) + CountMoisture(labels[1..])
  }

  function CountTemperature(labels: seq<string>): nat {
    if |labels| == 0 then 0
    else (if IsTemperatureLabel(labels[0]) then 1 else 0) + CountTemperature(labels[1..])
  }

  /** Lines 69-70: row 1 becomes the header and rows 0 to 2 are dropped. A
      table with fewer than two rows has no row 1 (`iloc` raises). */
  function RepairHeader(raw: seq<seq<string>>): (r: Result<Table>)
    ensures r.Success? <==> |raw| >= 2
    ensures r.Success? ==> r.value.header == raw[1]
    ensures r.Success? ==> |r.value.rows| == if |raw| >= 3 then |raw| - 3 else 0
    ensures r.Success? ==> forall i :: 0 <= i < |r.value.rows| ==> r.value.rows[i] == raw[i + 3]
  {
    if |raw| < 2 then Failure(HeaderRowMissing)
    else if |raw| < 3 then Success(Table(raw[1], []))
    else Success(Table(raw[1], raw[3..]))
  }

  /** The column has a depth to take: its kind's counter is still inside
      `depths` (the source indexes `depths` with that counter). */
  predicate HasDepth(column: string, depths: seq<int>, moisture: nat, temperature: nat) {
    && (IsMoistureLabel(column) ==> moisture < |depths|)
    && (IsTemperatureLabel(column) ==> temperature < |depths|)
  }

  /** Lines 82-89 for one column: a moisture column is named after
      `depths[moisture]`, else a temperature column after
      `depths[temperature]`, else the column keeps its label. */
  function NewName(column: string, depths: seq<int>, moisture: nat, temperature: nat): string
    requires HasDepth(column, depths, moisture, temperature)
  {
    if IsMoistureLabel(column) then MoistureName(depths[moisture])
    else if Contains(column, SoilTemperatureMarker) then TemperatureName(depths[temperature])
    else column
  }

  /** The counters after a column: only its own kind's counter advances. */
  function NextMoisture(column: string, moisture: nat): nat {
    if IsMoistureLabel(column) then moisture + 1 else moisture
  }

  function NextTemperature(column: string, temperature: nat): nat {
    if IsTemperatureLabel(column) then temperature + 1 else temperature
  }

  /** Lines 79-89 from some column on: `moisture` and `temperature` are the
      two counters, each the index of the next depth its kind will use.
      Running out of depths is the source's `IndexError`. */
  function RenameFrom(labels: seq<string>, depths: seq<int>, moisture: nat, temperature: nat): (r: Result<seq<string>>)
    requires moisture <= |depths| && temperature <= |depths|
    ensures r.Success? <==>
      moisture + CountMoisture(labels) <= |depths| && temperature + CountTemperature(labels) <= |depths|
    ensures r.Success? ==> |r.value| == |labels|
    decreases |labels|
  {
    if |labels| == 0 then Success([])
    else
      var column := labels[0];
      if !HasDepth(column, depths, moisture, temperature) then Failure(DepthIndexOutOfRange)
      else
        var tail := RenameFrom(labels[1..], depths,
                               NextMoisture(column, moisture), NextTemperature(column, temperature));
        if tail.Failure? then tail
        else Success([NewName(column, depths, moisture, temperature)] + tail.value)
  }

  /** The renaming of lines 76-92: succeeds exactly when neither kind of
      measurement column outnumbers the depths, and keeps the column count. */
  function RenameColumns(header: seq<string>, depths: seq<int>): (r: Result<seq<string>>)
    ensures r.Success? <==> CountMoisture(header) <= |depths| && CountTemperature(header) <= |depths|
    ensures r.Success? ==> |r.value| == |header|
  {
    RenameFrom(header, depths, 0, 0)
  }

  /** The depth index column `j` takes when its kind's counter starts at
      `moisture` (or `temperature`): the counter advanced past the columns of
      the same kind before it. */
  function MoistureOrdinal(labels: seq<string>, moisture: nat, j: nat): nat
    requires j <= |labels|
  {
    moisture + CountMoisture(labels[..j])
  }

  function TemperatureOrdinal(labels: seq<string>, temperature: nat, j: nat): nat
    requires j <= |labels|
  {
    temperature + CountTemperature(labels[..j])
  }

  /** Counting the first `j` columns from a counter equals counting the
      columns after the first from the counter advanced past it. */
  lemma CounterAdvance(labels: seq<string>, j: nat, moisture: nat, temperature: nat)
    requires 0 < j <= |labels|
    ensures MoistureOrdinal(labels, moisture, j)
         == MoistureOrdinal(labels[1..], NextMoisture(labels[0], moisture), j - 1)
    ensures TemperatureOrdinal(labels, temperature, j)
         == TemperatureOrdinal(labels[1..], NextTemperature(labels[0], temperature), j - 1)
  {
    assert labels[..j][1..] == labels[1..][..j - 1];
  }

  /** The first column of a successful pass gets its new name. */
  lemma RenameFromHead(labels: seq<string>, depths: seq<int>, moisture: nat, temperature: nat)
    requires moisture <= |depths| && temperature <= |depths|
    requires RenameFrom(labels, depths, moisture, temperature).Success?
    requires |labels| > 0
    ensures HasDepth(labels[0], depths, moisture, temperature)
    ensures RenameFrom(labels, depths, moisture, temperature).value[0]
         == NewName(labels[0], depths, moisture, temperature)
  {
  }

  /** Every later column of a successful pass is named as the rest of the
      header is, renamed with the counters advanced past the first column. */
  lemma RenameFromTail(labels: seq<string>, depths: seq<int>, moisture: nat, temperature: nat, j: nat)
    requires moisture <= |depths| && temperature <= |depths|
    requires RenameFrom(labels, depths, moisture, temperature).Success?
    requires 0 < j < |labels|
    ensures var m' := NextMoisture(labels[0], moisture);
      var t' := NextTemperature(labels[0], temperature);
      && m' <= |depths| && t' <= |depths|
      && RenameFrom(labels[1..], depths, m', t').Success?
      && RenameFrom(labels, depths, moisture, temperature).value[j]
         == RenameFrom(labels[1..], depths, m', t').value[j - 1]
  {
  }

  /** Column `j` is renamed as if the counters had advanced past each of
      the `j` columns before it: by the number of moisture and of temperature
      columns among them. */
  lemma {:induction false} RenameFromAt(labels: seq<string>, depths: seq<int>, moisture: nat, temperature: nat, j: nat)
    requires moisture <= |depths| && temperature <= |depths|
    requires RenameFrom(labels, depths, moisture, temperature).Success?
    requires j < |labels|
    ensures RenamedAt(labels, depths, moisture, temperature, j)
    decreases j
  {
    if j == 0 {
      RenameFromHead(labels, depths, moisture, temperature);
      assert labels[..0] == [];
    } else {
      RenameFromTail(labels, depths, moisture, temperature, j);
      RenameFromAt(labels[1..], depths, NextMoisture(labels[0], moisture), NextTemperature(labels[0], temperature), j - 1);
      RenamedAtShift(labels, depths, moisture, temperature, j);
    }
  }

  /** The statement of `RenameFromAt` for one column. */
  predicate RenamedAt(labels: seq<string>, depths: seq<int>, moisture: nat, temperature: nat, j: nat)
    requires moisture <= |depths| && temperature <= |depths|
    requires RenameFrom(labels, depths, moisture, temperature).Success?
    requires j < |labels|
  {
    && HasDepth(labels[j], depths, MoistureOrdinal(labels, moisture, j), TemperatureOrdinal(labels, temperature, j))
    && RenameFrom(labels, depths, moisture, temperature).value[j]
       == NewName(labels[j], depths, MoistureOrdinal(labels, moisture, j), TemperatureOrdinal(labels, temperature, j))
  }

  /** The inductive step of `RenameFromAt`: what holds for column `j - 1` of
      the rest of the header holds for column `j` of the whole. */
  lemma RenamedAtShift(labels: seq<string>, depths: seq<int>, moisture: nat, temperature: nat, j: nat)
    requires moisture <= |depths| && temperature <= |depths|
    requires RenameFrom(labels, depths, moisture, temperature).Success?
    requires 0 < j < |labels|
    requires NextMoisture(labels[0], moisture) <= |depths| && NextTemperature(labels[0], temperature) <= |depths|
    requires RenameFrom(labels[1..], depths, NextMoisture(labels[0], moisture), NextTemperature(labels[0], temperature)).Success?
    requires RenameFrom(labels, depths, moisture, temperature).value[j]
          == RenameFrom(labels[1..], depths, NextMoisture(labels[0], moisture), NextTemperature(labels[0], temperature)).value[j - 1]
    requires RenamedAt(labels[1..], depths, NextMoisture(labels[0], moisture), NextTemperature(labels[0], temperature), j - 1)
    ensures RenamedAt(labels, depths, moisture, temperature, j)
  {
    assert labels[1..][j - 1] == labels[j];
    CounterAdvance(labels, j, moisture, temperature);
  }

  /** The renaming by ordinal, for a whole header: the k-th moisture column
      (counting from 0, left to right) is named after `depths[k]`, the k-th
      temperature column likewise and independently, and every other column
      keeps its label. */
  lemma RenameColumnsByOrdinal(header: seq<string>, depths: seq<int>)
    requires RenameColumns(header, depths).Success?
    ensures var r := RenameColumns(header, depths).value;
      forall j :: 0 <= j < |header| && IsMoistureLabel(header[j]) ==>
        && CountMoisture(header[..j]) < |depths|
        && r[j] == MoistureName(depths[CountMoisture(header[..j])])
    ensures var r := RenameColumns(header, depths).value;
      forall j :: 0 <= j < |header| && IsTemperatureLabel(header[j]) ==>
        && CountTemperature(header[..j]) < |depths|
        && r[j] == TemperatureName(depths[CountTemperature(header[..j])])
    ensures var r := RenameColumns(header, depths).value;
      forall j :: 0 <= j < |header| && !IsMoistureLabel(header[j]) && !IsTemperatureLabel(header[j]) ==>
        r[j] == header[j]
  {
    var r := RenameColumns(header, depths).value;
    forall j | 0 <= j < |header| && IsMoistureLabel(header[j])
      ensures CountMoisture(header[..j]) < |depths|
      ensures r[j] == MoistureName(depths[CountMoisture(header[..j])])
    {
      RenameFromAt(header, depths, 0, 0, j);
    }
    forall j | 0 <= j < |header| && IsTemperatureLabel(header[j])
      ensures CountTemperature(header[..j]) < |depths|
      ensures r[j] == TemperatureName(depths[CountTemperature(header[..j])])
    {
      RenameFromAt(header, depths, 0, 0, j);
    }
    forall j | 0 <= j < |header| && !IsMoistureLabel(header[j]) && !IsTemperatureLabel(header[j])
      ensures r[j] == header[j]
    {
      RenameFromAt(header, depths, 0, 0, j);
    }
  }

  /** The whole per-logger transformation of lines 69-92: repair the header,
      then rename its columns; the data rows pass through untouched. */
  function ProcessTable(raw: seq<seq<string>>, depths: seq<int>): (r: Result<Table>)
    ensures r.Success? <==>
      |raw| >= 2 && CountMoisture(raw[1]) <= |depths| && CountTemperature(raw[1]) <= |depths|
    ensures r.Success? ==>
      && |r.value.header| == |raw[1]|
      && |r.value.rows| == (if |raw| >= 3 then |raw| - 3 else 0)
      && forall i :: 0 <= i < |r.value.rows| ==> r.value.rows[i] == raw[i + 3]
    ensures r.Success? ==> RenameColumns(raw[1], depths) == Success(r.value.header)
  {
    match RepairHeader(raw)
    case Failure(e) => Failure(e)
    case Success(table) =>
      match RenameColumns(table.header, depths)
      case Failure(e) => Failure(e)
      case Success(header) => Success(Table(header, table.rows))
  }

  /** A name the renaming generates is pure ASCII, so it carries neither
      marker (each marker has a non-ASCII character: '³' or '°'). */
  lemma GeneratedNamesUnmarked(depth: int)
    ensures !Contains(MoistureName(depth), WaterContentMarker)
    ensures !Contains(MoistureName(depth), SoilTemperatureMarker)
    ensures !Contains(TemperatureName(depth), WaterContentMarker)
    ensures !Contains(TemperatureName(depth), SoilTemperatureMarker)
  {
    IntToStringAscii(depth);
    assert IsAscii(MoisturePrefix) && IsAscii(TemperaturePrefix) && IsAscii(DepthUnit);
    var moisture := MoistureName(depth);
    var temperature := TemperatureName(depth);
    assert IsAscii(moisture);
    assert IsAscii(temperature);
    assert WaterContentMarker[1] == '\U{B3}';
    assert SoilTemperatureMarker[0] == '\U{B0}';
    AsciiMissesPattern(moisture, WaterContentMarker, 1);
    AsciiMissesPattern(moisture, SoilTemperatureMarker, 0);
    AsciiMissesPattern(temperature, WaterContentMarker, 1);
    AsciiMissesPattern(temperature, SoilTemperatureMarker, 0);
  }

  predicate Unmarked(column: string) {
    !Contains(column, WaterContentMarker) && !Contains(column, SoilTemperatureMarker)
  }

  /** A header without measurement markers is left exactly as it is. */
  lemma {:induction false} UnmarkedHeaderUnchanged(labels: seq<string>, depths: seq<int>, moisture: nat, temperature: nat)
    requires moisture <= |depths| && temperature <= |depths|
    requires forall j :: 0 <= j < |labels| ==> Unmarked(labels[j])
    ensures RenameFrom(labels, depths, moisture, temperature) == Success(labels)
    decreases |labels|
  {
    if |labels| > 0 {
      UnmarkedHeaderUnchanged(labels[1..], depths, moisture, temperature);
      assert [labels[0]] + labels[1..] == labels;
    }
  }

  /** Renaming an already renamed header changes nothing, whatever depths
      are given the second time. */
  lemma RenameIdempotent(header: seq<string>, depths: seq<int>, otherDepths: seq<int>)
    requires RenameColumns(header, depths).Success?
    ensures var renamed := RenameColumns(header, depths).value;
      RenameColumns(renamed, otherDepths) == Success(renamed)
  {
    var renamed := RenameColumns(header, depths).value;
    RenameColumnsByOrdinal(header, depths);
    forall j | 0 <= j < |renamed|
      ensures Unmarked(renamed[j])
    {
      if IsMoistureLabel(header[j]) {
        GeneratedNamesUnmarked(depths[CountMoisture(header[..j])]);
      } else if IsTemperatureLabel(header[j]) {
        GeneratedNamesUnmarked(depths[CountTemperature(header[..j])]);
      }
    }
    UnmarkedHeaderUnchanged(renamed, otherDepths, 0, 0);
  }

  lemma {:induction false} CountAppend(a: seq<string>, b: seq<string>)
    ensures CountMoisture(a + b) == CountMoisture(a) + CountMoisture(b)
    ensures CountTemperature(a + b) == CountTemperature(a) + CountTemperature(b)
    decreases |a|
  {
    if |a| == 0 {
      assert a + b == b;
    } else {
      assert (a + b)[1..] == a[1..] + b;
      CountAppend(a[1..], b);
    }
  }

  /** A measurement column raises its kind's ordinal for every column after it. */
  lemma OrdinalIncreases(labels: seq<string>, i: nat, j: nat)
    requires i < j <= |labels|
    ensures IsMoistureLabel(labels[i]) ==> CountMoisture(labels[..i]) < CountMoisture(labels[..j])
    ensures IsTemperatureLabel(labels[i]) ==> CountTemperature(labels[..i]) < CountTemperature(labels[..j])
  {
    assert labels[..j] == labels[..i] + labels[i..j];
    CountAppend(labels[..i], labels[i..j]);
    assert labels[i..j][0] == labels[i];
  }

  lemma DepthLabelInjective(a: int, b: int)
    requires DepthLabel(a) == DepthLabel(b)
    ensures a == b
  {
    var sa := IntToString(a);
    var sb := IntToString(b);
    assert |sa| == |sb|;
    assert sa == DepthLabel(a)[..|sa|];
    assert sb == DepthLabel(b)[..|sb|];
    IntToStringInjective(a, b);
  }

  lemma MoistureNameInjective(a: int, b: int)
    requires MoistureName(a) == MoistureName(b)
    ensures a == b
  {
    assert DepthLabel(a) == MoistureName(a)[|MoisturePrefix|..];
    assert DepthLabel(b) == MoistureName(b)[|MoisturePrefix|..];
    DepthLabelInjective(a, b);
  }

  lemma TemperatureNameInjective(a: int, b: int)
    requires TemperatureName(a) == TemperatureName(b)
    ensures a == b
  {
    assert DepthLabel(a) == TemperatureName(a)[|TemperaturePrefix|..];
    assert DepthLabel(b) == TemperatureName(b)[|TemperaturePrefix|..];
    DepthLabelInjective(a, b);
  }

  predicate DistinctDepths(depths: seq<int>) {
    forall i, j :: 0 <= i < j < |depths| ==> depths[i] != depths[j]
  }

  predicate IsMeasurement(column: string) {
    IsMoistureLabel(column) || IsTemperatureLabel(column)
  }

  /** With distinct depths, no two measurement columns end up with the same
      name: columns of one kind take different depths, and the two kinds
      have different prefixes. */
  lemma DistinctDepthsGiveDistinctNames(header: seq<string>, depths: seq<int>)
    requires RenameColumns(header, depths).Success?
    requires DistinctDepths(depths)
    ensures var renamed := RenameColumns(header, depths).value;
      forall i, j :: 0 <= i < j < |header| && IsMeasurement(header[i]) && IsMeasurement(header[j]) ==>
        renamed[i] != renamed[j]
  {
    var renamed := RenameColumns(header, depths).value;
    forall i, j | 0 <= i < j < |header| && IsMeasurement(header[i]) && IsMeasurement(header[j])
      ensures renamed[i] != renamed[j]
    {
      DistinctNamesAt(header, depths, i, j);
    }
  }

  lemma DistinctNamesAt(header: seq<string>, depths: seq<int>, i: nat, j: nat)
    requires RenameColumns(header, depths).Success?
    requires DistinctDepths(depths)
    requires i < j < |header| && IsMeasurement(header[i]) && IsMeasurement(header[j])
    ensures RenameColumns(header, depths).value[i] != RenameColumns(header, depths).value[j]
  {
    var renamed := RenameColumns(header, depths).value;
    RenameFromAt(header, depths, 0, 0, i);
    RenameFromAt(header, depths, 0, 0, j);
    OrdinalIncreases(header, i, j);
    var mi, mj := MoistureOrdinal(header, 0, i), MoistureOrdinal(header, 0, j);
    var ti, tj := TemperatureOrdinal(header, 0, i), TemperatureOrdinal(header, 0, j);
    if IsMoistureLabel(header[i]) && IsMoistureLabel(header[j]) {
      if renamed[i] == renamed[j] {
        MoistureNameInjective(depths[mi], depths[mj]);
      }
    } else if IsTemperatureLabel(header[i]) && IsTemperatureLabel(header[j]) {
      if renamed[i] == renamed[j] {
        TemperatureNameInjective(depths[ti], depths[tj]);
      }
    } else if IsMoistureLabel(header[i]) {
      KindsNamedApart(depths[mi], depths[tj]);
    } else {
      KindsNamedApart(depths[mj], depths[ti]);
    }
  }

  /** A moisture name and a temperature name never coincide. */
  lemma KindsNamedApart(a: int, b: int)
    ensures MoistureName(a) != TemperatureName(b)
  {
    assert MoistureName(a)[5] != TemperatureName(b)[5];
  }

  lemma MarkersClassified()
    ensures IsMoistureLabel(WaterContentMarker)
    ensures IsTemperatureLabel(SoilTemperatureMarker)
  {
    assert StartsWith(WaterContentMarker, WaterContentMarker);
    assert StartsWith(SoilTemperatureMarker, SoilTemperatureMarker);
    assert SoilTemperatureMarker[0] != WaterContentMarker[0];
    ContainsNeedsRoom(SoilTemperatureMarker[1..], WaterContentMarker);
  }

  lemma NamesAtFiveCentimetres()
    ensures MoistureName(5) == "soil_moisture_5cm"
    ensures TemperatureName(5) == "soil_temperature_5cm"
  {
  }

  lemma OneColumnCounts(column: string)
    ensures CountMoisture([column]) == if IsMoistureLabel(column) then 1 else 0
    ensures CountTemperature([column]) == if IsTemperatureLabel(column) then 1 else 0
  {
  }

  lemma ExampleCounts(stamp: string, moisture: string, temperature: string)
    requires Unmarked(stamp) && IsMoistureLabel(moisture) && IsTemperatureLabel(temperature)
    ensures var header := [stamp, moisture, temperature];
      && CountMoisture(header) == 1 && CountTemperature(header) == 1
      && CountMoisture(header[..1]) == 0 && CountTemperature(header[..2]) == 0
  {
    var header := [stamp, moisture, temperature];
    OneColumnCounts(stamp);
    OneColumnCounts(moisture);
    OneColumnCounts(temperature);
    CountAppend([stamp], [moisture]);
    CountAppend([stamp, moisture], [temperature]);
    assert header == [stamp, moisture] + [temperature];
    assert [stamp, moisture] == [stamp] + [moisture];
    assert header[..1] == [stamp];
    assert header[..2] == [stamp, moisture];
  }

  /** A header of an unmarked column (a timestamp), one moisture and one
      temperature column, with a single sensor at 5 cm: the measurement
      columns become `soil_moisture_5cm` and `soil_temperature_5cm`, and a
      two-row table keeps no data rows. */
  lemma SingleDepthExample(first: seq<string>, stamp: string, moisture: string, temperature: string)
    requires Unmarked(stamp) && IsMoistureLabel(moisture) && IsTemperatureLabel(temperature)
    ensures ProcessTable([first, [stamp, moisture, temperature]], [5])
         == Success(Table([stamp, "soil_moisture_5cm", "soil_temperature_5cm"], []))
  {
    var header := [stamp, moisture, temperature];
    ExampleCounts(stamp, moisture, temperature);
    RenameColumnsByOrdinal(header, [5]);
    NamesAtFiveCentimetres();
    var renamed := RenameColumns(header, [5]).value;
    assert renamed == [stamp, "soil_moisture_5cm", "soil_temperature_5cm"];
  }

  /** The example with the markers as the source's export writes them. */
  lemma SingleDepthExampleConcrete()
    ensures ProcessTable([["Zentra"], ["Timestamps", WaterContentMarker, SoilTemperatureMarker]], [5])
         == Success(Table(["Timestamps", "soil_moisture_5cm", "soil_temperature_5cm"], []))
  {
    MarkersClassified();
    ContainsNeedsRoom("Timestamps", WaterContentMarker);
    ContainsNeedsRoom("Timestamps", SoilTemperatureMarker);
    SingleDepthExample(["Zentra"], "Timestamps", WaterContentMarker, SoilTemperatureMarker);
  }
}
