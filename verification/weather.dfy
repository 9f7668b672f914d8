/** `DatosMeteorologicos.procesar_datos`: classify each observation line by
    its tag, accumulate the parsed values in five ordered lists, average
    them, and collapse every failure into the sentinel (0, 0, 0, 0, ""). */
module Weather {
  import opened Options
  import opened Text
  import opened Stats
  import opened Compass

  const TemperatureTag: string := "Temperatura: "
  const HumidityTag: string := "Humedad: "
  const PressureTag: string := "Presión: "
  const WindTag: string := "Viento: "

  /** Python's `float(text)`, kept abstract: `None` where it raises. */
  type Parser = string -> Option<real>

  /** What one line contributes. */
  datatype Reading =
    | Temperature(value: real)
    | Humidity(value: real)
    | Pressure(value: real)
    | Wind(speed: real, direction: string)
    | Untagged

  /** The instance's five lists (`self.temperaturas` ... `self.direcciones_viento`). */
  datatype Batch = Batch(
    temperatures: seq<real>,
    humidities: seq<real>,
    pressures: seq<real>,
    speeds: seq<real>,
    directions: seq<string>)

  /** The lists of a freshly constructed instance. */
  const Empty: Batch := Batch([], [], [], [], [])

  /** The tuple `procesar_datos` returns. */
  datatype Summary = Summary(
    temperature: real,
    humidity: real,
    pressure: real,
    windSpeed: real,
    direction: string)

  /** The value every failure is turned into. */
  const Sentinel: Summary := Summary(0.0, 0.0, 0.0, 0.0, "")

  predicate Tagged(line: string)
  {
    TemperatureTag <= line || HumidityTag <= line || PressureTag <= line || WindTag <= line
  }

  /** The four tags start with different letters, so a line carries at most
      one of them and the order of the `elif` chain does not matter. */
  lemma TagsExclusive(line: string)
    ensures TemperatureTag <= line ==> !(HumidityTag <= line) && !(PressureTag <= line) && !(WindTag <= line)
    ensures HumidityTag <= line ==> !(PressureTag <= line) && !(WindTag <= line)
    ensures PressureTag <= line ==> !(WindTag <= line)
  {
    assert TemperatureTag[0] == 'T' && HumidityTag[0] == 'H' && PressureTag[0] == 'P' && WindTag[0] == 'V';
  }

  /** `line.split(": ")[1]`; `None` would be the IndexError of a line with
      no ": " at all. */
  function Payload(line: string): (r: Option<string>)
    ensures r.None? <==> Free(line, ": ")
    ensures r.Some? ==> Free(r.value, ": ")
  {
    SplitOnceIffFree(line, ": ");
    SplitPiecesFree(line, ": ");
    var fields := Split(line, ": ");
    if |fields| < 2 then None else Some(fields[1])
  }

  /** `viento = payload.split(",")`, `float(viento[0])`, `viento[1]`: the
      label is the second comma-separated piece, kept exactly as written. */
  function ParseWind(payload: string, parse: Parser): (r: Option<Reading>)
    ensures Free(payload, ",") ==> r.None?
    ensures r.Some? ==> r.value.Wind? && Free(r.value.direction, ",")
  {
    SplitOnceIffFree(payload, ",");
    SplitPiecesFree(payload, ",");
    var parts := Split(payload, ",");
    match parse(parts[0])
    case None => None
    case Some(speed) => if |parts| < 2 then None else Some(Wind(speed, parts[1]))
  }

  /** `float(line.split(": ")[1])`: fails on a line without `": "`, and
      otherwise is the parse of the second field. */
  function ParseNumber(line: string, parse: Parser): (r: Option<real>)
    ensures Free(line, ": ") ==> r.None?
    ensures r.Some? ==> Payload(line).Some? && parse(Payload(line).value) == r
  {
    match Payload(line)
    case None => None
    case Some(p) => parse(p)
  }

  /** One iteration of the loop over the file's lines in `procesar_datos`;
      `None` where the body raises. */
  function Classify(line: string, parse: Parser): (r: Option<Reading>)
    ensures !Tagged(line) <==> r == Some(Untagged)
    ensures r.Some? ==> (r.value.Temperature? <==> TemperatureTag <= line)
    ensures r.Some? ==> (r.value.Humidity? <==> HumidityTag <= line)
    ensures r.Some? ==> (r.value.Pressure? <==> PressureTag <= line)
    ensures r.Some? ==> (r.value.Wind? <==> WindTag <= line)
  {
    TagsExclusive(line);
    if TemperatureTag <= line then
      match ParseNumber(line, parse)
      case None => None
      case Some(v) => Some(Temperature(v))
    else if HumidityTag <= line then
      match ParseNumber(line, parse)
      case None => None
      case Some(v) => Some(Humidity(v))
    else if PressureTag <= line then
      match ParseNumber(line, parse)
      case None => None
      case Some(v) => Some(Pressure(v))
    else if WindTag <= line then
      match Payload(line)
      case None => None
      case Some(p) => ParseWind(p, parse)
    else
      Some(Untagged)
  }

  /** A wind line without a comma has no `viento[1]`: it fails. */
  lemma WindLineWithoutCommaFails(line: string, parse: Parser)
    requires WindTag <= line
    requires ',' !in line
    ensures Classify(line, parse).None?
  {
    TagsExclusive(line);
    match Payload(line)
    case None =>
    case Some(p) =>
      PiecesWithin(line, ": ", ',');
      FreeOfMissingChar(p, ",");
      SplitOfFree(p, ",");
  }

  predicate IsTag(tag: string)
  {
    tag == TemperatureTag || tag == HumidityTag || tag == PressureTag || tag == WindTag
  }

  /** The payload of a tagged line is what follows the tag, up to the next
      ": " if the line has another one. */
  lemma TaggedPayload(line: string, tag: string)
    requires IsTag(tag) && tag <= line
    ensures Payload(line) == Some(Split(line[|tag|..], ": ")[0])
  {
    var name := tag[..|tag| - 2];
    assert tag == name + ": ";
    assert forall c :: c in name ==> c != ':';
    SplitAfterName(line, name, ": ");
  }

  /** A numeric line yields the parse of the text after its tag (up to any
      further ": "), as a reading of the tag's kind, or fails with the parse. */
  lemma NumericLineValue(line: string, parse: Parser)
    ensures TemperatureTag <= line ==>
              Classify(line, parse) == (match parse(Split(line[|TemperatureTag|..], ": ")[0])
                                        case None => None case Some(v) => Some(Temperature(v)))
    ensures HumidityTag <= line ==>
              Classify(line, parse) == (match parse(Split(line[|HumidityTag|..], ": ")[0])
                                        case None => None case Some(v) => Some(Humidity(v)))
    ensures PressureTag <= line ==>
              Classify(line, parse) == (match parse(Split(line[|PressureTag|..], ": ")[0])
                                        case None => None case Some(v) => Some(Pressure(v)))
  {
    TagsExclusive(line);
    if TemperatureTag <= line { TaggedPayload(line, TemperatureTag); }
    if HumidityTag <= line { TaggedPayload(line, HumidityTag); }
    if PressureTag <= line { TaggedPayload(line, PressureTag); }
  }

  /** A wind line keeps its label exactly as written after the comma,
      trailing characters (such as the newline `readlines` leaves) included. */
  lemma WindLabelVerbatim(speedText: string, text: string, parse: Parser)
    requires ',' !in speedText && Free(speedText, ": ")
    requires ',' !in text && Free(text, ": ")
    ensures Classify(WindTag + speedText + "," + text, parse)
         == (match parse(speedText)
             case None => None
             case Some(v) => Some(Wind(v, text)))
  {
    var line := WindTag + speedText + "," + text;
    FreeAcrossComma(speedText, text);
    WindPayloadIsRest(speedText + "," + text);
    assert line == WindTag + (speedText + "," + text);
    WindPayloadParts(speedText, text);
    TagsExclusive(line);
  }

  lemma WindPayloadIsRest(rest: string)
    requires Free(rest, ": ")
    ensures Payload(WindTag + rest) == Some(rest)
  {
    var line := WindTag + rest;
    assert line[|WindTag|..] == rest;
    TaggedPayload(line, WindTag);
    SplitOfFree(rest, ": ");
  }

  /** Joining two pieces free of ": " with a comma creates no ": ". */
  lemma FreeAcrossComma(a: string, b: string)
    requires Free(a, ": ") && Free(b, ": ")
    ensures Free(a + "," + b, ": ")
  {
    var s := a + "," + b;
    forall j: nat | j < |s|
      ensures !OccursAt(s, ": ", j)
    {
      if j + 2 <= |a| {
        assert s[j..j + 2] == a[j..j + 2];
        assert !OccursAt(a, ": ", j);
      } else if |a| < j && j + 2 <= |s| {
        var k := j - |a| - 1;
        assert s[j..j + 2] == b[k..k + 2];
        assert !OccursAt(b, ": ", k);
      } else if j + 2 <= |s| {
        assert s[|a|] == ',' && ": "[0] == ':' && ": "[1] == ' ';
        assert j == |a| || j + 1 == |a|;
        assert s[j..j + 2][0] == s[j] && s[j..j + 2][1] == s[j + 1];
      }
    }
  }

  lemma WindPayloadParts(speedText: string, text: string)
    requires ',' !in speedText && ',' !in text
    ensures Split(speedText + "," + text, ",") == [speedText, text]
  {
    var rest := speedText + "," + text;
    SplitAfterName(rest, speedText, ",");
    assert rest[|speedText + ","|..] == text;
    FreeOfMissingChar(text, ",");
    SplitOfFree(text, ",");
  }

  /** No table label contains a newline, so a label that kept one is rejected. */
  lemma NewlineNeverALabel(d: string)
    requires '\n' in d
    ensures !IsLabel(d)
  {
  }

  /** Every list of `b` is a prefix of the same list of `b'`: nothing was
      removed or changed, at most appended. */
  predicate Extends(b: Batch, b': Batch)
  {
    && b.temperatures <= b'.temperatures
    && b.humidities <= b'.humidities
    && b.pressures <= b'.pressures
    && b.speeds <= b'.speeds
    && b.directions <= b'.directions
  }

  /** Speeds and directions are appended together, so they pair up. */
  predicate Paired(b: Batch)
  {
    |b.speeds| == |b.directions|
  }

  /** The number of values held in the four numeric lists. */
  function Size(b: Batch): nat
  {
    |b.temperatures| + |b.humidities| + |b.pressures| + |b.speeds|
  }

  function Concat(a: Batch, b: Batch): Batch
  {
    Batch(a.temperatures + b.temperatures, a.humidities + b.humidities,
          a.pressures + b.pressures, a.speeds + b.speeds, a.directions + b.directions)
  }

  lemma ConcatAssoc(a: Batch, b: Batch, c: Batch)
    ensures Concat(Concat(a, b), c) == Concat(a, Concat(b, c))
  {
  }

  /** The `append` calls of one loop iteration. */
  function Add(b: Batch, rd: Reading): (r: Batch)
    ensures Extends(b, r)
    ensures Size(r) == Size(b) + (if rd.Untagged? then 0 else 1)
    ensures |r.directions| == |b.directions| + (if rd.Wind? then 1 else 0)
    ensures Paired(b) ==> Paired(r)
  {
    match rd
    case Temperature(v) => b.(temperatures := b.temperatures + [v])
    case Humidity(v) => b.(humidities := b.humidities + [v])
    case Pressure(v) => b.(pressures := b.pressures + [v])
    case Wind(speed, d) => b.(speeds := b.speeds + [speed], directions := b.directions + [d])
    case Untagged => b
  }

  /** Every line classifies without raising. */
  predicate Parsed(lines: seq<string>, parse: Parser)
  {
    forall i :: 0 <= i < |lines| ==> Classify(lines[i], parse).Some?
  }

  /** The loop ends either having read every line or at the first line
      whose body raised; `batch` is the instance's lists at that point. */
  datatype ScanResult = ScanResult(batch: Batch, complete: bool)

  /** The loop of `procesar_datos` over an instance whose lists start as `b`. */
  function Scan(b: Batch, lines: seq<string>, parse: Parser): (r: ScanResult)
    ensures r.complete <==> Parsed(lines, parse)
    ensures Extends(b, r.batch)
    ensures Paired(b) ==> Paired(r.batch)
    decreases |lines|
  {
    if |lines| == 0 then ScanResult(b, true)
    else
      assert forall i :: 1 <= i < |lines| ==> lines[i] == lines[1..][i - 1];
      match Classify(lines[0], parse)
      case None => ScanResult(b, false)
      case Some(rd) => Scan(Add(b, rd), lines[1..], parse)
  }

  /** The readings of a file that classifies without error, line by line. */
  function Readings(lines: seq<string>, parse: Parser): (rs: seq<Reading>)
    requires Parsed(lines, parse)
    ensures |rs| == |lines|
    ensures forall i :: 0 <= i < |lines| ==> Classify(lines[i], parse) == Some(rs[i])
  {
    if |lines| == 0 then []
    else
      assert forall i :: 1 <= i < |lines| ==> lines[i] == lines[1..][i - 1];
      [Classify(lines[0], parse).value] + Readings(lines[1..], parse)
  }

  /** The values `pick` selects from the readings, in reading order. */
  function Column<T>(rs: seq<Reading>, pick: Reading -> Option<T>): seq<T>
  {
    if |rs| == 0 then []
    else
      (match pick(rs[0]) case None => [] case Some(x) => [x]) + Column(rs[1..], pick)
  }

  function PickTemperature(rd: Reading): Option<real>
  {
    if rd.Temperature? then Some(rd.value) else None
  }

  function PickHumidity(rd: Reading): Option<real>
  {
    if rd.Humidity? then Some(rd.value) else None
  }

  function PickPressure(rd: Reading): Option<real>
  {
    if rd.Pressure? then Some(rd.value) else None
  }

  function PickSpeed(rd: Reading): Option<real>
  {
    if rd.Wind? then Some(rd.speed) else None
  }

  function PickDirection(rd: Reading): Option<string>
  {
    if rd.Wind? then Some(rd.direction) else None
  }

  function PickWind(rd: Reading): Option<(real, string)>
  {
    if rd.Wind? then Some((rd.speed, rd.direction)) else None
  }

  /** Reference definition of the five lists: each is the filter of the
      readings of its kind, in file order. */
  function Columns(rs: seq<Reading>): Batch
  {
    Batch(Column(rs, PickTemperature), Column(rs, PickHumidity), Column(rs, PickPressure),
          Column(rs, PickSpeed), Column(rs, PickDirection))
  }

  lemma ColumnOfCons<T>(rd: Reading, rs: seq<Reading>, pick: Reading -> Option<T>)
    ensures Column([rd] + rs, pick) == Column([rd], pick) + Column(rs, pick)
  {
    assert ([rd] + rs)[0] == rd;
    assert ([rd] + rs)[1..] == rs;
    assert [rd][1..] == [];
  }

  lemma ColumnOfOne<T>(rd: Reading, pick: Reading -> Option<T>)
    ensures Column([rd], pick) == (match pick(rd) case None => [] case Some(x) => [x])
  {
    assert [rd][1..] == [];
    assert Column([rd][1..], pick) == [];
  }

  lemma ColumnsOfCons(rd: Reading, rs: seq<Reading>)
    ensures Columns([rd] + rs) == Concat(Columns([rd]), Columns(rs))
  {
    ColumnOfCons(rd, rs, PickTemperature);
    ColumnOfCons(rd, rs, PickHumidity);
    ColumnOfCons(rd, rs, PickPressure);
    ColumnOfCons(rd, rs, PickSpeed);
    ColumnOfCons(rd, rs, PickDirection);
  }

  lemma AddIsConcat(b: Batch, rd: Reading)
    ensures Add(b, rd) == Concat(b, Columns([rd]))
  {
    ColumnOfOne(rd, PickTemperature);
    ColumnOfOne(rd, PickHumidity);
    ColumnOfOne(rd, PickPressure);
    ColumnOfOne(rd, PickSpeed);
    ColumnOfOne(rd, PickDirection);
    var one := Columns([rd]);
    match rd
    case Temperature(v) => assert one == Batch([v], [], [], [], []);
    case Humidity(v) => assert one == Batch([], [v], [], [], []);
    case Pressure(v) => assert one == Batch([], [], [v], [], []);
    case Wind(speed, d) => assert one == Batch([], [], [], [speed], [d]);
    case Untagged => assert one == Empty;
  }

  /** The accumulator, run over a file that parses, appends exactly the
      filtered columns of its readings to the lists it started with. */
  lemma {:induction false} ScanCollects(b: Batch, lines: seq<string>, parse: Parser)
    requires Parsed(lines, parse)
    ensures Scan(b, lines, parse) == ScanResult(Concat(b, Columns(Readings(lines, parse))), true)
    decreases |lines|
  {
    if |lines| == 0 {
      assert Concat(b, Columns([])) == b;
    } else {
      var rd, rest := ScanStep(b, lines, parse);
      var one, others := Columns([rd]), Columns(Readings(rest, parse));
      ScanCollects(Add(b, rd), rest, parse);
      AddIsConcat(b, rd);
      ColumnsOfCons(rd, Readings(rest, parse));
      ConcatAssoc(b, one, others);
    }
  }

  /** One turn of the loop over a line that classifies. */
  lemma ScanStep(b: Batch, lines: seq<string>, parse: Parser) returns (rd: Reading, rest: seq<string>)
    requires |lines| > 0 && Parsed(lines, parse)
    ensures rest == lines[1..] && Parsed(rest, parse)
    ensures Scan(b, lines, parse) == Scan(Add(b, rd), rest, parse)
    ensures Readings(lines, parse) == [rd] + Readings(rest, parse)
  {
    rd := Classify(lines[0], parse).value;
    rest := lines[1..];
    assert forall i :: 0 <= i < |rest| ==> rest[i] == lines[i + 1];
  }

  /** The i-th speed and the i-th direction come from the same wind line. */
  lemma {:induction false} ColumnsPaired(rs: seq<Reading>)
    ensures |Column(rs, PickSpeed)| == |Column(rs, PickDirection)| == |Column(rs, PickWind)|
    ensures forall i :: 0 <= i < |Column(rs, PickWind)| ==>
              Column(rs, PickWind)[i] == (Column(rs, PickSpeed)[i], Column(rs, PickDirection)[i])
  {
    if |rs| > 0 {
      ColumnsPaired(rs[1..]);
    }
  }

  /** The aggregation step of `procesar_datos` on the accumulated lists: refuse when a required list is
      empty, otherwise the four means and the predominant direction;
      `None` is any exception raised on the way. */
  function Summarize(b: Batch): (r: Option<Summary>)
    requires Paired(b)
    ensures r.Some? <==>
              && |b.temperatures| > 0 && |b.humidities| > 0 && |b.pressures| > 0 && |b.speeds| > 0
              && forall i :: 0 <= i < |b.directions| ==> IsLabel(b.directions[i])
    ensures r.Some? ==>
              && Min(b.temperatures) <= r.value.temperature <= Max(b.temperatures)
              && Min(b.humidities) <= r.value.humidity <= Max(b.humidities)
              && Min(b.pressures) <= r.value.pressure <= Max(b.pressures)
              && Min(b.speeds) <= r.value.windSpeed <= Max(b.speeds)
    ensures r.Some? ==> IsLabel(r.value.direction) && r.value != Sentinel
  {
    if |b.temperatures| == 0 || |b.humidities| == 0 || |b.pressures| == 0 || |b.speeds| == 0 then
      None
    else
      match Predominant(b.directions)
      case None => None
      case Some(d) =>
        MeanBetweenExtremes(b.temperatures);
        MeanBetweenExtremes(b.humidities);
        MeanBetweenExtremes(b.pressures);
        MeanBetweenExtremes(b.speeds);
        LabelNotEmpty(d);
        Some(Summary(Mean(b.temperatures), Mean(b.humidities), Mean(b.pressures), Mean(b.speeds), d))
  }

  /** The outcome of one call: the instance's lists afterwards, and the
      tuple returned. */
  datatype Run = Run(state: Batch, result: Summary)

  /** `procesar_datos` on an instance whose lists hold `b` when it is called
      (the lists are never reset, so a second call starts from the first's). */
  function ProcessFrom(b: Batch, lines: seq<string>, parse: Parser): (r: Run)
    requires Paired(b)
    ensures Extends(b, r.state) && Paired(r.state)
    ensures r.result == Sentinel || IsLabel(r.result.direction)
  {
    var scan := Scan(b, lines, parse);
    if !scan.complete then Run(scan.batch, Sentinel)
    else
      match Summarize(scan.batch)
      case None => Run(scan.batch, Sentinel)
      case Some(s) => Run(scan.batch, s)
  }

  /** The file is usable: every line classifies, each required list gets at
      least one value, and every wind label is a key of the table. */
  predicate Succeeds(lines: seq<string>, parse: Parser)
  {
    && Parsed(lines, parse)
    && var c := Columns(Readings(lines, parse));
       && |c.temperatures| > 0 && |c.humidities| > 0 && |c.pressures| > 0 && |c.speeds| > 0
       && forall i :: 0 <= i < |c.directions| ==> IsLabel(c.directions[i])
  }

  /** `DatosMeteorologicos(path).procesar_datos()` on a fresh instance, the
      file's lines given. */
  function Process(lines: seq<string>, parse: Parser): (r: Summary)
    ensures r == Sentinel <==> !Succeeds(lines, parse)
  {
    FreshScan(lines, parse);
    ProcessFrom(Empty, lines, parse).result
  }

  /** On a usable file each field is the mean of its filtered column, and the
      direction is the predominant one of the wind labels in file order. */
  lemma ProcessComputesMeans(lines: seq<string>, parse: Parser)
    requires Succeeds(lines, parse)
    ensures var r, c := Process(lines, parse), Columns(Readings(lines, parse));
            && r.temperature == Mean(c.temperatures)
            && r.humidity == Mean(c.humidities)
            && r.pressure == Mean(c.pressures)
            && r.windSpeed == Mean(c.speeds)
            && Predominant(c.directions) == Some(r.direction)
  {
    FreshScan(lines, parse);
  }

  /** On a fresh instance the lists after the loop are exactly the columns. */
  lemma FreshScan(lines: seq<string>, parse: Parser)
    ensures Parsed(lines, parse) ==>
              && Scan(Empty, lines, parse) == ScanResult(Columns(Readings(lines, parse)), true)
              && Paired(Columns(Readings(lines, parse)))
  {
    if Parsed(lines, parse) {
      var c := Columns(Readings(lines, parse));
      ScanCollects(Empty, lines, parse);
      ColumnsPaired(Readings(lines, parse));
      assert Concat(Empty, c) == c;
    }
  }

  /** On an instance whose lists hold `b`, a file that parses leaves the lists
      as `b` followed by the file's columns, and the tuple is the summary of
      those lists, or the sentinel where summarising raises. */
  lemma ProcessFromCollects(b: Batch, lines: seq<string>, parse: Parser)
    requires Paired(b) && Parsed(lines, parse)
    ensures var c := Concat(b, Columns(Readings(lines, parse)));
            && Paired(c)
            && ProcessFrom(b, lines, parse).state == c
            && ProcessFrom(b, lines, parse).result == (match Summarize(c) case None => Sentinel case Some(s) => s)
  {
    ScanCollects(b, lines, parse);
  }

  /** Listing every value twice changes none of the results. */
  lemma SummarizeOfDoubled(b: Batch)
    requires Paired(b)
    ensures Paired(Concat(b, b))
    ensures Summarize(Concat(b, b)) == Summarize(b)
  {
    var bb := Concat(b, b);
    PredominantOfDoubled(b.directions);
    if |b.temperatures| > 0 { MeanOfDoubled(b.temperatures); }
    if |b.humidities| > 0 { MeanOfDoubled(b.humidities); }
    if |b.pressures| > 0 { MeanOfDoubled(b.pressures); }
    if |b.speeds| > 0 { MeanOfDoubled(b.speeds); }
  }

  /** Calling `procesar_datos` a second time on the same instance and file
      appends every value again, yet returns the same tuple as the first call. */
  lemma RerunSameInstance(lines: seq<string>, parse: Parser)
    ensures var first := ProcessFrom(Empty, lines, parse);
            ProcessFrom(first.state, lines, parse).result == first.result
  {
    var first := ProcessFrom(Empty, lines, parse);
    FreshScan(lines, parse);
    if Parsed(lines, parse) {
      var c := Columns(Readings(lines, parse));
      assert first.state == c;
      ScanCollects(c, lines, parse);
      SummarizeOfDoubled(c);
    }
  }

  /** A value picked from some reading shows up in the column. */
  lemma {:induction false} InColumn<T>(rs: seq<Reading>, i: nat, pick: Reading -> Option<T>)
    requires i < |rs| && pick(rs[i]).Some?
    ensures pick(rs[i]).value in Column(rs, pick)
  {
    if i > 0 {
      InColumn(rs[1..], i - 1, pick);
    }
  }

  /** One wind line whose label is not exactly a key of the table sinks the
      whole file. */
  lemma UnknownLabelFails(lines: seq<string>, parse: Parser, i: nat, speed: real, d: string)
    requires i < |lines|
    requires Classify(lines[i], parse) == Some(Wind(speed, d))
    requires !IsLabel(d)
    ensures Process(lines, parse) == Sentinel
  {
    if Parsed(lines, parse) {
      var rs := Readings(lines, parse);
      InColumn(rs, i, PickDirection);
    }
  }

  /** The wind line as `readlines` returns it, newline still attached, yields
      the label "<direction>\n": the whole file then gives the sentinel. */
  lemma NewlineLabelFails(lines: seq<string>, parse: Parser, i: nat, speedText: string, text: string)
    requires i < |lines|
    requires lines[i] == WindTag + speedText + "," + text
    requires ',' !in speedText && Free(speedText, ": ")
    requires ',' !in text && Free(text, ": ")
    requires '\n' in text
    ensures Process(lines, parse) == Sentinel
  {
    WindLabelVerbatim(speedText, text, parse);
    NewlineNeverALabel(text);
    match parse(speedText)
    case None =>
    case Some(v) => UnknownLabelFails(lines, parse, i, v, text);
  }
}
