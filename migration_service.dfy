/** The CSV import of src/services/migration.service.ts over the text of the file (reading the
    file is not modelled). The geo-location service it hands the result to is a recorder of
    the batches it receives. */
module MigrationService {
  import opened Wrappers
  import opened Types
  import opened JsString
  import opened CsvParser

  /** The `insertBatch` calls the geo-location service receives, in call order. */
  class BatchSink {
    var batches: seq<seq<GeoLocation>>

    constructor()
      ensures batches == []
    {
      batches := [];
    }

    method InsertBatch(locations: seq<GeoLocation>)
      modifies this
      ensures batches == old(batches) + [locations]
    {
      batches := batches + [locations];
    }
  }

  /** What one data line contributes (lines 17-26): nothing when it is blank after trimming,
      is not a six-field row, or has a field that is not a number; otherwise its location. */
  function LineLocation(line: string, parseFloat: ParseFloat): Option<GeoLocation>
  {
    var trimmed := Trim(line);
    if trimmed == [] then None
    else match ParseCsvLine(trimmed)
      case None => None
      case Some(row) =>
        var location := ConvertToGeoLocation(row, parseFloat);
        if !IsValidGeoLocation(location) then None else Some(ToGeoLocation(location))
  }

  /** A line reader: the location a line gives, if any. */
  type LineReader = string -> Option<GeoLocation>

  /** The reader of `migrateFromCsv`. */
  function Reader(parseFloat: ParseFloat): LineReader
  {
    line => LineLocation(line, parseFloat)
  }

  /** The locations some lines give, in line order. */
  function Collect(lines: seq<string>, read: LineReader): seq<GeoLocation>
  {
    if lines == [] then []
    else
      var init := Collect(lines[..|lines| - 1], read);
      var location := read(lines[|lines| - 1]);
      if location.Some? then init + [location.value] else init
  }

  /** The locations read from a whole file: every line but the first (the header). */
  function Migrated(content: string, parseFloat: ParseFloat): seq<GeoLocation>
  {
    Collect(Split(content, '\n')[1..], Reader(parseFloat))
  }

  /** The body of the loop of `migrateFromCsv` (lines 17-26) for one data line, each
      `continue` an early return of nothing. */
  method ReadLine(rawLine: string, parseFloat: ParseFloat) returns (location: Option<GeoLocation>)
    ensures location == LineLocation(rawLine, parseFloat)
  {
    var line := Trim(rawLine);
    if line == [] {
      return None;
    }
    var csvRow := ParseCsvLine(line);
    if csvRow.None? {
      return None;
    }
    var converted := ConvertToGeoLocation(csvRow.value, parseFloat);
    if !IsValidGeoLocation(converted) {
      return None;
    }
    return Some(ToGeoLocation(converted));
  }

  /** `migrateFromCsv(filePath)` (lines 10-30) on the text of the file. */
  method MigrateFromCsv(content: string, parseFloat: ParseFloat, sink: BatchSink)
    modifies sink
    ensures sink.batches == old(sink.batches) + [Migrated(content, parseFloat)]
  {
    var lines := Split(content, '\n');
    var locations: seq<GeoLocation> := [];
    for i := 1 to |lines|
      invariant locations == Collect(lines[1..i], Reader(parseFloat))
      invariant unchanged(sink)
    {
      CollectStep(lines, i, parseFloat);
      var location := ReadLine(lines[i], parseFloat);
      if location.Some? {
        locations := locations + [location.value];
      }
    }
    assert lines[1..|lines|] == lines[1..];
    assert locations == Migrated(content, parseFloat);
    sink.InsertBatch(locations);
  }

  /** One more data line adds what that line gives. */
  lemma CollectStep(lines: seq<string>, i: nat, parseFloat: ParseFloat)
    requires 1 <= i < |lines|
    ensures Collect(lines[1..i + 1], Reader(parseFloat)) ==
      Collect(lines[1..i], Reader(parseFloat)) +
        (if LineLocation(lines[i], parseFloat).Some? then [LineLocation(lines[i], parseFloat).value] else [])
  {
    assert lines[1..i + 1][..i - 1] == lines[1..i];
  }

  /** A line gives a location exactly when its trimmed text is a six-field row whose five
      numbers all parse; the location then carries the row's id and numbers. */
  lemma LineLocationMeaning(line: string, parseFloat: ParseFloat)
    ensures LineLocation(line, parseFloat).Some? <==>
      ParseCsvLine(Trim(line)).Some? && IsValidGeoLocation(ConvertToGeoLocation(ParseCsvLine(Trim(line)).value, parseFloat))
    ensures LineLocation(line, parseFloat).Some? ==>
      var row := ParseCsvLine(Trim(line)).value;
      LineLocation(line, parseFloat).value == ToGeoLocation(ConvertToGeoLocation(row, parseFloat))
      && LineLocation(line, parseFloat).value.id == Split(Trim(line), ',')[0]
  {
    if Trim(line) == [] {
      assert Split(Trim(line), ',') == [""];
    }
  }

  /** Collecting a concatenation of lines concatenates the results: the file order is kept. */
  lemma {:induction false} CollectAppend(xs: seq<string>, ys: seq<string>, read: LineReader)
    ensures Collect(xs + ys, read) == Collect(xs, read) + Collect(ys, read)
    decreases |ys|
  {
    if ys == [] {
      assert xs + ys == xs;
    } else {
      var init := ys[..|ys| - 1];
      CollectAppend(xs, init, read);
      var whole := xs + ys;
      assert whole[..|whole| - 1] == xs + init && whole[|whole| - 1] == ys[|ys| - 1];
    }
  }

  /** Each collected location comes from one of the lines, and there are never more locations
      than lines. */
  lemma {:induction false} CollectMembers(lines: seq<string>, read: LineReader)
    ensures |Collect(lines, read)| <= |lines|
    ensures forall l | l in Collect(lines, read) :: exists k | 0 <= k < |lines| :: read(lines[k]) == Some(l)
  {
    if lines != [] {
      var init := lines[..|lines| - 1];
      CollectMembers(init, read);
      assert forall k | 0 <= k < |init| :: init[k] == lines[k];
    }
  }

  /** The header is never read: whatever the first line says, the result is that of the lines
      after it; and there are fewer locations than lines in the file. */
  lemma MigratedSkipsHeader(header: string, rest: string, parseFloat: ParseFloat)
    requires '\n' !in header
    ensures Migrated(header + "\n" + rest, parseFloat) == Collect(Split(rest, '\n'), Reader(parseFloat))
    ensures |Migrated(header + "\n" + rest, parseFloat)| <= |Split(header + "\n" + rest, '\n')| - 1
  {
    var tail := "\n" + rest;
    SplitPrefix(header, tail, '\n');
    assert header + "\n" + rest == header + tail;
    assert tail[1..] == rest;
    var parts := Split(header + tail, '\n');
    assert Split(tail, '\n') == [""] + Split(rest, '\n');
    assert parts[1..] == Split(rest, '\n');
    CollectMembers(Split(rest, '\n'), Reader(parseFloat));
  }
}
