/** The CSV helpers of src/utils/csv-parser.ts. `parseFloat` is a parameter: it reads a number
    from text or gives NaN. */
module CsvParser {
  import opened Wrappers
  import opened Types
  import opened JsString

  /** A JavaScript number as `parseFloat` returns it: a finite value or NaN. */
  datatype Float = Num(value: real) | NaN

  type ParseFloat = string -> Float

  /** The six fields of a row, in column order. */
  function Fields(row: CsvRow): seq<string>
  {
    [row.randomizedId, row.lat, row.lng, row.alt, row.spd, row.azm]
  }

  /** `parseCsvLine(line)` (lines 3-15): split on every comma, with no quoting; exactly six
      pieces make a row, assigned by position. */
  function ParseCsvLine(line: string): Option<CsvRow>
  {
    var parts := Split(line, ',');
    if |parts| != 6 then None else Some(CsvRow(parts[0], parts[1], parts[2], parts[3], parts[4], parts[5]))
  }

  /** Splitting yields one piece more than there are separators. */
  lemma {:induction false} SplitCount(s: string, sep: char)
    ensures |Split(s, sep)| == multiset(s)[sep] + 1
  {
    if s != [] {
      SplitCount(s[1..], sep);
      assert s == [s[0]] + s[1..];
    }
  }

  /** A line makes a row exactly when it holds five commas. */
  lemma ParseCsvLineCommas(line: string)
    ensures ParseCsvLine(line).Some? <==> multiset(line)[','] == 5
  {
    SplitCount(line, ',');
  }

  /** The fields of a row read from a line are the pieces between its commas, none of them
      holds a comma, and joining them with commas gives the line back. */
  lemma ParseCsvLineFields(line: string)
    ensures ParseCsvLine(line).Some? ==>
      var row := ParseCsvLine(line).value;
      && Fields(row) == Split(line, ',')
      && (forall f | f in Fields(row) :: ',' !in f)
      && Join(Fields(row), ',') == line
  {
    var parts := Split(line, ',');
    JoinSplit(line, ',');
    if |parts| == 6 {
      var row := CsvRow(parts[0], parts[1], parts[2], parts[3], parts[4], parts[5]);
      assert Fields(row) == parts;
    }
  }

  /** A row whose fields hold no comma is read back from its comma-joined line. */
  lemma ParseCsvLineRoundTrip(row: CsvRow)
    requires forall f | f in Fields(row) :: ',' !in f
    ensures ParseCsvLine(Join(Fields(row), ',')) == Some(row)
  {
    SplitJoin(Fields(row), ',');
  }

  /** Text that trims to nothing is never a row, so the blank-line test of the migration only
      saves work. */
  lemma BlankLineRejected(line: string)
    requires AllWhiteSpace(line)
    ensures ParseCsvLine(Trim(line)).None?
  {
    TrimEmpty(line);
    assert Split("", ',') == [""];
  }

  /** A `GeoLocation` straight out of `convertToGeoLocation`, whose numbers may be NaN. */
  datatype ParsedLocation = ParsedLocation(id: string, lat: Float, lng: Float, alt: Float, spd: Float, azm: Float)

  /** `convertToGeoLocation(row)` (lines 17-24). */
  function ConvertToGeoLocation(row: CsvRow, parseFloat: ParseFloat): ParsedLocation
  {
    ParsedLocation(row.randomizedId, parseFloat(row.lat), parseFloat(row.lng), parseFloat(row.alt),
                   parseFloat(row.spd), parseFloat(row.azm))
  }

  /** `isValidGeoLocation(location)` (lines 26-32): no number is NaN. */
  predicate IsValidGeoLocation(loc: ParsedLocation)
  {
    !loc.lat.NaN? && !loc.lng.NaN? && !loc.alt.NaN? && !loc.spd.NaN? && !loc.azm.NaN?
  }

  /** A valid parsed location as a location of finite numbers. */
  function ToGeoLocation(loc: ParsedLocation): GeoLocation
    requires IsValidGeoLocation(loc)
  {
    GeoLocation(loc.id, loc.lat.value, loc.lng.value, loc.alt.value, loc.spd.value, loc.azm.value)
  }

  /** The id is copied unchanged, and the converted row is valid exactly when every numeric
      field parses to a number; its numbers are then the parsed values, in column order. */
  lemma ConvertMeaning(row: CsvRow, parseFloat: ParseFloat)
    ensures ConvertToGeoLocation(row, parseFloat).id == row.randomizedId
    ensures IsValidGeoLocation(ConvertToGeoLocation(row, parseFloat)) <==>
      forall k | 1 <= k < 6 :: parseFloat(Fields(row)[k]).Num?
    ensures IsValidGeoLocation(ConvertToGeoLocation(row, parseFloat)) ==>
      var loc := ToGeoLocation(ConvertToGeoLocation(row, parseFloat));
      && loc.id == row.randomizedId
      && parseFloat(row.lat) == Num(loc.lat) && parseFloat(row.lng) == Num(loc.lng)
      && parseFloat(row.alt) == Num(loc.alt) && parseFloat(row.spd) == Num(loc.spd)
      && parseFloat(row.azm) == Num(loc.azm)
  {
    var fs := Fields(row);
    assert fs[1] == row.lat && fs[2] == row.lng && fs[3] == row.alt && fs[4] == row.spd && fs[5] == row.azm;
  }
}
