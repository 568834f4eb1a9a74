/**
 * The pure part of a climate-data retrieval: the request record sent to the
 * data service and the name of the NetCDF file the data is saved to, both
 * built from the variable, the date range and the coordinates.
 *
 * Coordinates are taken already rendered as text (the way string formatting
 * prints them); the request carries them unchanged.
 */
module Retrieval {
  import opened Wrappers
  import opened Strings

  /** A latitude or longitude, as its rendered text. */
  type Coordinate = string

  datatype Location = Location(longitude: Coordinate, latitude: Coordinate)

  /** The request record: variable list, date list, location and data format. */
  datatype Request = Request(
    variable: seq<string>,
    date: seq<string>,
    location: Location,
    dataFormat: string)

  /** What a retrieval prepares before it contacts the service. */
  datatype Prepared = Prepared(request: Request, filename: string)

  /** Reading the second date of a date range with fewer than two entries fails. */
  datatype RetrievalError = IndexError(length: nat)

  /** The five inputs a filename is made from. */
  datatype FilenameFields = FilenameFields(
    variable: string,
    start: string,
    end: string,
    lat: Coordinate,
    lng: Coordinate)

  const NetCdf: string := "netcdf"
  const Extension: string := ".nc"

  /** The separator between the start and the end of a date interval. */
  const IntervalSeparator: char := '/'

  /** The separator between the fields of an output filename. */
  const FieldSeparator: char := '_'

  /** A single date interval: the start, a slash, then the end. */
  function DateInterval(start: string, end: string): (s: string)
    ensures |s| == |start| + 1 + |end|
    ensures s[..|start|] == start && s[|start|] == IntervalSeparator
    ensures s[|start| + 1..] == end
  {
    start + [IntervalSeparator] + end
  }

  /** The output filename: the five fields joined by underscores, then ".nc". */
  function OutputFilename(variable: string, start: string, end: string, lat: Coordinate, lng: Coordinate): (f: string)
    ensures |f| == |variable| + |start| + |end| + |lat| + |lng| + 4 + |Extension|
    ensures f[..|variable|] == variable && f[|variable|] == FieldSeparator
    ensures f[|variable| + 1..|variable| + 1 + |start|] == start
    ensures f[|variable| + 1 + |start|] == FieldSeparator
    ensures f[|variable| + 2 + |start|..|variable| + 2 + |start| + |end|] == end
    ensures f[|variable| + 2 + |start| + |end|] == FieldSeparator
    ensures f[|variable| + 3 + |start| + |end|..|variable| + 3 + |start| + |end| + |lat|] == lat
    ensures f[|variable| + 3 + |start| + |end| + |lat|] == FieldSeparator
    ensures f[|f| - |Extension|..] == Extension
    ensures f[|f| - |Extension| - |lng| - 1] == FieldSeparator
    ensures f[|f| - |Extension| - |lng|..|f| - |Extension|] == lng
  {
    variable + [FieldSeparator] + start + [FieldSeparator] + end
      + [FieldSeparator] + lat + [FieldSeparator] + lng + Extension
  }

  /** The request for one variable over one date interval at one location, in NetCDF. */
  function BuildRequest(variable: string, start: string, end: string, lat: Coordinate, lng: Coordinate): (q: Request)
    ensures q.variable == [variable]
    ensures |q.date| == 1 && q.date[0] == DateInterval(start, end)
    ensures q.location.longitude == lng && q.location.latitude == lat
    ensures q.dataFormat == NetCdf
  {
    Request([variable], [DateInterval(start, end)], Location(lng, lat), NetCdf)
  }

  /**
   * Reads the fields back from an output filename, from the right, so that a
   * variable may itself contain underscores. None when `f` is not of that form.
   */
  function ParseFilename(f: string): (r: Option<FilenameFields>)
    ensures r.Some? ==>
      var x := r.value;
      f == OutputFilename(x.variable, x.start, x.end, x.lat, x.lng)
      && FieldSeparator !in x.start && FieldSeparator !in x.end
      && FieldSeparator !in x.lat && FieldSeparator !in x.lng
  {
    if |f| < |Extension| || f[|f| - |Extension|..] != Extension then None
    else
      var stem := f[..|f| - |Extension|];
      assert f == stem + Extension;
      match SplitAtLast(stem, FieldSeparator)
      case None => None
      case Some(p1) =>
        match SplitAtLast(p1.0, FieldSeparator)
        case None => None
        case Some(p2) =>
          match SplitAtLast(p2.0, FieldSeparator)
          case None => None
          case Some(p3) =>
            match SplitAtLast(p3.0, FieldSeparator)
            case None => None
            case Some(p4) =>
              Some(FilenameFields(p4.0, p4.1, p3.1, p2.1, p1.1))
  }

  /**
   * Builds the request and the output filename of one retrieval from the
   * variable, the date range (its first two entries are the start and the
   * end) and the rendered coordinates. A date range with fewer than two
   * entries fails as indexing it does.
   */
  function PrepareRetrieval(variable: string, dateRange: seq<string>, lat: Coordinate, lng: Coordinate)
    : (r: Result<Prepared, RetrievalError>)
    ensures r.Failure? <==> |dateRange| < 2
    ensures r.Failure? ==> r.error == IndexError(|dateRange|)
    ensures r.Success? ==>
      var q := r.value.request;
      && q.variable == [variable]
      && q.date == [DateInterval(dateRange[0], dateRange[1])]
      && q.location == Location(lng, lat)
      && q.dataFormat == NetCdf
    ensures r.Success? ==>
      r.value.filename == OutputFilename(variable, dateRange[0], dateRange[1], lat, lng)
    ensures r.Success? ==>
      var f := r.value.filename;
      && |f| >= |Extension| && f[|f| - |Extension|..] == Extension
      && (FieldSeparator !in dateRange[0] && FieldSeparator !in dateRange[1]
          && FieldSeparator !in lat && FieldSeparator !in lng
          ==> ParseFilename(f) == Some(FilenameFields(variable, dateRange[0], dateRange[1], lat, lng)))
  {
    if |dateRange| < 2 then Failure(IndexError(|dateRange|))
    else
      var start, end := dateRange[0], dateRange[1];
      var f := OutputFilename(variable, start, end, lat, lng);
      assert f[|f| - |Extension|..] == Extension;
      assert FieldSeparator !in start && FieldSeparator !in end
             && FieldSeparator !in lat && FieldSeparator !in lng
             ==> ParseFilename(f) == Some(FilenameFields(variable, start, end, lat, lng)) by {
        if FieldSeparator !in start && FieldSeparator !in end
           && FieldSeparator !in lat && FieldSeparator !in lng {
          ParseOutputFilename(variable, start, end, lat, lng);
        }
      }
      Success(Prepared(BuildRequest(variable, start, end, lat, lng), f))
  }

  /** A date interval whose start holds no slash splits back into its start and end. */
  lemma SplitDateInterval(start: string, end: string)
    requires IntervalSeparator !in start
    ensures SplitAtFirst(DateInterval(start, end), IntervalSeparator) == Some((start, end))
  {
    SplitAtFirstOfJoin(start, IntervalSeparator, end);
  }

  /**
   * An output filename whose dates and coordinates hold no underscore parses
   * back into exactly the fields it was made from.
   */
  lemma ParseOutputFilename(variable: string, start: string, end: string, lat: Coordinate, lng: Coordinate)
    requires FieldSeparator !in start && FieldSeparator !in end
    requires FieldSeparator !in lat && FieldSeparator !in lng
    ensures ParseFilename(OutputFilename(variable, start, end, lat, lng))
            == Some(FilenameFields(variable, start, end, lat, lng))
  {
    var f := OutputFilename(variable, start, end, lat, lng);
    var s3 := variable + [FieldSeparator] + start;
    var s2 := s3 + [FieldSeparator] + end;
    var s1 := s2 + [FieldSeparator] + lat;
    var stem := s1 + [FieldSeparator] + lng;
    assert f == stem + Extension;
    assert f[..|f| - |Extension|] == stem;
    assert f[|f| - |Extension|..] == Extension;
    SplitAtLastOfJoin(s1, FieldSeparator, lng);
    SplitAtLastOfJoin(s2, FieldSeparator, lat);
    SplitAtLastOfJoin(s3, FieldSeparator, end);
    SplitAtLastOfJoin(variable, FieldSeparator, start);
  }

  /**
   * Two retrievals whose dates and coordinates hold no underscore get the
   * same filename only when all five inputs are equal, so a file name found
   * on disk identifies the retrieval that wrote it.
   */
  lemma OutputFilenameInjective(x: FilenameFields, y: FilenameFields)
    requires FieldSeparator !in x.start && FieldSeparator !in x.end
    requires FieldSeparator !in x.lat && FieldSeparator !in x.lng
    requires FieldSeparator !in y.start && FieldSeparator !in y.end
    requires FieldSeparator !in y.lat && FieldSeparator !in y.lng
    requires OutputFilename(x.variable, x.start, x.end, x.lat, x.lng)
             == OutputFilename(y.variable, y.start, y.end, y.lat, y.lng)
    ensures x == y
  {
    ParseOutputFilename(x.variable, x.start, x.end, x.lat, x.lng);
    ParseOutputFilename(y.variable, y.start, y.end, y.lat, y.lng);
  }

  /** Worked example: variable "sst" over the year 2000 at latitude 10.0, longitude 20.0. */
  lemma ExampleFilename()
    ensures PrepareRetrieval("sst", ["2000-01-01", "2000-12-31"], "10.0", "20.0")
            == Success(Prepared(
                 Request(["sst"], ["2000-01-01/2000-12-31"], Location("20.0", "10.0"), "netcdf"),
                 "sst_2000-01-01_2000-12-31_10.0_20.0.nc"))
  {
    ExampleParts();
    var r := PrepareRetrieval("sst", ["2000-01-01", "2000-12-31"], "10.0", "20.0");
    assert r.value.filename == "sst_2000-01-01_2000-12-31_10.0_20.0.nc";
  }

  /** The interval and the filename of the worked example, spelled out. */
  lemma ExampleParts()
    ensures DateInterval("2000-01-01", "2000-12-31") == "2000-01-01/2000-12-31"
    ensures OutputFilename("sst", "2000-01-01", "2000-12-31", "10.0", "20.0")
            == "sst_2000-01-01_2000-12-31_10.0_20.0.nc"
  {
    assert "2000-01-01" + [IntervalSeparator] + "2000-12-31" == "2000-01-01/2000-12-31";
    assert "sst" + [FieldSeparator] + "2000-01-01" + [FieldSeparator] + "2000-12-31"
      + [FieldSeparator] + "10.0" + [FieldSeparator] + "20.0" + Extension
      == "sst_2000-01-01_2000-12-31_10.0_20.0.nc";
  }
}
