/**
 * The input check (src/input_data.py): before a run starts, `verify_input`
 * walks the user's input in a fixed order and reports the first problem with
 * its own message. GeoJSON text is accepted when it parses to an object whose
 * "type" member is one of the nine GeoJSON types of section 1.4 of RFC 7946.
 * JSON parsing and the file-system lookup are parameters.
 */
module InputData {
  import opened Wrappers

  datatype City = NoCity | Copenhagen

  datatype PopulationType = TiffFile | GeoJsonFile | Number

  datatype Input = Input(
    populationType: PopulationType,
    city: City,
    populationNumber: int,
    osmBboxGeoJson: string,
    dangerZonesGeoJson: string,
    worldpopFilePath: string)

  /** A JSON member value as far as the check looks at it: a string, or anything else. */
  datatype JsonValue = JsonString(text: string) | OtherValue

  /**
   * What `json.loads` makes of a text: a syntax error, a value that is not an
   * object, or an object with or without a "type" member.
   */
  datatype ParsedJson = SyntaxError | NotAnObject | JsonObject(typeMember: JsonValue) | ObjectWithoutType

  /** The GeoJSON types of section 1.4 of RFC 7946. */
  const GeoJsonTypes: set<string> := {
    "Feature", "FeatureCollection",
    "Point", "LineString", "Polygon",
    "MultiPoint", "MultiLineString", "MultiPolygon",
    "GeometryCollection"
  }

  /**
   * `_is_valid_geojson`: the text must parse to an object whose "type" is a
   * GeoJSON type; a syntax error, a non-object, a missing "type", or a "type"
   * that is not a string all make it invalid.
   */
  predicate IsValidGeoJson(parse: string -> ParsedJson, text: string) {
    var parsed := parse(text);
    parsed.JsonObject? && parsed.typeMember.JsonString? && parsed.typeMember.text in GeoJsonTypes
  }

  /** Exactly the nine GeoJSON types are recognised. */
  lemma NineGeoJsonTypes()
    ensures |GeoJsonTypes| == 9
  {
  }

  /**
   * The city checks: without a city both the bounding box and the danger zone
   * must be present and valid, in that order; for Copenhagen only a non-empty
   * danger zone is checked. `None` means they pass.
   */
  function CityProblem(input: Input, parse: string -> ParsedJson): (problem: Option<string>)
    ensures problem.Some? ==> problem.value != []
  {
    match input.city
    case NoCity =>
      if input.osmBboxGeoJson == [] then Some("OSM city, geojson empty")
      else if !IsValidGeoJson(parse, input.osmBboxGeoJson) then Some("OSM city, Invalid geojson")
      else if input.dangerZonesGeoJson == [] then Some("OSM dangerzone, geojson empty")
      else if !IsValidGeoJson(parse, input.dangerZonesGeoJson) then Some("OSM dangerzone, Invalid geojson")
      else None
    case Copenhagen =>
      if input.dangerZonesGeoJson != [] && !IsValidGeoJson(parse, input.dangerZonesGeoJson) then
        Some("CPH city, danger zone is invalid geojson")
      else None
  }

  /**
   * `verify_input`: the city checks, then the population checks. A worldpop
   * file must exist, a GeoJSON population is accepted as it is, and a number of
   * people must be positive.
   */
  function VerifyInput(input: Input, parse: string -> ParsedJson, fileExists: string -> bool): (r: (bool, string))
    ensures r.0 <==> r.1 == []
  {
    var cityProblem := CityProblem(input, parse);
    if cityProblem.Some? then (false, cityProblem.value)
    else match input.populationType
      case TiffFile =>
        if !fileExists(input.worldpopFilePath) then (false, "Worldpop tiff file not found") else (true, "")
      case GeoJsonFile => (true, "")
      case Number =>
        if input.populationNumber <= 0 then (false, "Population number must be greater than 0") else (true, "")
  }

  /**
   * The input is accepted exactly when the city checks pass and the population
   * check for its kind passes; the GeoJSON population ignores the number and the
   * file path.
   */
  lemma AcceptedExactly(input: Input, parse: string -> ParsedJson, fileExists: string -> bool)
    ensures VerifyInput(input, parse, fileExists).0 <==>
      && CityProblem(input, parse).None?
      && (input.populationType.TiffFile? ==> fileExists(input.worldpopFilePath))
      && (input.populationType.Number? ==> input.populationNumber > 0)
  {
  }

  /** Without a city the four checks run in order, so an empty box is reported before anything else. */
  lemma NoCityCheckOrder(input: Input, parse: string -> ParsedJson, fileExists: string -> bool)
    requires input.city == NoCity
    ensures input.osmBboxGeoJson == [] ==> VerifyInput(input, parse, fileExists) == (false, "OSM city, geojson empty")
    ensures input.osmBboxGeoJson != [] && !IsValidGeoJson(parse, input.osmBboxGeoJson) ==>
      VerifyInput(input, parse, fileExists) == (false, "OSM city, Invalid geojson")
    ensures IsValidGeoJson(parse, input.osmBboxGeoJson) && input.osmBboxGeoJson != [] && input.dangerZonesGeoJson == [] ==>
      VerifyInput(input, parse, fileExists) == (false, "OSM dangerzone, geojson empty")
    ensures (IsValidGeoJson(parse, input.osmBboxGeoJson) && input.osmBboxGeoJson != [] && input.dangerZonesGeoJson != []
             && !IsValidGeoJson(parse, input.dangerZonesGeoJson)) ==>
      VerifyInput(input, parse, fileExists) == (false, "OSM dangerzone, Invalid geojson")
  {
  }

  /** For Copenhagen an empty danger zone is fine; a given one must be valid. */
  lemma CopenhagenDangerZone(input: Input, parse: string -> ParsedJson, fileExists: string -> bool)
    requires input.city == Copenhagen
    ensures input.dangerZonesGeoJson == [] ==> CityProblem(input, parse).None?
    ensures input.dangerZonesGeoJson != [] ==> (CityProblem(input, parse).None? <==> IsValidGeoJson(parse, input.dangerZonesGeoJson))
    ensures input.populationType.GeoJsonFile? ==>
      VerifyInput(input, parse, fileExists) == if input.dangerZonesGeoJson == [] || IsValidGeoJson(parse, input.dangerZonesGeoJson) then (true, "") else (false, "CPH city, danger zone is invalid geojson")
  {
  }

  /** Once the city checks pass, the population checks give their own messages. */
  lemma PopulationMessages(input: Input, parse: string -> ParsedJson, fileExists: string -> bool)
    requires CityProblem(input, parse).None?
    ensures input.populationType.GeoJsonFile? ==> VerifyInput(input, parse, fileExists) == (true, "")
    ensures input.populationType.Number? && input.populationNumber <= 0 ==>
      VerifyInput(input, parse, fileExists) == (false, "Population number must be greater than 0")
    ensures input.populationType.TiffFile? && !fileExists(input.worldpopFilePath) ==>
      VerifyInput(input, parse, fileExists) == (false, "Worldpop tiff file not found")
  {
  }
}
