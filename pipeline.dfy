/**
 * The whole run: the early-exit validation chain, the request loop, the
 * mapping loop that fills the layer, and the hand-off to the project.
 * Every exit, early or final, shuts the session down first.
 */
module Pipeline {
  import opened Wrappers
  import opened Address
  import opened Csv
  import opened Api
  import opened Request
  import opened Mapping
  import opened Layer

  /** Why a run stopped before building a layer. */
  datatype Failure =
    | NoFileSelected        // the file dialog returned no path
    | CsvLoadError          // `read_csv` raised
    | MissingAddressColumn  // no `adresse` column
    | CsvSaveError          // `to_csv` raised
    | InvalidLayer          // the re-opened delimited-text layer is not valid

  /**
   * The checks before any request is sent. `readCsv` is the parse of the
   * chosen file, `writeCsv` whether saving the normalised table succeeds,
   * `layerValid` whether the saved table re-opens as a valid layer. On
   * success, the result is the addresses to query: the normalised `adresse`
   * cells, one per row, in row order.
   */
  function Prepare(csvFile: string, readCsv: string -> Option<Table>,
                   writeCsv: Table -> bool, layerValid: Table -> bool): (r: Result<seq<string>, Failure>)
    ensures r.Ok? ==> csvFile != "" && readCsv(csvFile).Some? && ADDRESS_COLUMN in readCsv(csvFile).value.columns
    ensures r.Ok? ==> |r.value| == |readCsv(csvFile).value.rows|
    ensures r.Ok? ==> forall i :: 0 <= i < |r.value| ==>
              r.value[i] == Normalise(readCsv(csvFile).value.rows[i][ADDRESS_COLUMN]) && SpaceFree(r.value[i])
  {
    if csvFile == "" then Err(NoFileSelected)
    else match readCsv(csvFile)
      case None => Err(CsvLoadError)
      case Some(df) =>
        if ADDRESS_COLUMN !in df.columns then Err(MissingAddressColumn)
        else
          var normalised := NormaliseAddresses(df);
          if !writeCsv(normalised) then Err(CsvSaveError)
          else if !layerValid(normalised) then Err(InvalidLayer)
          else
            var addresses := Addresses(normalised);
            assert forall i :: 0 <= i < |addresses| ==> SpaceFree(addresses[i]) by {
              forall i | 0 <= i < |addresses| ensures SpaceFree(addresses[i]) {
                NormaliseSpaceFree(df.rows[i][ADDRESS_COLUMN]);
              }
            }
            Ok(addresses)
  }

  /** Each early exit happens exactly under its own condition, in the order the checks run. */
  lemma PrepareFailures(csvFile: string, readCsv: string -> Option<Table>,
                        writeCsv: Table -> bool, layerValid: Table -> bool)
    ensures Prepare(csvFile, readCsv, writeCsv, layerValid) == Err(NoFileSelected) <==> csvFile == ""
    ensures Prepare(csvFile, readCsv, writeCsv, layerValid) == Err(CsvLoadError) <==>
              csvFile != "" && readCsv(csvFile).None?
    ensures Prepare(csvFile, readCsv, writeCsv, layerValid) == Err(MissingAddressColumn) <==>
              csvFile != "" && readCsv(csvFile).Some? && ADDRESS_COLUMN !in readCsv(csvFile).value.columns
    ensures Prepare(csvFile, readCsv, writeCsv, layerValid) == Err(CsvSaveError) <==>
              csvFile != "" && readCsv(csvFile).Some? && ADDRESS_COLUMN in readCsv(csvFile).value.columns &&
              !writeCsv(NormaliseAddresses(readCsv(csvFile).value))
    ensures Prepare(csvFile, readCsv, writeCsv, layerValid) == Err(InvalidLayer) <==>
              csvFile != "" && readCsv(csvFile).Some? && ADDRESS_COLUMN in readCsv(csvFile).value.columns &&
              writeCsv(NormaliseAddresses(readCsv(csvFile).value)) &&
              !layerValid(NormaliseAddresses(readCsv(csvFile).value))
  {
  }

  /**
   * The points a run puts on the layer it registers, or why it stopped: a
   * run stops exactly when a check fails, and otherwise yields at most one
   * point per feature of the answers, each with one attribute per field.
   */
  function Geocode(csvFile: string, readCsv: string -> Option<Table>, writeCsv: Table -> bool,
                   layerValid: Table -> bool, fetch: Fetcher)
    : (r: Result<seq<PointFeature>, Failure>)
    ensures r.Err? <==> Prepare(csvFile, readCsv, writeCsv, layerValid).Err?
    ensures r.Err? ==> r.error == Prepare(csvFile, readCsv, writeCsv, layerValid).error
    ensures r.Ok? ==> forall p :: p in r.value ==> |p.attributes| == |SCHEMA|
  {
    match Prepare(csvFile, readCsv, writeCsv, layerValid)
    case Err(e) => Err(e)
    case Ok(addresses) => Ok(Points(ResponseList(addresses, fetch)))
  }

  /** The inner loop over `data['features']`: one point per feature that has coordinates. */
  method AddFeaturePoints(layer: MemoryLayer, features: seq<Feature>)
    modifies layer
    ensures layer.features == old(layer.features) + FeatureListPoints(features)
    ensures layer.fields == old(layer.fields)
  {
    for j := 0 to |features|
      invariant layer.features == old(layer.features) + FeatureListPoints(features[..j])
      invariant layer.fields == old(layer.fields)
    {
      var feature := features[j];
      FeatureListPointsSnoc(features[..j], feature);
      assert features[..j + 1] == features[..j] + [feature];
      if |feature.coordinates| > 0 {
        var x, y := feature.coordinates[0], feature.coordinates[1];
        var newFeature := PointFeature(Point(x, y), Attributes(feature));
        assert FeaturePoints(feature) == [newFeature];
        layer.AddFeature(newFeature);
      } else {
        assert FeaturePoints(feature) == [];
      }
    }
    assert features[..|features|] == features;
  }

  /**
   * One entry of `response_list`: a body with `features` adds the points of
   * its features; `None` or a body without `features` adds none.
   */
  method AddResponsePoints(layer: MemoryLayer, data: Option<Response>)
    modifies layer
    ensures layer.features == old(layer.features) + ResponsePoints(data)
    ensures layer.fields == old(layer.fields)
  {
    if data.Some? && data.value.features.Some? {
      AddFeaturePoints(layer, data.value.features.value);
    }
  }

  /** The mapping loop over `response_list`, entry by entry, in order. */
  method AddGeocodedPoints(layer: MemoryLayer, responseList: seq<Option<Response>>)
    modifies layer
    ensures layer.features == old(layer.features) + Points(responseList)
    ensures layer.fields == old(layer.fields)
  {
    ghost var before := layer.features;
    if |responseList| > 0 {
      for index := 0 to |responseList|
        invariant layer.features == before + Points(responseList[..index])
        invariant layer.fields == old(layer.fields)
      {
        PointsStep(responseList, index);
        AddResponsePoints(layer, responseList[index]);
      }
      assert responseList[..|responseList|] == responseList;
    }
  }

  /**
   * One run of the script on an initialised session. On every path the
   * session is shut down. A run that fails a check registers nothing; a run
   * that passes them registers one new layer with the 15 declared fields
   * and exactly the points `Geocode` describes.
   */
  method Run(session: Session, csvFile: string, readCsv: string -> Option<Table>, writeCsv: Table -> bool,
             layerValid: Table -> bool, fetch: Fetcher)
    returns (outcome: Result<MemoryLayer, Failure>)
    requires session.running
    modifies session
    ensures !session.running
    ensures Geocode(csvFile, readCsv, writeCsv, layerValid, fetch).Err? ==>
              outcome == Err(Geocode(csvFile, readCsv, writeCsv, layerValid, fetch).error) &&
              session.mapLayers == old(session.mapLayers)
    ensures Geocode(csvFile, readCsv, writeCsv, layerValid, fetch).Ok? ==>
              outcome.Ok? && fresh(outcome.value) &&
              session.mapLayers == old(session.mapLayers) + [outcome.value] &&
              outcome.value.crs == "epsg:4326" &&
              outcome.value.fields == SCHEMA &&
              outcome.value.features == Geocode(csvFile, readCsv, writeCsv, layerValid, fetch).value &&
              outcome.value.Conforms()
  {
    if csvFile == "" {
      session.ExitQgis();
      return Err(NoFileSelected);
    }
    var loaded := readCsv(csvFile);
    if loaded.None? {
      session.ExitQgis();
      return Err(CsvLoadError);
    }
    var df := loaded.value;
    if ADDRESS_COLUMN !in df.columns {
      session.ExitQgis();
      return Err(MissingAddressColumn);
    }
    df := NormaliseAddresses(df);
    if !writeCsv(df) {
      session.ExitQgis();
      return Err(CsvSaveError);
    }
    if !layerValid(df) {
      session.ExitQgis();
      return Err(InvalidLayer);
    }

    var layer := new MemoryLayer("Pointlayer", "epsg:4326");
    layer.AddAttributes(SCHEMA);

    var responseList := FetchAll(Addresses(df), fetch);
    AddGeocodedPoints(layer, responseList);
    assert forall i :: 0 <= i < |layer.features| ==> layer.features[i] in Points(responseList);

    session.AddMapLayer(layer);
    session.ExitQgis();
    return Ok(layer);
  }
}

/**
 * Worked runs on small tables: one or two rows, with the host collaborators
 * fixed by small functions. The address texts are left open.
 */
module Scenarios {
  import opened Wrappers
  import opened Address
  import opened Csv
  import opened Api
  import opened Request
  import opened Mapping
  import opened Pipeline

  /** A table with only the `adresse` column, one row per given address. */
  function Rows(addresses: seq<string>): (t: Table)
    ensures ADDRESS_COLUMN in t.columns && |t.rows| == |addresses|
  {
    Frame({ADDRESS_COLUMN}, seq(|addresses|, i requires 0 <= i < |addresses| => map[ADDRESS_COLUMN := addresses[i]]))
  }

  /** A reply with one feature at (2.3299, 48.8698) in Paris. */
  const PAIX_FEATURE: Feature := Feature([2.3299, 48.8698], map["city" := Text("Paris")])
  const PAIX_REPLY: Response := Response(Some([PAIX_FEATURE]))

  function Succeeds(t: Table): (ok: bool) { true }
  function AnswerPaix(n: nat, url: string): (reply: Result<Response, RequestException>) { Ok(PAIX_REPLY) }
  function AnswerNothing(n: nat, url: string): (reply: Result<Response, RequestException>) { Ok(Response(Some([]))) }

  /** The first request is answered with the Paris feature; every later one raises. */
  function AnswerFirstOnly(n: nat, url: string): (reply: Result<Response, RequestException>)
  {
    if n == 0 then Ok(PAIX_REPLY) else Err(RequestException("connection refused"))
  }

  lemma OnePaixPoint()
    ensures Points([Some(PAIX_REPLY)]) == [PointOf(PAIX_FEATURE)]
  {
    assert FeatureListPoints([PAIX_FEATURE]) == FeaturePoints(PAIX_FEATURE) + FeatureListPoints([]);
    assert Points([Some(PAIX_REPLY)]) == ResponsePoints(Some(PAIX_REPLY)) + Points([]);
  }

  /** One row, one feature: one point at the feature's coordinates, with its city and default label. */
  lemma OneAddressOnePoint(address: string)
    ensures var r := Geocode("adresses.csv", _ => Some(Rows([address])), Succeeds, Succeeds, AnswerPaix);
            r.Ok? && |r.value| == 1 &&
            r.value[0].geometry == Point(2.3299, 48.8698) &&
            r.value[0].attributes[9] == Text("Paris") &&
            r.value[0].attributes[0] == Text("")
  {
    var readCsv := _ => Some(Rows([address]));
    var addresses := Prepare("adresses.csv", readCsv, Succeeds, Succeeds).value;
    ResponseListAt(addresses, AnswerPaix);
    assert ResponseList(addresses, AnswerPaix) == [Some(PAIX_REPLY)];
    OnePaixPoint();
  }

  /**
   * Two rows (possibly the same address twice) whose second request fails:
   * one point, and the run still completes.
   */
  lemma FailedRequestIsSkipped(first: string, second: string)
    ensures var r := Geocode("adresses.csv", _ => Some(Rows([first, second])), Succeeds, Succeeds, AnswerFirstOnly);
            r.Ok? && |r.value| == 1 && r.value[0].geometry == Point(2.3299, 48.8698)
  {
    var fetch := AnswerFirstOnly;
    var readCsv := _ => Some(Rows([first, second]));
    var addresses := Prepare("adresses.csv", readCsv, Succeeds, Succeeds).value;
    ResponseListAt(addresses, fetch);
    var rs := ResponseList(addresses, fetch);
    assert rs == [Some(PAIX_REPLY)] + [None];
    PointsAppend([Some(PAIX_REPLY)], [None]);
    assert Points([None]) == ResponsePoints(None) + Points([]);
    OnePaixPoint();
  }

  /** An empty `features` list: no point, and the run still completes. */
  lemma EmptyFeaturesGiveNoPoint(address: string)
    ensures Geocode("adresses.csv", _ => Some(Rows([address])), Succeeds, Succeeds, AnswerNothing) == Ok([])
  {
    var readCsv := _ => Some(Rows([address]));
    var addresses := Prepare("adresses.csv", readCsv, Succeeds, Succeeds).value;
    ResponseListAt(addresses, AnswerNothing);
    assert ResponseList(addresses, AnswerNothing) == [Some(Response(Some([])))];
    assert Points([Some(Response(Some([])))]) == ResponsePoints(Some(Response(Some([])))) + Points([]);
  }
}
