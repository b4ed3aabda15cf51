# Batch geocoding of a CSV of addresses — a Dafny model

The script `Script_geocodage.py` reads a CSV file chosen by the user, checks
that it has an `adresse` column, replaces every space of that column with `+`,
saves the table and re-opens it as a layer without geometry, sends one request
per address to the national address search API
(`https://api-adresse.data.gouv.fr/search/?q=<address>&limit=1`), and turns
every located feature of every answer into a point of an in-memory layer with
a fixed 15-field schema. The layer is then handed to the QGIS project, and the
QGIS session is shut down. Every failed check before the requests also shuts
the session down and ends the run without a layer.

This project models that data path:

- `address.dfy` (module `Address`): the space-to-`+` normalisation, with its
  reference definition as Python's `'+'.join(s.split(' '))`.
- `csv.dfy` (module `Csv`): the parsed table (a set of column names and rows
  that give a cell for every column), the column rewrite and the address list.
- `api.dfy` (module `Api`): the parts of an API answer the script reads.
- `request.dfy` (module `Request`): the request URL and the request loop that
  fills `response_list`. The HTTP round trip is a function parameter `fetch`:
  `fetch(n, url)` is the parsed body, or the `RequestException`, of the
  request numbered `n` (from 0) sent to `url`. Two requests for the same URL
  can therefore get different outcomes.
- `mapping.dfy` (module `Mapping`): the declared schema, the attribute list of
  one feature, and the drop rules of the nested loop that adds points.
- `layer.dfy` (module `Layer`): the memory layer with its data provider, and
  the QGIS session with the project's layer registry, as classes whose methods
  change their fields.
- `pipeline.dfy` (modules `Pipeline`, `Scenarios`): the early-exit chain, the
  loops run against the layer, the whole run, and three worked examples.

Two details of the script that the model keeps:

- The request asks for `limit=1`, but the mapping loop walks every feature of
  `data['features']` (`Script_geocodage.py:107`), not only the first one.
  `Mapping.FirstFeatureAgrees` shows that the two readings agree when an
  answer has at most one feature.
- An answer with `features: []` stays in `response_list` as a body and adds no
  point, because its feature loop does nothing. An answer without a `features`
  key adds no point either.

The host collaborators are parameters of `Pipeline.Run`: the chosen path
(`""` when the dialog is cancelled), the CSV parse (`readCsv`, `None` when
`read_csv` raises), the save of the normalised table (`writeCsv`, false when
`to_csv` raises), the validity of the re-opened layer (`layerValid`), and the
numbered HTTP round trip (`fetch`). The re-opened layer yields the rows that were saved.

## Model

| member | source | states |
|---|---|---|
| `Address.Normalise` | Script_geocodage.py:40 | `str.replace(' ', '+')` on one cell, defined character by character; the result has the same length as the input |
| `Address.NormaliseAt` | Script_geocodage.py:40 | normalisation keeps the length; each space becomes `+` and every other character is left unchanged |
| `Address.NormaliseSpaceFree` | Script_geocodage.py:40 | a normalised address contains no space |
| `Address.NormaliseFixesSpaceFree` | Script_geocodage.py:40 | an address without spaces is left unchanged |
| `Address.NormaliseIdempotent` | Script_geocodage.py:40 | normalising twice gives the same result as normalising once |
| `Address.NormaliseIsSplitJoin` | Script_geocodage.py:40 | the normalisation equals Python's reference meaning of `str.replace`, `'+'.join(s.split(' '))`. `Address.SplitJoinRoundTrip` checks that `Split` and `Join` are inverse |
| `Csv.NormaliseAddresses` | Script_geocodage.py:40 | the `adresse` cell of every row is normalised; the columns, the row order and every other cell stay the same |
| `Csv.Addresses` | Script_geocodage.py:90-91 | one address per row of the re-opened layer, in row order, taken from its `adresse` attribute |
| `Request.Url` | Script_geocodage.py:91 | the URL is the fixed endpoint, then the address, then `&limit=1` |
| `Request.QueryOfUrl` | Script_geocodage.py:91 | the address can be read back from its URL, so different addresses give different URLs |
| `Request.NormalisedUrlSpaceFree` | Script_geocodage.py:91 | the URL built from a normalised address contains no space |
| `Request.Entry` | Script_geocodage.py:94-101 | the `try`/`except` around one request: the entry is `None` exactly when the request raised, and otherwise is the parsed body |
| `Request.ResponseList` | Script_geocodage.py:88-101 | `response_list` after the loop: one entry per address, the entry at index `n` coming from request number `n` |
| `Request.ResponseListAt` | Script_geocodage.py:88-101 | `response_list` has one entry per address, in address order; an entry is `None` exactly when that request raised, and otherwise holds that request's parsed body |
| `Request.FetchAll` | Script_geocodage.py:88-101 | the request loop builds exactly `ResponseList(addresses, fetch)`, one `fetch` per address |
| `Mapping.SchemaShape` | Script_geocodage.py:69-83 | the declared schema `SCHEMA` has 15 distinct field names; exactly `score`, `x`, `y` and `importance` are `Double` fields |
| `Mapping.Get` | Script_geocodage.py:116 | `dict.get(key, default)`: the stored value when the key is present, the default otherwise |
| `Mapping.Attributes` | Script_geocodage.py:115-131 | the attribute list of one feature: one slot per schema field, with the coordinates in slots 8 and 9 (indices 7 and 8) |
| `Mapping.AttributesFollowSchema` | Script_geocodage.py:109-131 | the attribute list has 15 slots in the order of the schema declared at lines 69-83. Each slot holds the property of its field's name, `''` for a missing text property, `0` for a missing `score` or `importance`, and the two coordinates unchanged in `x` and `y` |
| `Mapping.FeaturePoints` | Script_geocodage.py:108-133 | a single feature adds at most one point |
| `Mapping.FeatureListPoints` | Script_geocodage.py:107-133 | the points added by the loop over one answer's features: at most one per feature, each with one attribute per schema field |
| `Mapping.ResponsePoints` | Script_geocodage.py:106-133 | the points added by one entry of `response_list`: none for `None` or a body without `features`, each with one attribute per schema field |
| `Mapping.Points` | Script_geocodage.py:104-133 | the points added by the whole loop over `response_list`; each carries one attribute per schema field |
| `Mapping.FeatureAddsItsPoint` | Script_geocodage.py:107-133 | a feature without coordinates adds no point. Any other feature adds exactly one point, at its coordinates and with its attribute list, placed between the points of the features before and after it |
| `Mapping.FeatureListPointsCount` | Script_geocodage.py:107-108 | a feature list adds at most one point per feature, and exactly one per feature if and only if every feature has coordinates |
| `Mapping.DroppedResponseAddsNothing` | Script_geocodage.py:106 | a `None` entry, or a body without `features`, adds no point, wherever it stands in `response_list` |
| `Mapping.PointsMembers` | Script_geocodage.py:104-133 | a point is added if and only if it is the point of a feature that has coordinates, in a body with `features`, at some index of `response_list` |
| `Mapping.AtMostOnePointPerResponse` | Script_geocodage.py:104-108 | when each answer holds at most one feature, as a `limit=1` request gets, the layer gets at most one point per address row |
| `Mapping.FirstFeatureAgrees` | Script_geocodage.py:107 | for an answer with at most one feature, looping over all features gives the same points as reading only the first |
| `Layer.MemoryLayer.constructor` | Script_geocodage.py:65-66 | the new memory layer has the given name and CRS, no fields and no features |
| `Layer.MemoryLayer.AddAttributes` | Script_geocodage.py:69-85 | the fields are appended in the given order; the features are unchanged |
| `Layer.MemoryLayer.AddFeature` | Script_geocodage.py:133 | the feature is appended at the end; the fields are unchanged, and conformance to the fields is kept |
| `Layer.Session.constructor` | Script_geocodage.py:13-14 | after `initQgis` the session is running, and its project holds no layer |
| `Layer.Session.AddMapLayer` | Script_geocodage.py:138 | the layer is appended to the project's layers |
| `Layer.Session.ExitQgis` | Script_geocodage.py:141 | the session is stopped, and the project's layers are unchanged |
| `Pipeline.Prepare` | Script_geocodage.py:17-60 | if every check passes, the addresses to query are the normalised `adresse` cells of the parsed table, one per row and in row order, none containing a space |
| `Pipeline.PrepareFailures` | Script_geocodage.py:20-60 | each early exit happens exactly under its own condition, tested in the script's order: no file, then parse failure, then missing `adresse` column, then save failure, then invalid re-opened layer |
| `Pipeline.Geocode` | Script_geocodage.py:17-133 | what a run produces: it stops exactly when a check fails, with that check's failure; otherwise it yields `Points` of the response list, each point with one attribute per schema field |
| `Pipeline.AddFeaturePoints` | Script_geocodage.py:107-133 | the inner loop appends exactly the points of the feature list, in order; the fields are unchanged |
| `Pipeline.AddResponsePoints` | Script_geocodage.py:106-133 | one entry of `response_list` appends exactly its `ResponsePoints`; the fields are unchanged |
| `Pipeline.AddGeocodedPoints` | Script_geocodage.py:104-135 | the outer loop appends exactly `Points(response_list)`, in order; the fields are unchanged |
| `Pipeline.Run` | Script_geocodage.py:17-141 | the session is shut down on every path. After a failed check, the run returns that failure and registers nothing. Otherwise, it registers exactly one new layer with CRS `epsg:4326`, the 15 declared fields and exactly the points of the answers, each with one attribute per field |
| `Scenarios.OneAddressOnePoint` | Script_geocodage.py:88-133 | one row whose answer has one feature at (2.3299, 48.8698) in Paris gives one point there, with `city` = `Paris` and the default `''` label |
| `Scenarios.FailedRequestIsSkipped` | Script_geocodage.py:94-101 | with two rows (the same address twice included), when the second request raises, the run still completes and gives the first row's point only |
| `Scenarios.EmptyFeaturesGiveNoPoint` | Script_geocodage.py:104-107 | an answer with an empty `features` list gives no point, and the run still completes |

## Left out

- QGIS start-up details (the `sys.argv` byte conversion and the prefix path, lines 9-12) are not modelled. The model keeps only whether the session is running.
- The file dialog (line 17) is not modelled. The chosen path is a parameter, `""` when nothing was chosen.
- `read_csv`, `to_csv` and the delimited-text reload (lines 27, 45, 53-54) go through libraries that are not part of this model. Line 53 also puts a backslash inside an f-string expression, which Python accepts only from version 3.12; with an older interpreter the script does not compile. The model describes the script as if it compiles. They are parameters: a parse result, a save outcome, and a validity flag for the re-opened layer. The re-opened layer is taken to yield the rows that were saved. Type inference by pandas or QGIS, and missing (NaN) cells, are not modelled: every cell is a string.
- `requests.get`, `raise_for_status` and `.json()` (lines 95-97) are network I/O. They are the parameter `fetch`, which gives, for each numbered request, the parsed body or a `RequestException`. `requests.get` is called without a timeout and can block forever; the model takes every request to return.
- `addMapLayer` (line 138) is modelled only as recording the hand-off in the session's layer list. What QGIS then does with the layer is not modelled.
- Coordinates and numeric properties are `real` values that are only copied. Floating-point behaviour and the conversion of the integer default `0` to a `Double` field are not modelled.
- A feature without `geometry` or `properties`, or with a coordinate list that is neither empty nor of length two, makes the script crash (lines 108-109). The datatype `Api.Feature` excludes these cases instead of modelling the crash.
- JSON values other than strings and numbers are not modelled; the script only copies property values.
- Console messages (`print`) carry no contract and are left out. So is the message printed when `response_list` is empty (line 135). The model keeps that branch, and it adds nothing to the layer.
- `layer.updateFields()` (line 85) has no effect that the model can observe. It is folded into `Layer.MemoryLayer.AddAttributes`.
