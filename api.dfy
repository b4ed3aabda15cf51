/**
 * The parts of a response of the address search API that the script reads:
 * an optional `features` list whose members carry a coordinate list and a
 * properties object.
 */
module Api {
  import opened Wrappers

  /** A JSON property value: the script only copies these. */
  datatype Value = Text(text: string) | Number(number: real)

  /**
   * `feature['geometry']['coordinates']` as the script can handle it: empty
   * (skipped) or exactly `[x, y]` (unpacked). Any other length, and a
   * missing `geometry` or `properties`, makes the script crash, so the
   * datatype excludes them.
   */
  type Coordinates = c: seq<real> | |c| == 0 || |c| == 2

  datatype Feature = Feature(coordinates: Coordinates, properties: map<string, Value>)

  /** A parsed JSON body; `features` is `None` when the key is absent. */
  datatype Response = Response(features: Option<seq<Feature>>)

  /** What `requests.get` / `raise_for_status` / `.json()` raise. */
  datatype RequestException = RequestException(message: string)
}
