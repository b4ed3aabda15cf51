/**
 * One search request per address row: the URL is built by plain string
 * interpolation, and a request that raises is recorded as `None`.
 */
module Request {
  import opened Wrappers
  import opened Address
  import opened Api

  const ENDPOINT: string := "https://api-adresse.data.gouv.fr/search/?q="
  const LIMIT_SUFFIX: string := "&limit=1"

  /** The request URL for an (already normalised) address. */
  function Url(address: string): (url: string)
    ensures |url| == |ENDPOINT| + |address| + |LIMIT_SUFFIX|
    ensures url[..|ENDPOINT|] == ENDPOINT
    ensures url[|url| - |LIMIT_SUFFIX|..] == LIMIT_SUFFIX
  {
    ENDPOINT + address + LIMIT_SUFFIX
  }

  /** The text between the endpoint and the `&limit=1` suffix. */
  function Query(url: string): (query: string)
    requires |url| >= |ENDPOINT| + |LIMIT_SUFFIX|
  {
    url[|ENDPOINT|..|url| - |LIMIT_SUFFIX|]
  }

  /** The address can be read back from its URL, so distinct addresses give distinct URLs. */
  lemma QueryOfUrl(address: string)
    ensures Query(Url(address)) == address
  {
    var url := Url(address);
    assert url == ENDPOINT + address + LIMIT_SUFFIX;
    assert url[|ENDPOINT|..|url| - |LIMIT_SUFFIX|] == address;
  }

  /** The URL of a normalised address contains no space. */
  lemma NormalisedUrlSpaceFree(address: string)
    ensures SpaceFree(Url(Normalise(address)))
  {
    NormaliseSpaceFree(address);
    var a := Normalise(address);
    var url := Url(a);
    assert url == ENDPOINT + a + LIMIT_SUFFIX;
    forall i | 0 <= i < |url| ensures url[i] != SPACE {
      if i < |ENDPOINT| {
        assert url[i] == ENDPOINT[i];
      } else if i < |ENDPOINT| + |a| {
        assert url[i] == a[i - |ENDPOINT|];
      } else {
        assert url[i] == LIMIT_SUFFIX[i - |ENDPOINT| - |a|];
      }
    }
  }

  /** The `except RequestException` branch: a raised request becomes `None`. */
  function Entry(reply: Result<Response, RequestException>): (entry: Option<Response>)
    ensures entry.None? <==> reply.Err?
    ensures reply.Ok? ==> entry == Some(reply.value)
  {
    match reply
    case Ok(data) => Some(data)
    case Err(_) => None
  }

  /**
   * The HTTP round trip: `fetch(n, url)` is the outcome of the request with
   * number `n` (counting from 0) sent to `url`. Numbering the calls keeps two
   * requests for the same URL independent, as two network calls are.
   */
  type Fetcher = (nat, string) -> Result<Response, RequestException>

  /** `response_list` after the loop: one entry per address, the `n`-th from request `n`. */
  function ResponseList(addresses: seq<string>, fetch: Fetcher): (responseList: seq<Option<Response>>)
    ensures |responseList| == |addresses|
  {
    if addresses == [] then []
    else
      var n := |addresses| - 1;
      ResponseList(addresses[..n], fetch) + [Entry(fetch(n, Url(addresses[n])))]
  }

  /**
   * One entry per address, in address order; an entry is `None` exactly
   * when the request for that address raised, and otherwise is its body.
   */
  lemma {:induction false} ResponseListAt(addresses: seq<string>, fetch: Fetcher)
    ensures |ResponseList(addresses, fetch)| == |addresses|
    ensures forall i :: 0 <= i < |addresses| ==>
              (ResponseList(addresses, fetch)[i] == None <==> fetch(i, Url(addresses[i])).Err?)
    ensures forall i :: 0 <= i < |addresses| && fetch(i, Url(addresses[i])).Ok? ==>
              ResponseList(addresses, fetch)[i] == Some(fetch(i, Url(addresses[i])).value)
  {
    if addresses != [] {
      var n := |addresses| - 1;
      ResponseListAt(addresses[..n], fetch);
      var rs := ResponseList(addresses, fetch);
      assert rs == ResponseList(addresses[..n], fetch) + [Entry(fetch(n, Url(addresses[n])))];
      forall i | 0 <= i < n
        ensures rs[i] == ResponseList(addresses[..n], fetch)[i]
        ensures addresses[i] == addresses[..n][i]
      {
      }
    }
  }

  lemma ResponseListSnoc(addresses: seq<string>, address: string, fetch: Fetcher)
    ensures ResponseList(addresses + [address], fetch)
              == ResponseList(addresses, fetch) + [Entry(fetch(|addresses|, Url(address)))]
  {
    assert (addresses + [address])[..|addresses|] == addresses;
  }

  /** The request loop: one `requests.get` per address, appending to `response_list`. */
  method FetchAll(addresses: seq<string>, fetch: Fetcher)
    returns (responseList: seq<Option<Response>>)
    ensures responseList == ResponseList(addresses, fetch)
  {
    responseList := [];
    var i := 0;
    while i < |addresses|
      invariant 0 <= i <= |addresses|
      invariant responseList == ResponseList(addresses[..i], fetch)
    {
      var apiUrl := Url(addresses[i]);
      ResponseListSnoc(addresses[..i], addresses[i], fetch);
      assert addresses[..i + 1] == addresses[..i] + [addresses[i]];
      match fetch(i, apiUrl) {
        case Ok(data) =>
          responseList := responseList + [Some(data)];
        case Err(_) =>
          responseList := responseList + [None];
      }
      i := i + 1;
    }
    assert addresses[..i] == addresses;
  }
}
