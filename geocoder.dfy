/**
 * The `GoogleGeocode` client: it turns a query into the request URL, records the
 * HTTP status and its label, and extracts the result record from the decoded body.
 * The transport is not modelled: the status code and the decoded body are inputs.
 */
module Geocoder {
  import opened Wrappers
  import opened PhpArrays
  import opened GeocodeResponse

  /**
   * The PHP library functions the client calls. Their definitions are not part of
   * this model, so they are supplied as arbitrary functions.
   */
  datatype Library = Library(
    trim: string -> string,
    urlencode: string -> string,
    httpBuildQuery: Entries -> string)

  /** What `search` accepts: a bare address string, or an array of named parameters. */
  datatype Query = FreeText(text: string) | Params(entries: Entries)

  const DefaultParams: Entries :=
    [("q", ""), ("region", "US"), ("language", "en"), ("sensor", "false"), ("oe", "utf8")]

  const GeocodeUrl: string := "http://maps.google.com/maps/geo?"
  const OutputAndKey: string := "&output=json&key="

  /** The status codes of the service and their labels. */
  const ErrorCodes: map<int, string> := map[
    200 := "G_GEO_SUCCESS",
    400 := "G_GEO_BAD_REQUEST",
    500 := "G_GEO_SERVER_ERROR",
    601 := "G_GEO_MISSING_QUERY",
    602 := "G_GEO_UNKNOWN_ADDRESS",
    603 := "G_GEO_UNAVAILABLE_ADDRESS",
    604 := "G_GEO_UNKNOWN_DIRECTIONS",
    610 := "G_GEO_BAD_KEY",
    620 := "G_GEO_TOO_MANY_QUERIES"]

  /** The free text of a query; a parameter array without `q` reads it as null, which trims to ''. */
  function QueryText(query: Query): (text: string)
    ensures query.FreeText? ==> text == query.text
    ensures query.Params? && Get(query.entries, "q").Some? ==> Some(text) == Get(query.entries, "q")
    ensures query.Params? && Get(query.entries, "q").None? ==> text == ""
  {
    match query
    case FreeText(text) => text
    case Params(entries) => GetOr(entries, "q", "")
  }

  /**
   * The full parameter set `search` sends: `q` trimmed and URL-encoded, the caller's
   * other parameters merged over the defaults.
   */
  function Normalize(lib: Library, query: Query): (p: Entries)
    requires query.Params? ==> UniqueKeys(query.entries)
    ensures UniqueKeys(p)
  {
    DefaultsWellFormed();
    var q := lib.urlencode(lib.trim(QueryText(query)));
    match query
    case Params(entries) => Merge(DefaultParams, Put(entries, "q", q))
    case FreeText(_) => Put(DefaultParams, "q", q)
  }

  lemma DefaultsWellFormed()
    ensures Keys(DefaultParams) == ["q", "region", "language", "sensor", "oe"]
    ensures UniqueKeys(DefaultParams)
  {
  }

  /**
   * `q` is always the trimmed, URL-encoded text; any other key has the caller's value
   * when the caller supplied one and the default otherwise.
   */
  lemma NormalizeValues(lib: Library, query: Query, k: string)
    requires query.Params? ==> UniqueKeys(query.entries)
    ensures k == "q" ==> Get(Normalize(lib, query), k) == Some(lib.urlencode(lib.trim(QueryText(query))))
    ensures k != "q" ==>
              Get(Normalize(lib, query), k) ==
              if query.Params? && Get(query.entries, k).Some? then Get(query.entries, k) else Get(DefaultParams, k)
  {
    DefaultsWellFormed();
    var q := lib.urlencode(lib.trim(QueryText(query)));
    match query
    case Params(entries) =>
      PutGet(entries, "q", q, k);
      MergeGet(DefaultParams, Put(entries, "q", q), k);
    case FreeText(_) =>
      PutGet(DefaultParams, "q", q, k);
  }

  /**
   * The parameters go out in the defaults' order, followed by the keys only the
   * caller supplied, in the caller's order.
   */
  lemma NormalizeKeyOrder(lib: Library, query: Query)
    requires query.Params? ==> UniqueKeys(query.entries)
    ensures Keys(Normalize(lib, query)) ==
      Keys(DefaultParams) + if query.Params? then Without(Keys(query.entries), Keys(DefaultParams)) else []
  {
    DefaultsWellFormed();
    var q := lib.urlencode(lib.trim(QueryText(query)));
    match query
    case Params(entries) =>
      MergeKeys(DefaultParams, Put(entries, "q", q));
      if "q" !in Keys(entries) {
        WithoutDroppedLast(Keys(entries), "q", Keys(DefaultParams));
      }
    case FreeText(_) =>
  }

  /** The request URL for a parameter set. */
  function BuildUrl(lib: Library, key: string, params: Entries): (url: string)
    ensures IsRequestUrl(url, key)
    ensures url[|GeocodeUrl|..|url| - |OutputAndKey + key|] == lib.httpBuildQuery(params)
  {
    GeocodeUrl + lib.httpBuildQuery(params) + OutputAndKey + key
  }

  /** The shape of every URL `search` records: the endpoint, then the parameters, then the output format and key. */
  predicate IsRequestUrl(url: string, key: string)
  {
    var tail := OutputAndKey + key;
    && |url| >= |GeocodeUrl| + |tail|
    && url[..|GeocodeUrl|] == GeocodeUrl
    && url[|url| - |tail|..] == tail
  }

  /** `error_codes[code]`: the label of a status code, or null for a code the table lacks. */
  function StatusLabel(code: int): (tag: Option<string>)
    ensures tag.Some? <==> code in {200, 400, 500, 601, 602, 603, 604, 610, 620}
    ensures code == 200 ==> tag == Some("G_GEO_SUCCESS")
  {
    if code in ErrorCodes then Some(ErrorCodes[code]) else None
  }

  /** Distinct codes have distinct labels, so the recorded label identifies the status. */
  lemma StatusLabelInjective(c1: int, c2: int)
    requires StatusLabel(c1).Some? && StatusLabel(c1) == StatusLabel(c2)
    ensures c1 == c2
  {
  }

  /** A bare string and the array `['q' => s]` give the same parameter set. */
  lemma {:induction false} FreeTextIsSingletonParams(lib: Library, s: string)
    ensures Normalize(lib, FreeText(s)) == Normalize(lib, Params([("q", s)]))
  {
    var q := lib.urlencode(lib.trim(s));
    DefaultsWellFormed();
    assert Put([("q", s)], "q", q) == [("q", q)];
    assert Merge(DefaultParams, [("q", q)]) == Merge(Put(DefaultParams, "q", q), []);
  }

  class GoogleGeocode {
    /** Read by `errno()`; `search` never writes it. */
    var errno: int
    /** The label of the last status, '' before any search, null for a code outside the table. */
    var error: Option<string>
    var queryUrl: string
    /** The last decoded body. */
    var parsedData: Option<Response>
    /** The last HTTP status; the property does not exist before the first search. */
    var errcode: Option<int>
    const key: string
    const lib: Library

    ghost predicate Valid()
      reads this
    {
      && errno == 0
      && (errcode.None? ==> error == Some("") && queryUrl == "")
      && (errcode.Some? ==> error == StatusLabel(errcode.value) && IsRequestUrl(queryUrl, key))
    }

    constructor (key: string, lib: Library)
      ensures Valid()
      ensures this.key == key && this.lib == lib
      ensures errcode == None && parsedData == None
    {
      this.key := key;
      this.lib := lib;
      errno := 0;
      error := Some("");
      queryUrl := "";
      parsedData := None;
      errcode := None;
    }

    /** `errno()`: always 0, because `search` records the status in `errcode` instead. */
    function Errno(): (n: int)
      reads this
      requires Valid()
      ensures n == 0
    {
      errno
    }

    /** `error()`: the label of the last HTTP status. */
    function Error(): (tag: Option<string>)
      reads this
      requires Valid()
      ensures errcode.None? ==> tag == Some("")
      ensures errcode.Some? ==> tag == StatusLabel(errcode.value)
    {
      error
    }

    /** `query_url()`: the last request URL, '' before the first search. */
    function QueryUrl(): (url: string)
      reads this
      requires Valid()
      ensures errcode.None? ==> url == ""
      ensures errcode.Some? ==> IsRequestUrl(url, key)
    {
      queryUrl
    }

    /**
     * `search`: build and record the URL, then record the status the transport
     * returned. Only status 200 parses the body; the label reads success even when
     * the body has no placemarks and the result is None.
     */
    method Search(query: Query, status: int, body: Response) returns (result: Option<Geocode>)
      requires Valid()
      requires query.Params? ==> UniqueKeys(query.entries)
      modifies this
      ensures Valid()
      ensures queryUrl == BuildUrl(lib, key, Normalize(lib, query))
      ensures errcode == Some(status) && error == StatusLabel(status)
      ensures status == 200 ==> parsedData == Some(body) && result == Parse(body)
      ensures status != 200 ==> parsedData == old(parsedData) && result == None
    {
      var params := Normalize(lib, query);
      queryUrl := BuildUrl(lib, key, params);
      errcode := Some(status);
      if status == 200 {
        error := StatusLabel(200);
        result := ParseResults(body);
        return;
      }
      error := StatusLabel(status);
      result := None;
    }

    /** `parse_results`: keep the decoded body, fail without placemarks, else scan them. */
    method ParseResults(data: Response) returns (result: Option<Geocode>)
      modifies this`parsedData
      ensures parsedData == Some(data)
      ensures result == Parse(data)
    {
      parsedData := Some(data);
      if |data.placemarks| == 0 {
        return None;
      }
      var g := ScanPlacemarks(data.placemarks);
      return Some(g);
    }
  }
}
