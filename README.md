# Google Geocoder client, modelled in Dafny

The repository is one PHP class, `GoogleGeocode`, a thin client for the Maps v2
geocoding service. This project models its deterministic core:

- **query normalisation and the request URL** (`search`): a bare address string or
  an array of parameters becomes a parameter set in which `q` is trimmed and
  URL-encoded and the caller's values are merged over the defaults `q=''`,
  `region=US`, `language=en`, `sensor=false`, `oe=utf8`; the request URL is the
  endpoint, the query string, `&output=json&key=` and the API key;
- **status handling**: the HTTP status is recorded and mapped to its `G_GEO_*`
  label through the fixed table; status 200 parses the body, any other status fails;
- **placemark extraction** (`parse_results`): each of latitude/longitude, address,
  state, city and postal code is taken from the first placemark, in array order,
  that offers a non-empty value for it; city and postal code prefer the
  sub-administrative-area locality and fall back to the administrative area's own.

Files:

- `wrappers.dfy` — `Option`, standing for PHP's `null`.
- `php_arrays.dfy` — string-keyed PHP arrays as ordered entry lists: lookup,
  element assignment and `array_merge`, whose key order decides the order of the
  query string.
- `response.dfy` — the decoded JSON schema (missing path segments are `None`),
  the "first non-empty wins, per field" specification (`Winner`, `Resolve`,
  `Extract`), its step-by-step counterpart (`Settled`, `SettledLng`) proved equal
  to it, and the imperative scan `ScanPlacemarks` proved against them.
- `geocoder.dfy` — the defaults, the status table, `Normalize`, and the class
  `GoogleGeocode` with its fields (`errno`, `error`, `queryUrl`, `parsedData`,
  `errcode`), its accessors and the methods `Search` and `ParseResults`.
- `scenarios.dfy` — concrete responses and a client session.

The HTTP status code and the decoded body are inputs of `Search`. The PHP library
functions `trim`, `urlencode` and `http_build_query` are arbitrary functions
carried by a `Library` value that the constructor receives: every property is
proved for all of them.

Observed behaviour kept as the code has it: `search` stores the status in
`errcode`, while `errno()` reads `errno`, which nothing writes, so `errno()` always
returns 0. A status outside the table leaves `error()` null (`None`). Two
behaviours are kept as the code has them: latitude and longitude come from the
first placemark whose `coordinates[0]` is non-empty (not the first with a full
pair), and the status code cannot be read through `errno()`.

## Model

| member | source | states |
|---|---|---|
| `PhpArrays.Get` | GoogleGeocode.class.php:136 | `$a[k]` yields a value exactly when `k` is one of the array's keys, and that value is one stored under `k` |
| `PhpArrays.GetOr` | GoogleGeocode.class.php:136 | a present key reads its stored value, a missing key reads the given default |
| `PhpArrays.Put` | GoogleGeocode.class.php:136 | element assignment keeps keys distinct; an existing key keeps its position, a new key is appended |
| `PhpArrays.PutGet` | GoogleGeocode.class.php:141 | after `$a[k] = v`, `k` reads `v` and every other key reads what it read before |
| `PhpArrays.Merge` | GoogleGeocode.class.php:137 | `array_merge` of two arrays with distinct keys has distinct keys |
| `PhpArrays.MergeGet` | GoogleGeocode.class.php:137 | in `array_merge(base, over)` every key of `over` has its value from `over`, every other key its value from `base` |
| `PhpArrays.KeysStep` | GoogleGeocode.class.php:137 | assigning one more key of `over` extends the merged key order as `base` then the new keys of `over` |
| `PhpArrays.MergeKeys` | GoogleGeocode.class.php:137 | the merged keys are those of `base` in place, followed by the keys only `over` has, in `over`'s order |
| `PhpArrays.WithoutExtendDrop` | GoogleGeocode.class.php:137 | dropping a key that does not occur changes nothing in the list of new keys |
| `PhpArrays.WithoutDroppedLast` | GoogleGeocode.class.php:136-137 | a `q` appended to the caller's array does not show up among the new keys, since the defaults have `q` |
| `Geocoder.QueryText` | GoogleGeocode.class.php:133-141 | the text `search` trims: the bare string itself, or the array's `q` value, or '' when the array has no `q` (`trim(null)`) |
| `Geocoder.Normalize` | GoogleGeocode.class.php:123-143 | the parameter set has distinct keys |
| `Geocoder.DefaultsWellFormed` | GoogleGeocode.class.php:123-129 | the defaults are `q`, `region`, `language`, `sensor`, `oe`, in that order, without repetition |
| `Geocoder.NormalizeValues` | GoogleGeocode.class.php:123-143 | `q` is `urlencode(trim(text))` for both input forms; every other key has the caller's value if supplied, else its default (absent if it has none) |
| `Geocoder.NormalizeKeyOrder` | GoogleGeocode.class.php:133-143 | parameters come in the defaults' order, then the caller's extra keys in the caller's order; a bare string gives exactly the default keys |
| `Geocoder.FreeTextIsSingletonParams` | GoogleGeocode.class.php:133-143 | a bare string `s` and the array `['q' => s]` give the same parameter set |
| `Geocoder.BuildUrl` | GoogleGeocode.class.php:146 | the request URL starts with the endpoint, ends with `&output=json&key=` and the key, and holds the built query string between them |
| `Geocoder.StatusLabel` | GoogleGeocode.class.php:40-50 | a code has a label exactly when it is one of the nine table codes; 200 is `G_GEO_SUCCESS` |
| `Geocoder.StatusLabelInjective` | GoogleGeocode.class.php:40-50 | two codes with the same label are the same code |
| `Geocoder.GoogleGeocode.constructor` | GoogleGeocode.class.php:63-77 | the client keeps the key; `error` is '', the URL is '', no status and no body are recorded yet |
| `Geocoder.GoogleGeocode.Errno` | GoogleGeocode.class.php:89-92 | `errno()` is always 0: `search` writes `errcode`, never `errno` |
| `Geocoder.GoogleGeocode.Error` | GoogleGeocode.class.php:99-102 | `error()` is '' before any search and afterwards the table label of the last status (null for a code outside the table) |
| `Geocoder.GoogleGeocode.QueryUrl` | GoogleGeocode.class.php:109-112 | `query_url()` is '' before any search and afterwards a request URL for this key |
| `Geocoder.GoogleGeocode.Search` | GoogleGeocode.class.php:121-161 | the URL of the normalised query is recorded whatever the outcome; the status and its label are recorded; 200 yields the parse of the body (None without placemarks, label still success), any other status yields None and leaves the parsed body untouched |
| `Geocoder.GoogleGeocode.ParseResults` | GoogleGeocode.class.php:170-232 | the decoded body is kept; no placemarks gives None, otherwise the extraction of all placemarks |
| `GeocodeResponse.Coordinate` | GoogleGeocode.class.php:187-188 | `Point->coordinates[i]` is the i-th coordinate when the point has one, and null when the point or the element is missing (non-null only when it has one) |
| `GeocodeResponse.AdminArea` | GoogleGeocode.class.php:198-199 | `AddressDetails->Country->AdministrativeArea` is present exactly when every segment of the path is |
| `GeocodeResponse.StateName` | GoogleGeocode.class.php:196-200 | the state is the administrative area's name, null when the area is missing |
| `GeocodeResponse.SubAreaLocality` | GoogleGeocode.class.php:205-207 | the primary locality is exactly the one under `AdministrativeArea->SubAdministrativeArea`, and none when a segment is missing |
| `GeocodeResponse.AreaLocality` | GoogleGeocode.class.php:211-212 | the fallback locality is the one directly under `AdministrativeArea` |
| `GeocodeResponse.LocalityName` | GoogleGeocode.class.php:205-212 | `Locality->LocalityName`, null when the locality is missing |
| `GeocodeResponse.PostalCodeNumber` | GoogleGeocode.class.php:219-226 | `Locality->PostalCode->PostalCodeNumber`, non-null only when every segment is present |
| `GeocodeResponse.WithFallback` | GoogleGeocode.class.php:203-228 | a non-empty primary value is used; the fallback is taken only when the primary is empty; the result is empty only if the primary is |
| `GeocodeResponse.Candidate` | GoogleGeocode.class.php:185-228 | what one placemark offers per field: `coordinates[0]` for lat, `address`, the area name, and for city and zip the primary locality's value unless empty, else the fallback's |
| `GeocodeResponse.Winner` | GoogleGeocode.class.php:183-229 | the position a field's value comes from: every earlier value is empty, and it is non-empty unless it is the last |
| `GeocodeResponse.WinnerUnique` | GoogleGeocode.class.php:183-229 | those two properties determine the position uniquely |
| `GeocodeResponse.Resolve` | GoogleGeocode.class.php:183-229 | a field's final value is one of its column's values, null with no placemarks |
| `GeocodeResponse.ResolveFirstNonEmpty` | GoogleGeocode.class.php:183-229 | a field holds the first non-empty value of its column |
| `GeocodeResponse.ResolveAllEmpty` | GoogleGeocode.class.php:183-229 | a field ends empty exactly when every value of its column is empty |
| `GeocodeResponse.ResolveStable` | GoogleGeocode.class.php:185-228 | once a field is non-empty, later values do not change it |
| `GeocodeResponse.WinnerSnoc` | GoogleGeocode.class.php:185-189 | one more placemark moves the source position only when the field was still empty |
| `GeocodeResponse.ResolveSnoc` | GoogleGeocode.class.php:185-228 | one more value replaces the field exactly when the field is empty |
| `GeocodeResponse.ColumnSnoc` | GoogleGeocode.class.php:183 | the candidates of one more placemark extend the column by one |
| `GeocodeResponse.FieldStep` | GoogleGeocode.class.php:191-228 | one loop iteration fills a still-empty field with this placemark's candidate and leaves a filled one alone |
| `GeocodeResponse.PairStep` | GoogleGeocode.class.php:185-189 | latitude and longitude move to this placemark exactly when latitude was empty (or it is the first) |
| `GeocodeResponse.Extract` | GoogleGeocode.class.php:182-231 | the record from a placemark list: all null without placemarks, otherwise lat and lng from one and the same placemark |
| `GeocodeResponse.Parse` | GoogleGeocode.class.php:176-231 | `parse_results` fails (None) exactly when there are no placemarks |
| `GeocodeResponse.SettledResolves` | GoogleGeocode.class.php:183-229 | the loop's field-by-field updates, taken one placemark at a time, end on the first non-empty value of each column |
| `GeocodeResponse.SettledLngPairs` | GoogleGeocode.class.php:185-189 | the longitude the loop keeps is the one of the placemark its latitude came from |
| `GeocodeResponse.ScanPlacemarks` | GoogleGeocode.class.php:182-231 | the loop's record equals the first-non-empty extraction, field by field, with lat/lng paired |
| `GeocodeResponse.ColumnAppend` | GoogleGeocode.class.php:183 | the column of two placemark lists is the concatenation of their columns |
| `GeocodeResponse.ExtractFirstNonEmpty` | GoogleGeocode.class.php:183-229 | each field equals the candidate of the first placemark offering a non-empty one; fields are settled independently |
| `GeocodeResponse.ExtractNoCandidate` | GoogleGeocode.class.php:183-229 | a field is empty in the result exactly when no placemark offers a non-empty candidate for it |
| `GeocodeResponse.ExtractPairsCoordinates` | GoogleGeocode.class.php:185-189 | lat is `coordinates[0]` and lng `coordinates[1]` of the same placemark, the first with a non-empty `coordinates[0]` |
| `GeocodeResponse.ExtractStable` | GoogleGeocode.class.php:185-228 | appending placemarks never changes a field already non-empty, and lng stays with its lat |
| `Scenarios.AmphitheatreParkway` | GoogleGeocode.class.php:183-229 | one placemark with coordinates, address, state and the primary locality gives exactly those values |
| `Scenarios.CityFromFallback` | GoogleGeocode.class.php:203-228 | with the primary locality empty, city and postal code come from the administrative area's locality |
| `Scenarios.FieldsFromDifferentPlacemarks` | GoogleGeocode.class.php:183-229 | the address can come from one placemark and the state and coordinates from a later one |
| `Scenarios.FailedSearches` | GoogleGeocode.class.php:146-160 | status 610 gives no result and `G_GEO_BAD_KEY`; status 200 with no placemarks gives no result and `G_GEO_SUCCESS`; the URL is kept after both |

## Left out

- cURL: the constructor's check that cURL exists (a `return false` from a constructor, which still yields an object), the 180-second timeout and options, `curl_exec`, `curl_getinfo` and the destructor's `curl_close`. The status code and the body are inputs of `Search`.
- `json_decode`: the body is given already decoded as a `Response`. A body that does not decode has no placemarks here (PHP 5 and 7 count a null `Placemark` as 0; PHP 8 raises instead).
- `trim`, `urlencode` and `http_build_query`: left abstract (fields of `Library`). In particular the model does not show that `http_build_query` encodes the already-encoded `q` a second time.
- PHP emptiness: `empty()` and `== ''` are both modelled by one `IsEmpty` (null or the empty string). The model does not treat `0`, `0.0` or `"0"` as empty for `empty()`, so a latitude of exactly zero is not skipped as PHP would skip it.
- PHP notices when a nested property or the `q` entry is missing: the missing value reads as null (`None`/`Null`), as PHP does after the notice.
- Integer keys in the caller's parameter array (renumbered by `array_merge`) and non-string parameter values: parameters are string-to-string.
- `throw_exceptions` (never read) and writes by callers to the public fields `error_codes`, `errno`, `error`, `query_url`: the status table is a constant.
- PhpArrays.Merge: its own contract states only that keys stay distinct; values and key order are stated by `MergeGet` and `MergeKeys`.
- Geocoder.Normalize: its own contract states only that keys stay distinct; values and key order are stated by `NormalizeValues` and `NormalizeKeyOrder`.
- GeocodeResponse.Resolve: its own contract says only where the value comes from; which value it is is stated by `ResolveFirstNonEmpty`, `ResolveAllEmpty` and `ResolveStable`.
- GeocodeResponse.Extract: its own contract states the empty case and the lat/lng pairing; the per-field values are stated by `ExtractFirstNonEmpty`, `ExtractNoCandidate` and `ExtractStable`.
