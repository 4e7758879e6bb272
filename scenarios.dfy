/** Concrete responses and a client session, stated with the model's definitions. */
module Scenarios {
  import opened Wrappers
  import opened PhpArrays
  import opened GeocodeResponse
  import opened Geocoder

  function AdminPlacemark(address: Value, area: AdministrativeArea, coordinates: seq<Value>): Placemark
  {
    Placemark(Some(Point(coordinates)), address, Some(AddressDetails(Some(Country(Some(area))))))
  }

  function SomeLocality(name: string, zip: string): Option<Locality>
  {
    Some(Locality(Str(name), Some(PostalCode(Str(zip)))))
  }

  /** A single placemark whose city and postal code sit under the sub-administrative area. */
  lemma AmphitheatreParkway()
    ensures Parse(Response([AdminPlacemark(
              Str("1600 Amphitheatre Pkwy"),
              AdministrativeArea(Str("California"),
                Some(SubAdministrativeArea(SomeLocality("Mountain View", "94043"))), None),
              [Num("37.4"), Num("-122.1"), Num("0")])]))
            == Some(Geocode(Num("37.4"), Num("-122.1"), Str("1600 Amphitheatre Pkwy"),
                            Str("California"), Str("Mountain View"), Str("94043")))
  {
  }

  /** With the primary locality empty, city and postal code come from the area's own locality. */
  lemma CityFromFallback()
    ensures var p := AdminPlacemark(Str("Main St"),
              AdministrativeArea(Str("California"),
                Some(SubAdministrativeArea(Some(Locality(Str(""), None)))),
                SomeLocality("Palo Alto", "94301")),
              [Num("37.44"), Num("-122.14")]);
            var g := Extract([p]);
            g.city == Str("Palo Alto") && g.zip == Str("94301")
  {
  }

  /**
   * Fields are settled independently: the address comes from the first placemark,
   * the state and coordinates from the second, which is the first to offer them.
   */
  lemma FieldsFromDifferentPlacemarks()
    ensures var first := Placemark(None, Str("Somewhere"), None);
            var second := AdminPlacemark(Str("Elsewhere"),
              AdministrativeArea(Str("Nevada"), None, None), [Num("36.1"), Num("-115.1")]);
            var g := Extract([first, second]);
            g.address == Str("Somewhere") && g.state == Str("Nevada")
            && g.lat == Num("36.1") && g.lng == Num("-115.1") && g.city == Null
  {
  }

  /**
   * A session: a rejected key leaves no result and the bad-key label; an answer with
   * status 200 but no placemarks leaves no result and the success label; the URL of
   * each call is kept after it fails.
   */
  method FailedSearches(lib: Library, key: string, address: string)
    returns (badKey: Option<Geocode>, badKeyLabel: Option<string>, badKeyUrl: string,
             empty: Option<Geocode>, emptyLabel: Option<string>, emptyUrl: string)
    ensures badKey == None && badKeyLabel == Some("G_GEO_BAD_KEY")
    ensures empty == None && emptyLabel == Some("G_GEO_SUCCESS")
    ensures badKeyUrl == emptyUrl == BuildUrl(lib, key, Normalize(lib, FreeText(address)))
  {
    var client := new GoogleGeocode(key, lib);
    badKey := client.Search(FreeText(address), 610, Response([]));
    badKeyLabel, badKeyUrl := client.Error(), client.QueryUrl();
    empty := client.Search(FreeText(address), 200, Response([]));
    emptyLabel, emptyUrl := client.Error(), client.QueryUrl();
  }
}
