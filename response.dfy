/**
 * The decoded JSON body of the geocoder's answer and the extraction of one result
 * record from its placemarks: every output field is taken from the first placemark,
 * in array order, that supplies a non-empty value for it.
 */
module GeocodeResponse {
  import opened Wrappers

  /**
   * A scalar leaf of the decoded body. Coordinates and postal codes stay opaque text:
   * the client does no arithmetic on them.
   */
  datatype Value = Null | Str(text: string) | Num(literal: string)

  /** PHP's `empty($x)` and `$x == ''`, collapsed into one test: null or the empty string. */
  predicate IsEmpty(v: Value)
  {
    v == Null || v == Str("")
  }

  // The service's schema; a path segment the body lacks is None.
  datatype Point = Point(coordinates: seq<Value>)
  datatype PostalCode = PostalCode(postalCodeNumber: Value)
  datatype Locality = Locality(localityName: Value, postalCode: Option<PostalCode>)
  datatype SubAdministrativeArea = SubAdministrativeArea(locality: Option<Locality>)
  datatype AdministrativeArea = AdministrativeArea(
    administrativeAreaName: Value,
    subAdministrativeArea: Option<SubAdministrativeArea>,
    locality: Option<Locality>)
  datatype Country = Country(administrativeArea: Option<AdministrativeArea>)
  datatype AddressDetails = AddressDetails(country: Option<Country>)
  datatype Placemark = Placemark(point: Option<Point>, address: Value, addressDetails: Option<AddressDetails>)
  datatype Response = Response(placemarks: seq<Placemark>)

  /** The record `parse_results` fills; a property it never assigns reads as null. */
  datatype Geocode = Geocode(lat: Value, lng: Value, address: Value, state: Value, city: Value, zip: Value)

  /** `Point->coordinates[i]`, null when the point or the element is missing. */
  function Coordinate(p: Placemark, i: nat): (v: Value)
    ensures p.point.Some? && i < |p.point.value.coordinates| ==> v == p.point.value.coordinates[i]
    ensures v != Null ==> p.point.Some? && i < |p.point.value.coordinates|
  {
    match p.point
    case None => Null
    case Some(pt) => if i < |pt.coordinates| then pt.coordinates[i] else Null
  }

  /** `AddressDetails->Country->AdministrativeArea`. */
  function AdminArea(p: Placemark): (a: Option<AdministrativeArea>)
    ensures a.Some? <==>
              && p.addressDetails.Some?
              && p.addressDetails.value.country.Some?
              && p.addressDetails.value.country.value.administrativeArea.Some?
    ensures a.Some? ==> a == p.addressDetails.value.country.value.administrativeArea
  {
    match p.addressDetails
    case None => None
    case Some(d) =>
      match d.country
      case None => None
      case Some(c) => c.administrativeArea
  }

  /** `...->AdministrativeArea->AdministrativeAreaName`. */
  function StateName(p: Placemark): (v: Value)
    ensures AdminArea(p).Some? ==> v == AdminArea(p).value.administrativeAreaName
    ensures AdminArea(p).None? ==> v == Null
  {
    match AdminArea(p)
    case None => Null
    case Some(a) => a.administrativeAreaName
  }

  /** The primary locality: `...->AdministrativeArea->SubAdministrativeArea->Locality`. */
  function SubAreaLocality(p: Placemark): (l: Option<Locality>)
    ensures l.Some? ==>
              && AdminArea(p).Some?
              && AdminArea(p).value.subAdministrativeArea.Some?
              && l == AdminArea(p).value.subAdministrativeArea.value.locality
    ensures AdminArea(p).Some? && AdminArea(p).value.subAdministrativeArea.Some? ==>
              l == AdminArea(p).value.subAdministrativeArea.value.locality
  {
    match AdminArea(p)
    case None => None
    case Some(a) =>
      match a.subAdministrativeArea
      case None => None
      case Some(s) => s.locality
  }

  /** The fallback locality: `...->AdministrativeArea->Locality`. */
  function AreaLocality(p: Placemark): (l: Option<Locality>)
    ensures l.Some? ==> AdminArea(p).Some? && l == AdminArea(p).value.locality
    ensures AdminArea(p).Some? ==> l == AdminArea(p).value.locality
  {
    match AdminArea(p)
    case None => None
    case Some(a) => a.locality
  }

  /** `Locality->LocalityName`, null when the locality is missing. */
  function LocalityName(l: Option<Locality>): (v: Value)
    ensures l.Some? ==> v == l.value.localityName
    ensures l.None? ==> v == Null
  {
    match l
    case None => Null
    case Some(loc) => loc.localityName
  }

  /** `Locality->PostalCode->PostalCodeNumber`, null when a segment is missing. */
  function PostalCodeNumber(l: Option<Locality>): (v: Value)
    ensures v != Null ==> l.Some? && l.value.postalCode.Some? && v == l.value.postalCode.value.postalCodeNumber
    ensures l.Some? && l.value.postalCode.Some? ==> v == l.value.postalCode.value.postalCodeNumber
  {
    match l
    case None => Null
    case Some(loc) =>
      match loc.postalCode
      case None => Null
      case Some(pc) => pc.postalCodeNumber
  }

  /** What one placemark offers for a field: the primary value, or the fallback when the primary is empty. */
  function WithFallback(primary: Value, fallback: Value): (v: Value)
    ensures !IsEmpty(primary) ==> v == primary
    ensures IsEmpty(primary) ==> v == fallback
    ensures IsEmpty(v) ==> IsEmpty(primary)
  {
    if IsEmpty(primary) then fallback else primary
  }

  /** The fields filled by the "first non-empty" rule; `lng` rides along with `Lat`. */
  datatype Field = Lat | Address | State | City | Zip

  /** The candidate value placemark `p` offers for field `f`. */
  function Candidate(p: Placemark, f: Field): (v: Value)
    ensures f == Lat ==> v == Coordinate(p, 0)
    ensures f == Address ==> v == p.address
    ensures f == State ==> v == StateName(p)
    ensures f == City && !IsEmpty(LocalityName(SubAreaLocality(p))) ==> v == LocalityName(SubAreaLocality(p))
    ensures f == City && IsEmpty(LocalityName(SubAreaLocality(p))) ==> v == LocalityName(AreaLocality(p))
    ensures f == Zip && !IsEmpty(PostalCodeNumber(SubAreaLocality(p))) ==> v == PostalCodeNumber(SubAreaLocality(p))
    ensures f == Zip && IsEmpty(PostalCodeNumber(SubAreaLocality(p))) ==> v == PostalCodeNumber(AreaLocality(p))
  {
    match f
    case Lat => Coordinate(p, 0)
    case Address => p.address
    case State => StateName(p)
    case City => WithFallback(LocalityName(SubAreaLocality(p)), LocalityName(AreaLocality(p)))
    case Zip => WithFallback(PostalCodeNumber(SubAreaLocality(p)), PostalCodeNumber(AreaLocality(p)))
  }

  /** The candidates of field `f`, one per placemark, in array order. */
  function Column(ps: seq<Placemark>, f: Field): (c: seq<Value>)
  {
    seq(|ps|, i requires 0 <= i < |ps| => Candidate(ps[i], f))
  }

  /**
   * The position whose value a field ends up holding: the first non-empty one, or,
   * when every value is empty, the last (each empty value overwrites the previous).
   */
  function Winner(s: seq<Value>): (k: nat)
    requires |s| > 0
    ensures k < |s|
    ensures forall j :: 0 <= j < k ==> IsEmpty(s[j])
    ensures !IsEmpty(s[k]) || k == |s| - 1
  {
    if |s| == 1 || !IsEmpty(s[0]) then 0 else 1 + Winner(s[1..])
  }

  /** The value a field holds after scanning `s`; null when there is nothing to scan. */
  function Resolve(s: seq<Value>): (v: Value)
    ensures |s| == 0 ==> v == Null
    ensures |s| > 0 ==> exists k :: 0 <= k < |s| && v == s[k]
  {
    if |s| == 0 then Null else s[Winner(s)]
  }

  /** The record the scan over `ps` produces, stated field by field. */
  function Extract(ps: seq<Placemark>): (g: Geocode)
    ensures |ps| == 0 ==> g == Geocode(Null, Null, Null, Null, Null, Null)
    ensures |ps| > 0 ==> exists w :: 0 <= w < |ps| && g.lat == Coordinate(ps[w], 0) && g.lng == Coordinate(ps[w], 1)
  {
    var lats := Column(ps, Lat);
    Geocode(
      Resolve(lats),
      if |ps| == 0 then Null else Coordinate(ps[Winner(lats)], 1),
      Resolve(Column(ps, Address)),
      Resolve(Column(ps, State)),
      Resolve(Column(ps, City)),
      Resolve(Column(ps, Zip)))
  }

  /** `parse_results` on an already-decoded body: false (None) without placemarks. */
  function Parse(data: Response): (r: Option<Geocode>)
    ensures r.None? <==> |data.placemarks| == 0
  {
    if |data.placemarks| == 0 then None else Some(Extract(data.placemarks))
  }

  /** The two properties of `Winner` pin the position down uniquely. */
  lemma {:induction false} WinnerUnique(s: seq<Value>, k: nat)
    requires k < |s|
    requires forall j :: 0 <= j < k ==> IsEmpty(s[j])
    requires !IsEmpty(s[k]) || k == |s| - 1
    ensures Winner(s) == k
  {
  }

  /** A field equals the first non-empty value of its column. */
  lemma {:induction false} ResolveFirstNonEmpty(s: seq<Value>, k: nat)
    requires k < |s| && !IsEmpty(s[k])
    requires forall j :: 0 <= j < k ==> IsEmpty(s[j])
    ensures Resolve(s) == s[k]
  {
  }

  /** A field ends empty exactly when every value of its column is empty. */
  lemma {:induction false} ResolveAllEmpty(s: seq<Value>)
    ensures IsEmpty(Resolve(s)) <==> forall j :: 0 <= j < |s| ==> IsEmpty(s[j])
  {
  }

  /** Once a field holds a non-empty value, later placemarks do not change it. */
  lemma {:induction false} ResolveStable(a: seq<Value>, b: seq<Value>)
    requires !IsEmpty(Resolve(a))
    ensures Resolve(a + b) == Resolve(a)
  {
    var w := Winner(a);
    assert (a + b)[w] == a[w];
    forall j | 0 <= j < w ensures IsEmpty((a + b)[j]) {
      assert (a + b)[j] == a[j];
    }
    WinnerUnique(a + b, w);
  }

  /** One step of the scan: an empty field takes the next value, a non-empty one keeps its own. */
  lemma {:induction false} WinnerSnoc(s: seq<Value>, x: Value)
    requires |s| > 0
    ensures Winner(s + [x]) == if IsEmpty(s[Winner(s)]) then |s| else Winner(s)
  {
    var w := Winner(s);
    var t := s + [x];
    if IsEmpty(s[w]) {
      assert w == |s| - 1;
      forall j | 0 <= j < |s| ensures IsEmpty(t[j]) {
        assert t[j] == s[j];
      }
      WinnerUnique(t, |s|);
    } else {
      forall j | 0 <= j < w ensures IsEmpty(t[j]) {
        assert t[j] == s[j];
      }
      assert t[w] == s[w];
      WinnerUnique(t, w);
    }
  }

  lemma {:induction false} ResolveSnoc(s: seq<Value>, x: Value)
    ensures Resolve(s + [x]) == if IsEmpty(Resolve(s)) then x else Resolve(s)
  {
    if |s| == 0 {
      assert s + [x] == [x];
    } else {
      WinnerSnoc(s, x);
    }
  }

  lemma {:induction false} ColumnSnoc(ps: seq<Placemark>, i: nat, f: Field)
    requires i < |ps|
    ensures Column(ps[..i + 1], f) == Column(ps[..i], f) + [Candidate(ps[i], f)]
  {
  }

  /** How one placemark changes what a field holds, after the placemarks before it. */
  lemma {:induction false} FieldStep(ps: seq<Placemark>, i: nat, f: Field)
    requires i < |ps|
    ensures var before := Resolve(Column(ps[..i], f));
            Resolve(Column(ps[..i + 1], f)) == if IsEmpty(before) then Candidate(ps[i], f) else before
  {
    ColumnSnoc(ps, i, f);
    ResolveSnoc(Column(ps[..i], f), Candidate(ps[i], f));
  }

  /** The placemark latitude and longitude come from, after one more placemark. */
  lemma {:induction false} PairStep(ps: seq<Placemark>, i: nat)
    requires i < |ps|
    ensures var w := Winner(Column(ps[..i + 1], Lat));
            if i == 0 || IsEmpty(Resolve(Column(ps[..i], Lat))) then w == i
            else w == Winner(Column(ps[..i], Lat))
  {
    ColumnSnoc(ps, i, Lat);
    if i > 0 {
      WinnerSnoc(Column(ps[..i], Lat), Candidate(ps[i], Lat));
    }
  }

  /** What field `f` holds once the loop has seen the first `i` placemarks, one step at a time. */
  function Settled(ps: seq<Placemark>, i: nat, f: Field): Value
    requires i <= |ps|
  {
    if i == 0 then Null
    else
      var before := Settled(ps, i - 1, f);
      if IsEmpty(before) then Candidate(ps[i - 1], f) else before
  }

  /** The longitude once the loop has seen the first `i` placemarks: it is assigned whenever latitude is. */
  function SettledLng(ps: seq<Placemark>, i: nat): Value
    requires i <= |ps|
  {
    if i == 0 then Null
    else if IsEmpty(Settled(ps, i - 1, Lat)) then Coordinate(ps[i - 1], 1)
    else SettledLng(ps, i - 1)
  }

  /** The step-by-step scan ends on the first non-empty value of the column. */
  lemma {:induction false} SettledResolves(ps: seq<Placemark>, i: nat, f: Field)
    requires i <= |ps|
    ensures Settled(ps, i, f) == Resolve(Column(ps[..i], f))
  {
    if i > 0 {
      SettledResolves(ps, i - 1, f);
      FieldStep(ps, i - 1, f);
    }
  }

  /** The step-by-step longitude is the one of the placemark latitude came from. */
  lemma {:induction false} SettledLngPairs(ps: seq<Placemark>, i: nat)
    requires 0 < i <= |ps|
    ensures SettledLng(ps, i) == Coordinate(ps[Winner(Column(ps[..i], Lat))], 1)
  {
    SettledResolves(ps, i - 1, Lat);
    PairStep(ps, i - 1);
    if i > 1 && !IsEmpty(Settled(ps, i - 1, Lat)) {
      SettledLngPairs(ps, i - 1);
    }
  }

  /**
   * The loop of `parse_results`: for every placemark in order, each field that is
   * still empty takes this placemark's candidate; latitude and longitude are assigned
   * together.
   */
  method ScanPlacemarks(ps: seq<Placemark>) returns (g: Geocode)
    ensures g == Extract(ps)
  {
    var lat, lng, address, state, city, zip := Null, Null, Null, Null, Null, Null;
    var i := 0;
    while i < |ps|
      invariant 0 <= i <= |ps|
      invariant lat == Settled(ps, i, Lat) && lng == SettledLng(ps, i)
      invariant address == Settled(ps, i, Address)
      invariant state == Settled(ps, i, State)
      invariant city == Settled(ps, i, City)
      invariant zip == Settled(ps, i, Zip)
    {
      var p := ps[i];
      if IsEmpty(lat) {
        lat, lng := Coordinate(p, 0), Coordinate(p, 1);
      }
      if IsEmpty(address) {
        address := p.address;
      }
      if IsEmpty(state) {
        state := StateName(p);
      }
      if IsEmpty(city) {
        city := LocalityName(SubAreaLocality(p));
        if IsEmpty(city) {
          city := LocalityName(AreaLocality(p));
        }
      }
      if IsEmpty(zip) {
        zip := PostalCodeNumber(SubAreaLocality(p));
        if IsEmpty(zip) {
          zip := PostalCodeNumber(AreaLocality(p));
        }
      }
      i := i + 1;
    }
    assert ps[..i] == ps;
    SettledResolves(ps, i, Lat);
    SettledResolves(ps, i, Address);
    SettledResolves(ps, i, State);
    SettledResolves(ps, i, City);
    SettledResolves(ps, i, Zip);
    if i > 0 {
      SettledLngPairs(ps, i);
    }
    g := Geocode(lat, lng, address, state, city, zip);
  }

  /** The value record `g` holds for field `f`. */
  function FieldValue(g: Geocode, f: Field): Value
  {
    match f
    case Lat => g.lat
    case Address => g.address
    case State => g.state
    case City => g.city
    case Zip => g.zip
  }

  lemma {:induction false} ColumnAppend(ps: seq<Placemark>, qs: seq<Placemark>, f: Field)
    ensures Column(ps + qs, f) == Column(ps, f) + Column(qs, f)
  {
  }

  /**
   * Each field of the record is the candidate of the first placemark, in array order,
   * that offers a non-empty one for that field; the fields are settled independently.
   */
  lemma {:induction false} ExtractFirstNonEmpty(ps: seq<Placemark>, f: Field, k: nat)
    requires k < |ps| && !IsEmpty(Candidate(ps[k], f))
    requires forall j :: 0 <= j < k ==> IsEmpty(Candidate(ps[j], f))
    ensures FieldValue(Extract(ps), f) == Candidate(ps[k], f)
  {
    ResolveFirstNonEmpty(Column(ps, f), k);
  }

  /** A field is left empty exactly when no placemark offers a non-empty candidate for it. */
  lemma {:induction false} ExtractNoCandidate(ps: seq<Placemark>, f: Field)
    ensures IsEmpty(FieldValue(Extract(ps), f)) <==> forall j :: 0 <= j < |ps| ==> IsEmpty(Candidate(ps[j], f))
  {
    var c := Column(ps, f);
    ResolveAllEmpty(c);
    assert forall j :: 0 <= j < |ps| ==> c[j] == Candidate(ps[j], f);
  }

  /**
   * Latitude and longitude come from one and the same placemark: the first whose
   * first coordinate is non-empty gives `coordinates[0]` as lat and `coordinates[1]` as lng.
   */
  lemma {:induction false} ExtractPairsCoordinates(ps: seq<Placemark>, k: nat)
    requires k < |ps| && !IsEmpty(Coordinate(ps[k], 0))
    requires forall j :: 0 <= j < k ==> IsEmpty(Coordinate(ps[j], 0))
    ensures Extract(ps).lat == Coordinate(ps[k], 0)
    ensures Extract(ps).lng == Coordinate(ps[k], 1)
  {
    WinnerUnique(Column(ps, Lat), k);
  }

  /**
   * Placemarks after the ones that filled a field cannot change it; the longitude
   * stays with its latitude.
   */
  lemma {:induction false} ExtractStable(ps: seq<Placemark>, qs: seq<Placemark>, f: Field)
    requires !IsEmpty(FieldValue(Extract(ps), f))
    ensures FieldValue(Extract(ps + qs), f) == FieldValue(Extract(ps), f)
    ensures f == Lat ==> Extract(ps + qs).lng == Extract(ps).lng
  {
    ColumnAppend(ps, qs, f);
    ResolveStable(Column(ps, f), Column(qs, f));
    if f == Lat {
      var c := Column(ps, Lat);
      var w := Winner(c);
      forall j | 0 <= j < w ensures IsEmpty((c + Column(qs, Lat))[j]) {
        assert (c + Column(qs, Lat))[j] == c[j];
      }
      assert (c + Column(qs, Lat))[w] == c[w];
      WinnerUnique(c + Column(qs, Lat), w);
      assert (ps + qs)[w] == ps[w];
    }
  }
}
