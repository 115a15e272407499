/**
 * Reading a position out of a photo's EXIF GPS block, and the reverse lookup
 * that turns it into a place name. Arithmetic is over `real`: no rounding is
 * modelled.
 */
module Geocoding {
  import opened Common

  /** Degrees, minutes and seconds as stored in an EXIF GPS coordinate. */
  datatype Dms = Dms(degrees: real, minutes: real, seconds: real)

  /** The GPS fields that are read; a missing field is `None`. */
  datatype GpsBlock = GpsBlock(latitude: Option<Dms>, latitudeRef: Option<string>, longitude: Option<Dms>, longitudeRef: Option<string>)

  /** The decoded EXIF data, with or without a GPS block. */
  datatype ExifData = ExifData(gps: Option<GpsBlock>)

  datatype Coordinates = Coordinates(latitude: real, longitude: real)

  /** The magnitude in decimal degrees. */
  function Magnitude(c: Dms): real
  {
    c.degrees + c.minutes / 60.0 + c.seconds / 3600.0
  }

  /** Whether a direction reference points south or west; the comparison is exact and case-sensitive. */
  predicate IsNegativeDirection(direction: string)
  {
    direction == "S" || direction == "W"
  }

  /** `convertDMSToDD`: the magnitude, negated for the southern and western hemispheres. */
  function ConvertDmsToDd(c: Dms, direction: string): (r: real)
    ensures IsNegativeDirection(direction) ==> r == -Magnitude(c)
    ensures !IsNegativeDirection(direction) ==> r == Magnitude(c)
  {
    var dd := Magnitude(c);
    if IsNegativeDirection(direction) then -dd else dd
  }

  /** With non-negative components, south and west give a value at most zero, every other reference one at least zero. */
  lemma ConvertSign(c: Dms, direction: string)
    requires c.degrees >= 0.0 && c.minutes >= 0.0 && c.seconds >= 0.0
    ensures IsNegativeDirection(direction) ==> ConvertDmsToDd(c, direction) <= 0.0
    ensures !IsNegativeDirection(direction) ==> ConvertDmsToDd(c, direction) >= 0.0
  {
  }

  /** The two hemispheres of an axis are mirror images: `S` is the negation of `N`, `W` of `E`. */
  lemma ConvertMirror(c: Dms)
    ensures ConvertDmsToDd(c, "S") == -ConvertDmsToDd(c, "N")
    ensures ConvertDmsToDd(c, "W") == -ConvertDmsToDd(c, "E")
  {
  }

  /** `getCoordinatesFromExif`: both coordinates when the GPS block and all four fields are present, else nothing. */
  function GetCoordinatesFromExif(exif: ExifData): (r: Option<Coordinates>)
    ensures r.Some? <==>
      exif.gps.Some? && exif.gps.value.latitude.Some? && exif.gps.value.longitude.Some?
      && Truthy(exif.gps.value.latitudeRef) && Truthy(exif.gps.value.longitudeRef)
    ensures r.Some? ==>
      var g := exif.gps.value;
      r.value.latitude == ConvertDmsToDd(g.latitude.value, g.latitudeRef.value)
      && r.value.longitude == ConvertDmsToDd(g.longitude.value, g.longitudeRef.value)
  {
    match exif.gps
    case None => None
    case Some(g) =>
      if g.latitude.None? || g.longitude.None? || !Truthy(g.latitudeRef) || !Truthy(g.longitudeRef) then None
      else Some(Coordinates(ConvertDmsToDd(g.latitude.value, g.latitudeRef.value),
                            ConvertDmsToDd(g.longitude.value, g.longitudeRef.value)))
  }

  /** Latitude is read only from the latitude fields and longitude only from the longitude fields. */
  lemma CoordinatesIndependent(exif: ExifData, lon: Dms, lonRef: string)
    requires GetCoordinatesFromExif(exif).Some? && lonRef != ""
    ensures var g := exif.gps.value;
      var other := ExifData(Some(g.(longitude := Some(lon), longitudeRef := Some(lonRef))));
      GetCoordinatesFromExif(other).Some?
      && GetCoordinatesFromExif(other).value.latitude == GetCoordinatesFromExif(exif).value.latitude
      && GetCoordinatesFromExif(other).value.longitude == ConvertDmsToDd(lon, lonRef)
  {
  }

  /** The lookup `getLocationFromExif` performs (the coordinates it queries, if any) and the place name it returns. */
  datatype LocationLookup = LocationLookup(query: Option<Coordinates>, location: Option<string>)

  /**
   * `getLocationFromExif`: `reverse` stands for the reverse-geocoding request,
   * giving the `display_name` of the reply, or `None` when the request fails.
   */
  function GetLocationFromExif(exif: ExifData, reverse: Coordinates -> Option<string>): (r: LocationLookup)
    ensures r.query == GetCoordinatesFromExif(exif)
    ensures r.query.None? ==> r.location.None?
    ensures r.query.Some? ==> r.location == (if Truthy(reverse(r.query.value)) then reverse(r.query.value) else None)
  {
    match GetCoordinatesFromExif(exif)
    case None => LocationLookup(None, None)
    case Some(c) =>
      var name := reverse(c);
      LocationLookup(Some(c), if Truthy(name) then name else None)
  }

  /** Without a usable GPS block no request is made and no place is returned. */
  lemma NoGpsNoLookup(exif: ExifData, reverse: Coordinates -> Option<string>)
    requires exif.gps.None?
    ensures GetLocationFromExif(exif, reverse) == LocationLookup(None, None)
  {
  }
}
