/** `LocalisationDto`: a named casino location with GPS coordinates and an
    optional address and city. */
module LocalisationDto {
  import opened JsValues
  import opened ClassValidator

  datatype Localisation = Localisation(name: Value, latitude: Value, longitude: Value, address: Value, city: Value)

  /** `name`: `@IsString()` and `@IsNotEmpty()`. */
  predicate NameValid(d: Localisation)
  {
    IsString(d.name) && IsNotEmpty(d.name)
  }

  /** `latitude`: `@IsNumber()`, `@Min(-90)`, `@Max(90)`. */
  predicate LatitudeValid(d: Localisation)
  {
    IsNumber(d.latitude) && Min(d.latitude, -90.0) && Max(d.latitude, 90.0)
  }

  /** `longitude`: `@IsNumber()`, `@Min(-180)`, `@Max(180)`. */
  predicate LongitudeValid(d: Localisation)
  {
    IsNumber(d.longitude) && Min(d.longitude, -180.0) && Max(d.longitude, 180.0)
  }

  /** `address` and `city`: `@IsString()` under `@IsOptional()`. */
  predicate OptionalString(v: Value)
  {
    Absent(v) || IsString(v)
  }

  /** `validate(dto)`: the failing properties, in declaration order. */
  function Validate(d: Localisation): (errors: seq<string>)
    ensures "name" in errors <==> !NameValid(d)
    ensures "latitude" in errors <==> !LatitudeValid(d)
    ensures "longitude" in errors <==> !LongitudeValid(d)
    ensures "address" in errors <==> !OptionalString(d.address)
    ensures "city" in errors <==> !OptionalString(d.city)
  {
    var names := ["name", "latitude", "longitude", "address", "city"];
    var ok := [NameValid(d), LatitudeValid(d), LongitudeValid(d), OptionalString(d.address), OptionalString(d.city)];
    ReportNamesFailures(names, ok, 0);
    ReportNamesFailures(names, ok, 1);
    ReportNamesFailures(names, ok, 2);
    ReportNamesFailures(names, ok, 3);
    ReportNamesFailures(names, ok, 4);
    Report(names, ok)
  }

  /** A location passes exactly when it has a non-empty name and finite
      coordinates inside [-90, 90] x [-180, 180]; address and city may be
      missing but are strings when given. */
  lemma ValidIffInRange(d: Localisation)
    ensures Validate(d) == [] <==>
      && d.name.Str? && d.name.s != ""
      && d.latitude.Num? && -90.0 <= d.latitude.n <= 90.0
      && d.longitude.Num? && -180.0 <= d.longitude.n <= 180.0
      && (d.address.Undefined? || d.address.Null? || d.address.Str?)
      && (d.city.Undefined? || d.city.Null? || d.city.Str?)
  {
    if Validate(d) == [] {
      assert "name" !in Validate(d);
      assert "latitude" !in Validate(d);
      assert "longitude" !in Validate(d);
      assert "address" !in Validate(d);
      assert "city" !in Validate(d);
    }
  }
}
