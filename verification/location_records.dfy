/**
 Location records: the whitelist that cleans a provider answer before it is
 cached, the shapes of the error records, and the one-line rendering used in
 entry notes.
 */
module LocationRecords {
  import opened PhpValues
  import opened Platform
  import opened PhpStrings

  /** The only fields a cached record may carry, in the order they are copied. */
  const Whitelist: seq<string> := [
    "country_name", "city", "region_name", "continent_name",
    "latitude", "longitude", "country_code", "zip", "is_error",
    "error_message", "test_mode"
  ]

  /** Numbers and numeric strings are kept as they are; everything else goes through `sanitize_text_field`. */
  function CleanValue(env: Env, v: Value): Value {
    if IsNumeric(env, v) then v else Str(SanitizeField(env, v))
  }

  /** The `foreach ($allowed_fields as $field)` loop over the given field names. */
  function CleanFields(env: Env, fields: Record, names: seq<string>): (r: Record)
    ensures forall k :: k in r <==> k in names && IsSet(Get(fields, k))
    ensures forall k :: k in r ==> r[k] == CleanValue(env, Get(fields, k))
    decreases |names|
  {
    if |names| == 0 then map[]
    else
      var rest := CleanFields(env, fields, names[..|names| - 1]);
      var k := names[|names| - 1];
      assert forall x :: x in names <==> x in names[..|names| - 1] || x == k by {
        assert names == names[..|names| - 1] + [k];
      }
      if IsSet(Get(fields, k)) then rest[k := CleanValue(env, Get(fields, k))] else rest
  }

  /**
   `sanitize_ip_data`: a non-array gives the empty array; otherwise exactly
   the whitelisted fields that are set survive, numbers unchanged and every
   other value as sanitized text.
   */
  function SanitizeIpData(env: Env, v: Value): (r: Record)
    ensures !v.Dict? ==> r == map[]
    ensures forall k :: k in r <==> k in Whitelist && IsSet(Index(v, k))
    ensures forall k :: k in r && IsNumeric(env, Index(v, k)) ==> r[k] == Index(v, k)
    ensures forall k :: k in r && !IsNumeric(env, Index(v, k)) ==> r[k] == Str(SanitizeField(env, Index(v, k)))
  {
    if v.Dict? then CleanFields(env, v.fields, Whitelist) else map[]
  }

  /** An error placeholder record, as built on every failed lookup. */
  function ErrorRecord(title: string, message: Value): Record {
    map["country_name" := Str(title), "is_error" := Bool(true), "error_message" := message]
  }

  /** The record returned for an empty IP address; it is never sanitized nor cached. */
  const EmptyIpRecord: Record := ErrorRecord("Invalid IP", Str("Empty IP address provided"))

  /** A record is an error placeholder when its `is_error` field is truthy. */
  predicate IsError(r: Record) {
    Truthy(Get(r, "is_error"))
  }

  predicate EndsWith(s: string, suffix: string) {
    |suffix| <= |s| && s[|s| - |suffix|..] == suffix
  }

  /**
   `format_location_text`: "city, country (region)". The region is compared
   with the city through their string renderings.
   */
  function FormatLocationText(d: Record): (r: string)
    ensures !Truthy(Get(d, "country_name")) ==> r == ""
    ensures Truthy(Get(d, "country_name")) && Truthy(Get(d, "city")) ==>
      StartsWith(r, Text(Get(d, "city")) + ", " + Text(Get(d, "country_name")))
    ensures Truthy(Get(d, "country_name")) && !Truthy(Get(d, "city")) ==>
      StartsWith(r, Text(Get(d, "country_name")))
    ensures Truthy(Get(d, "country_name")) && ShowsRegion(d) ==>
      EndsWith(r, " (" + Text(Get(d, "region_name")) + ")")
    ensures Truthy(Get(d, "country_name")) && !ShowsRegion(d) ==>
      EndsWith(r, Text(Get(d, "country_name")))
  {
    var country := Get(d, "country_name");
    var city := Get(d, "city");
    var region := Get(d, "region_name");
    if !Truthy(country) then ""
    else
      var located := if Truthy(city) then Text(city) + ", " + Text(country) else Text(country);
      assert StartsWith(located + " (" + Text(region) + ")", located) by {
        assert (located + " (" + Text(region) + ")")[..|located|] == located;
      }
      if ShowsRegion(d) then located + " (" + Text(region) + ")" else located
  }

  /** The region is appended when it is non-empty and differs from the city. */
  predicate ShowsRegion(d: Record) {
    Truthy(Get(d, "region_name")) && Text(Get(d, "region_name")) != Text(Get(d, "city"))
  }

  /** With a city and a region different from it, the text is exactly "city, country (region)". */
  lemma FormatLocationFull(d: Record)
    requires Truthy(Get(d, "country_name")) && Truthy(Get(d, "city")) && ShowsRegion(d)
    ensures FormatLocationText(d) ==
      Text(Get(d, "city")) + ", " + Text(Get(d, "country_name")) + " (" + Text(Get(d, "region_name")) + ")"
  {
  }

  /** With a city and no region shown, the text is exactly "city, country". */
  lemma FormatLocationCityOnly(d: Record)
    requires Truthy(Get(d, "country_name")) && Truthy(Get(d, "city")) && !ShowsRegion(d)
    ensures FormatLocationText(d) == Text(Get(d, "city")) + ", " + Text(Get(d, "country_name"))
  {
  }

  /** Without a city the text is exactly the country, followed by " (region)" when the region is shown. */
  lemma FormatLocationNoCity(d: Record)
    requires Truthy(Get(d, "country_name")) && !Truthy(Get(d, "city"))
    ensures FormatLocationText(d) ==
      Text(Get(d, "country_name")) + (if ShowsRegion(d) then " (" + Text(Get(d, "region_name")) + ")" else "")
  {
  }

  /** A region whose text equals the city's is not repeated: the text is exactly "city, country". */
  lemma RegionEqualToCity(d: Record)
    requires Truthy(Get(d, "country_name")) && Truthy(Get(d, "city"))
    requires Text(Get(d, "region_name")) == Text(Get(d, "city"))
    ensures FormatLocationText(d) == Text(Get(d, "city")) + ", " + Text(Get(d, "country_name"))
  {
  }
}
