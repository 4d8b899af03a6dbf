/**
 Normalisation of the per-form settings: `allowed_countries` is coerced into
 an array when the settings are read, when they are saved, and when the
 settings form validates the field.
 */
module FormSettings {
  import opened Wrappers
  import opened PhpValues
  import opened PhpStrings

  /** `array_map('trim', explode(',', $s))`. */
  function SplitCountries(s: string): (r: seq<Value>)
    ensures |r| == |Explode(",", s)|
    ensures forall i :: 0 <= i < |r| ==> r[i].Str? && r[i].s == Trim(Explode(",", s)[i])
  {
    var parts := Explode(",", s);
    seq(|parts|, i requires 0 <= i < |parts| => Str(Trim(parts[i])))
  }

  /** The coercion `get_form_settings` applies to a set `allowed_countries`. */
  function NormalizeAllowed(v: Value): (r: Value)
    ensures IsArray(r)
    ensures IsArray(v) ==> r == v
    ensures v.Str? && Contains(v.s, ",") ==> r == List(SplitCountries(v.s))
    ensures v.Str? && !Contains(v.s, ",") && Truthy(v) ==> r == List([v])
    ensures !IsArray(v) && !(v.Str? && (Contains(v.s, ",") || Truthy(v))) ==> r == List([])
  {
    if v.Str? then
      if Contains(v.s, ",") then List(SplitCountries(v.s))
      else if Truthy(v) then List([v])
      else List([])
    else if !IsArray(v) then List([])
    else v
  }

  /** What `parent::get_form_settings` stored, seen as string-keyed settings; anything else is empty. */
  function AsRecord(stored: Value): (r: Record)
    ensures forall k :: Get(r, k) == Index(stored, k)
  {
    if stored.Dict? then stored.fields else map[]
  }

  /**
   `get_form_settings`: every other setting as stored, and `allowed_countries`
   always present as an array.
   */
  function GetFormSettings(stored: Value): (r: Record)
    ensures "allowed_countries" in r && IsArray(r["allowed_countries"])
    ensures forall k :: k != "allowed_countries" ==> Get(r, k) == Index(stored, k)
    ensures IsArray(Index(stored, "allowed_countries")) ==> r["allowed_countries"] == Index(stored, "allowed_countries")
    ensures !IsSet(Index(stored, "allowed_countries")) ==> r["allowed_countries"] == List([])
    ensures IsSet(Index(stored, "allowed_countries")) ==>
      r["allowed_countries"] == NormalizeAllowed(Index(stored, "allowed_countries"))
  {
    var base := AsRecord(stored);
    var allowed := Get(base, "allowed_countries");
    base["allowed_countries" := if IsSet(allowed) then NormalizeAllowed(allowed) else List([])]
  }

  /** `filter_settings`: a set, non-array `allowed_countries` becomes `[]` or a one-element array. */
  function FilterSettings(settings: Record): (r: Record)
    ensures forall k :: k != "allowed_countries" ==> Get(r, k) == Get(settings, k)
    ensures IsSet(Get(settings, "allowed_countries")) ==> IsArray(Get(r, "allowed_countries"))
    ensures !IsSet(Get(settings, "allowed_countries")) || IsArray(Get(settings, "allowed_countries")) ==> r == settings
    ensures var a := Get(settings, "allowed_countries");
      IsSet(a) && !IsArray(a) ==> Get(r, "allowed_countries") == (if Truthy(a) then List([a]) else List([]))
  {
    var a := Get(settings, "allowed_countries");
    if IsSet(a) && !IsArray(a) then
      settings["allowed_countries" := if Truthy(a) then List([a]) else List([])]
    else settings
  }

  /** The value `validate_allowed_countries` checks: a string becomes a singleton, any other non-array `[]`. */
  function AsCountryList(value: Value): (r: Value)
    ensures IsArray(r)
    ensures value.Str? ==> r == List([value])
    ensures IsArray(value) ==> r == value
  {
    if value.Str? then List([value]) else if !IsArray(value) then List([]) else value
  }

  /** `validate_allowed_countries`: rejects an empty selection only while country validation is on. */
  function ValidateAllowedCountries(value: Value, current: Record): (ok: bool)
    ensures !ok <==> Truthy(Get(current, "enable_country_validation"))
                     && !value.Str? && !(IsArray(value) && Truthy(value))
  {
    !(Truthy(Get(current, "enable_country_validation")) && !Truthy(AsCountryList(value)))
  }

  // ---------------------------------------------------------------------------
  // Facts about the normalisation
  // ---------------------------------------------------------------------------

  /** Reading settings that were already normalised changes nothing. */
  lemma GetFormSettingsIdempotent(stored: Value)
    ensures GetFormSettings(Dict(GetFormSettings(stored))) == GetFormSettings(stored)
  {
  }

  /** Filtering twice is filtering once. */
  lemma FilterSettingsIdempotent(settings: Record)
    ensures FilterSettings(FilterSettings(settings)) == FilterSettings(settings)
  {
  }

  /** A list of names without surrounding whitespace, joined by ",", is split back into the same names. */
  lemma {:induction false} SplitRejoins(s: string)
    requires forall i :: 0 <= i < |Explode(",", s)| ==>
      var p := Explode(",", s)[i]; |p| > 0 ==> !IsTrimmable(p[0]) && !IsTrimmable(p[|p| - 1])
    ensures var names := SplitCountries(s);
      Implode(",", seq(|names|, i requires 0 <= i < |names| => names[i].s)) == s
  {
    var parts := Explode(",", s);
    var names := SplitCountries(s);
    var texts := seq(|names|, i requires 0 <= i < |names| => names[i].s);
    forall i | 0 <= i < |parts| ensures texts[i] == parts[i] {
      TrimIdentity(parts[i]);
    }
    assert texts == parts;
    ImplodeExplode(",", s);
  }

  /** Two comma-free names joined by a comma split into the two names, trimmed. */
  lemma {:induction false} SplitPair(a: string, b: string)
    requires !Contains(a, ",") && !Contains(b, ",")
    ensures SplitCountries(a + "," + b) == [Str(Trim(a)), Str(Trim(b))]
  {
    var parts := [a, b];
    assert Implode(",", parts) == a + "," + b by {
      assert Implode(",", parts[1..]) == b;
    }
    ExplodeImplode(",", parts);
  }

  /** A saved "a,b" list of two comma-free names is read back as the two names, trimmed. */
  lemma {:induction false} SettingsSplitPair(a: string, b: string)
    requires !Contains(a, ",") && !Contains(b, ",")
    ensures GetFormSettings(Dict(map["allowed_countries" := Str(a + "," + b)]))["allowed_countries"]
      == List([Str(Trim(a)), Str(Trim(b))])
  {
    var s := a + "," + b;
    assert Contains(s, ",") by {
      assert s[|a|..|a| + 1] == ",";
      assert At(s, |a|, ",");
    }
    SplitPair(a, b);
  }
}
