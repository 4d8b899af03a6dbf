/**
 The save-time override of the add-on's form settings. The enhanced
 multiselect posts its selection as a JSON array in a hidden field named
 after the setting; the override decodes those fields into the settings and
 falls back to the standard multiselect field for `allowed_countries`. It
 runs only for this add-on and only behind a valid nonce, and it sanitizes
 the whole post first.
 */
module SettingsOverride {
  import opened Wrappers
  import opened PhpValues
  import opened Platform
  import opened PhpStrings

  /** One posted key and its value; a post is the list of these in PHP's iteration order. */
  datatype Entry = Entry(key: string, value: Value)

  const MultiselectPrefix := "_gf_multiselect_values_"
  const AddonPrefix := "_gaddon_setting_"
  const AllowedCountries := "allowed_countries"
  /** The standard multiselect's own field. */
  const StandardField := "_gaddon_setting_allowed_countries"
  const AddonSlug := "gravityformsiplocation"

  /** The setting a hidden multiselect field fills: both prefixes removed wherever they occur. */
  function SettingName(key: string): (name: string)
    ensures !Contains(key, MultiselectPrefix) && !Contains(key, AddonPrefix) ==> name == key
  {
    PrefixFreeKept(key);
    ReplaceAll(ReplaceAll(key, MultiselectPrefix, ""), AddonPrefix, "")
  }

  /** A key holding neither prefix passes through both removals unchanged. */
  lemma PrefixFreeKept(key: string)
    ensures !Contains(key, MultiselectPrefix) && !Contains(key, AddonPrefix) ==>
      ReplaceAll(ReplaceAll(key, MultiselectPrefix, ""), AddonPrefix, "") == key
  {
    if !Contains(key, MultiselectPrefix) && !Contains(key, AddonPrefix) {
      ReplaceAllAbsent(key, MultiselectPrefix, "");
      ReplaceAllAbsent(key, AddonPrefix, "");
    }
  }

  /** `array_map('sanitize_text_field', $a)`: every element becomes a sanitized string, keys kept. */
  function SanitizeEach(env: Env, a: Value): (r: Value)
    requires IsArray(a)
    ensures r.List? <==> a.List?
    ensures a.List? ==> (|r.items| == |a.items| &&
      forall i :: 0 <= i < |a.items| ==> r.items[i] == Str(SanitizeField(env, a.items[i])))
    ensures a.Dict? ==> (r.Dict? && r.fields.Keys == a.fields.Keys &&
      forall k :: k in a.fields ==> r.fields[k] == Str(SanitizeField(env, a.fields[k])))
  {
    match a
    case List(items) => List(seq(|items|, i requires 0 <= i < |items| => Str(SanitizeField(env, items[i]))))
    case Dict(m) => Dict(map k | k in m :: Str(SanitizeField(env, m[k])))
  }

  /**
   What a posted entry contributes while the hidden fields are read: the
   setting it names and the sanitized elements of its decoded array. Entries
   under other keys, undecodable text and decoded non-arrays contribute
   nothing.
   */
  function Contribution(env: Env, e: Entry): (r: Option<(string, Value)>)
    ensures r.Some? ==> StartsWith(e.key, MultiselectPrefix) && r.value.0 == SettingName(e.key) && IsArray(r.value.1)
  {
    if !StartsWith(e.key, MultiselectPrefix) then None
    else
      match env.jsonDecode(SanitizeField(env, e.value))
      case None => None
      case Some(decoded) =>
        if IsArray(decoded) then Some((SettingName(e.key), SanitizeEach(env, decoded))) else None
  }

  /** The entry writes setting `name`. */
  predicate Writes(env: Env, e: Entry, name: string) {
    Contribution(env, e).Some? && Contribution(env, e).value.0 == name
  }

  /** The loop over the post: each contribution overwrites its setting, in order. */
  function ReadHiddenFields(env: Env, settings: Record, posted: seq<Entry>): (r: Record)
    ensures settings.Keys <= r.Keys
    ensures NothingContributed(env, posted) ==> r == settings
    decreases |posted|
  {
    if |posted| == 0 then settings
    else
      var before := ReadHiddenFields(env, settings, posted[..|posted| - 1]);
      match Contribution(env, posted[|posted| - 1])
      case None => before
      case Some(c) => before[c.0 := c.1]
  }

  /** No posted entry is a decodable hidden multiselect field. */
  predicate NothingContributed(env: Env, posted: seq<Entry>) {
    forall i :: 0 <= i < |posted| ==> Contribution(env, posted[i]).None?
  }

  /** `$posted_data[$key]`: the value posted under the key, null when there is none. */
  function Lookup(posted: seq<Entry>, key: string): (v: Value)
    ensures IsSet(v) ==> exists i :: 0 <= i < |posted| && posted[i].key == key && posted[i].value == v
    ensures (forall i :: 0 <= i < |posted| ==> posted[i].key != key) ==> v == Null
    decreases |posted|
  {
    if |posted| == 0 then Null
    else if posted[|posted| - 1].key == key then posted[|posted| - 1].value
    else Lookup(posted[..|posted| - 1], key)
  }

  /** The value the standard multiselect field gives `allowed_countries`. */
  function StandardSelection(env: Env, posted: seq<Entry>): (r: Value)
    ensures IsArray(r)
  {
    var p := Lookup(posted, StandardField);
    if !IsSet(p) then List([])
    else if IsArray(p) then SanitizeEach(env, p)
    else List([Str(SanitizeField(env, p))])
  }

  /** `gf_iplocation_process_multiselect_values`. */
  function ProcessMultiselectValues(env: Env, settings: Record, posted: seq<Entry>): (r: Record)
    ensures AllowedCountries in r
    ensures Truthy(r[AllowedCountries]) || IsArray(r[AllowedCountries])
    ensures forall k :: k != AllowedCountries ==> Get(r, k) == Get(ReadHiddenFields(env, settings, posted), k)
    ensures var read := ReadHiddenFields(env, settings, posted);
      Truthy(Get(read, AllowedCountries)) ==> r == read
    ensures var read := ReadHiddenFields(env, settings, posted);
      !Truthy(Get(read, AllowedCountries)) ==> r[AllowedCountries] == StandardSelection(env, posted)
  {
    var read := ReadHiddenFields(env, settings, posted);
    if Truthy(Get(read, AllowedCountries)) then read
    else read[AllowedCountries := StandardSelection(env, posted)]
  }

  /** WordPress `map_deep($v, 'sanitize_text_field')`: every leaf sanitized, the array shape kept. */
  function SanitizeDeep(env: Env, v: Value): (r: Value)
    ensures IsArray(v) <==> IsArray(r)
    ensures !IsArray(v) ==> r == Str(SanitizeField(env, v))
    ensures v.List? ==> (r.List? && |r.items| == |v.items| &&
      forall i :: 0 <= i < |v.items| ==> r.items[i] == SanitizeDeep(env, v.items[i]))
    ensures v.Dict? ==> (r.Dict? && r.fields.Keys == v.fields.Keys &&
      forall k :: k in v.fields ==> r.fields[k] == SanitizeDeep(env, v.fields[k]))
  {
    match v
    case List(items) => List(seq(|items|, i requires 0 <= i < |items| => SanitizeDeep(env, items[i])))
    case Dict(m) => Dict(map k | k in m :: SanitizeDeep(env, m[k]))
    case _ => Str(SanitizeField(env, v))
  }

  /** The post as the override hands it on: arrays deep-sanitized, everything else sanitized. */
  function SanitizePost(env: Env, post: seq<Entry>): (r: seq<Entry>)
    ensures |r| == |post|
    ensures forall i :: 0 <= i < |post| ==> r[i] == Entry(post[i].key, SanitizeDeep(env, post[i].value))
  {
    seq(|post|, i requires 0 <= i < |post| => Entry(post[i].key, SanitizeDeep(env, post[i].value)))
  }

  /**
   `gf_iplocation_form_settings_override`, run before form settings are saved:
   other add-ons' settings and a failed nonce leave the settings untouched.
   */
  function FormSettingsOverride(env: Env, settings: Record, slug: string, nonceValid: bool, post: seq<Entry>): (r: Record)
    ensures slug != AddonSlug || !nonceValid ==> r == settings
    ensures slug == AddonSlug && nonceValid ==>
      AllowedCountries in r && (Truthy(r[AllowedCountries]) || IsArray(r[AllowedCountries]))
  {
    if slug != AddonSlug then settings
    else if !nonceValid then settings
    else ProcessMultiselectValues(env, settings, SanitizePost(env, post))
  }

  // ---------------------------------------------------------------------------
  // Facts about the override
  // ---------------------------------------------------------------------------

  /** A setting no posted entry writes keeps its value through the hidden-field loop. */
  lemma {:induction false} UnwrittenSettingKept(env: Env, settings: Record, posted: seq<Entry>, name: string)
    requires forall i :: 0 <= i < |posted| ==> !Writes(env, posted[i], name)
    ensures Get(ReadHiddenFields(env, settings, posted), name) == Get(settings, name)
    decreases |posted|
  {
    if |posted| > 0 {
      var front := posted[..|posted| - 1];
      assert forall i :: 0 <= i < |front| ==> front[i] == posted[i];
      UnwrittenSettingKept(env, settings, front, name);
      assert !Writes(env, posted[|posted| - 1], name);
    }
  }

  /** The last entry writing a setting decides it: later entries for other settings do not disturb it. */
  lemma {:induction false} LastWriterWins(env: Env, settings: Record, posted: seq<Entry>, i: nat, name: string)
    requires i < |posted| && Writes(env, posted[i], name)
    requires forall j :: i < j < |posted| ==> !Writes(env, posted[j], name)
    ensures Get(ReadHiddenFields(env, settings, posted), name) == Contribution(env, posted[i]).value.1
    decreases |posted|
  {
    var front := posted[..|posted| - 1];
    if i < |posted| - 1 {
      assert forall j :: i < j < |front| ==> front[j] == posted[j];
      assert front[i] == posted[i];
      LastWriterWins(env, settings, front, i, name);
      assert !Writes(env, posted[|posted| - 1], name);
    }
  }

  /** A sanitizer that leaves its own output alone. */
  ghost predicate IdempotentSanitizer(env: Env) {
    forall s :: env.sanitizeText(env.sanitizeText(s)) == env.sanitizeText(s)
  }

  /** With such a sanitizer, sanitizing a value deeply a second time changes nothing. */
  lemma {:induction false} SanitizeDeepIdempotent(env: Env, v: Value)
    requires IdempotentSanitizer(env)
    ensures SanitizeDeep(env, SanitizeDeep(env, v)) == SanitizeDeep(env, v)
    decreases v
  {
    match v
    case List(items) =>
      var once := SanitizeDeep(env, v);
      forall i | 0 <= i < |items| ensures SanitizeDeep(env, once.items[i]) == once.items[i] {
        SanitizeDeepIdempotent(env, items[i]);
      }
      assert SanitizeDeep(env, once).items == once.items;
    case Dict(m) =>
      var once := SanitizeDeep(env, v);
      forall k | k in m ensures SanitizeDeep(env, once.fields[k]) == once.fields[k] {
        SanitizeDeepIdempotent(env, m[k]);
      }
      assert SanitizeDeep(env, once).fields == once.fields;
    case _ =>
  }

  /**
   With such a sanitizer, the elements a posted array yields are the same
   whether or not the post was deep-sanitized first.
   */
  lemma SanitizeEachAfterDeep(env: Env, a: Value)
    requires IdempotentSanitizer(env) && IsArray(a)
    ensures SanitizeEach(env, SanitizeDeep(env, a)) == SanitizeEach(env, a)
  {
    match a
    case List(items) =>
      var deep := SanitizeDeep(env, a);
      forall i | 0 <= i < |items| ensures SanitizeField(env, deep.items[i]) == SanitizeField(env, items[i]) {
      }
      assert SanitizeEach(env, deep).items == SanitizeEach(env, a).items;
    case Dict(m) =>
      var deep := SanitizeDeep(env, a);
      forall k | k in m ensures SanitizeField(env, deep.fields[k]) == SanitizeField(env, m[k]) {
      }
      assert SanitizeEach(env, deep).fields == SanitizeEach(env, a).fields;
  }

  /**
   A standard multiselect post with no hidden fields and no saved selection
   saves the sanitized selection.
   */
  lemma StandardMultiselectSaved(env: Env, settings: Record, post: seq<Entry>)
    requires IdempotentSanitizer(env)
    requires forall i :: 0 <= i < |post| ==> !StartsWith(post[i].key, MultiselectPrefix)
    requires !Truthy(Get(settings, AllowedCountries))
    requires IsArray(Lookup(post, StandardField))
    ensures FormSettingsOverride(env, settings, AddonSlug, true, post)[AllowedCountries]
      == SanitizeEach(env, Lookup(post, StandardField))
  {
    var clean := SanitizePost(env, post);
    forall i | 0 <= i < |clean| ensures !Writes(env, clean[i], AllowedCountries) {
    }
    UnwrittenSettingKept(env, settings, clean, AllowedCountries);
    LookupAfterSanitize(env, post, StandardField);
    SanitizeEachAfterDeep(env, Lookup(post, StandardField));
  }

  /** With such a sanitizer, an entry contributes the same before and after the post is sanitized. */
  lemma ContributionAfterSanitize(env: Env, e: Entry)
    requires IdempotentSanitizer(env)
    ensures Contribution(env, Entry(e.key, SanitizeDeep(env, e.value))) == Contribution(env, e)
  {
    assert SanitizeField(env, SanitizeDeep(env, e.value)) == SanitizeField(env, e.value);
  }

  /**
   A hidden multiselect field that selects countries, and is the last one
   naming `allowed_countries`, decides the saved selection.
   */
  lemma {:induction false} EnhancedMultiselectSaved(env: Env, settings: Record, post: seq<Entry>, i: nat)
    requires IdempotentSanitizer(env)
    requires i < |post| && Writes(env, post[i], AllowedCountries)
    requires forall j :: i < j < |post| ==> !Writes(env, post[j], AllowedCountries)
    requires Truthy(Contribution(env, post[i]).value.1)
    ensures FormSettingsOverride(env, settings, AddonSlug, true, post)[AllowedCountries]
      == Contribution(env, post[i]).value.1
  {
    var clean := SanitizePost(env, post);
    forall j | 0 <= j < |post| ensures Contribution(env, clean[j]) == Contribution(env, post[j]) {
      ContributionAfterSanitize(env, post[j]);
    }
    LastWriterWins(env, settings, clean, i, AllowedCountries);
  }

  /** Looking a key up in the sanitized post finds the sanitized value. */
  lemma {:induction false} LookupAfterSanitize(env: Env, post: seq<Entry>, key: string)
    ensures IsSet(Lookup(post, key)) ==> Lookup(SanitizePost(env, post), key) == SanitizeDeep(env, Lookup(post, key))
    decreases |post|
  {
    if |post| > 0 {
      var n := |post| - 1;
      assert SanitizePost(env, post)[..n] == SanitizePost(env, post[..n]);
      LookupAfterSanitize(env, post[..n], key);
    }
  }

  /** The hidden field for a setting whose name contains neither prefix fills that setting. */
  lemma HiddenFieldName(name: string)
    requires !Contains(name, MultiselectPrefix) && !Contains(name, AddonPrefix)
    ensures SettingName(MultiselectPrefix + name) == name
  {
    ReplaceAllFront(MultiselectPrefix, name, "");
    assert ReplaceAll(MultiselectPrefix + name, MultiselectPrefix, "") == name by {
      ReplaceAllAbsent(name, MultiselectPrefix, "");
    }
    ReplaceAllAbsent(name, AddonPrefix, "");
  }

  /**
   The same holds when the hidden field is named after the add-on's own setting
   field, as long as no multiselect prefix straddles the add-on prefix and the name.
   */
  lemma HiddenAddonFieldName(name: string)
    requires !Contains(AddonPrefix + name, MultiselectPrefix) && !Contains(name, AddonPrefix)
    ensures SettingName(MultiselectPrefix + AddonPrefix + name) == name
  {
    var inner := AddonPrefix + name;
    assert MultiselectPrefix + AddonPrefix + name == MultiselectPrefix + inner;
    ReplaceAllFront(MultiselectPrefix, inner, "");
    assert ReplaceAll(MultiselectPrefix + inner, MultiselectPrefix, "") == inner by {
      ReplaceAllAbsent(inner, MultiselectPrefix, "");
    }
    ReplaceAllFront(AddonPrefix, name, "");
    assert ReplaceAll(inner, AddonPrefix, "") == name by {
      ReplaceAllAbsent(name, AddonPrefix, "");
    }
  }

  /** Both hidden fields the settings page posts for the country list fill `allowed_countries`. */
  lemma AllowedCountriesHiddenNames()
    ensures SettingName(MultiselectPrefix + AllowedCountries) == AllowedCountries
    ensures SettingName(MultiselectPrefix + AddonPrefix + AllowedCountries) == AllowedCountries
  {
    AllowedCountriesFreeOfPrefixes();
    AddonAllowedFreeOfMultiselect();
    HiddenFieldName(AllowedCountries);
    HiddenAddonFieldName(AllowedCountries);
  }

  /** `allowed_countries` starts with a letter and is shorter than the multiselect prefix. */
  lemma AllowedCountriesFreeOfPrefixes()
    ensures !Contains(AllowedCountries, MultiselectPrefix) && !Contains(AllowedCountries, AddonPrefix)
  {
    forall j: nat | j <= |AllowedCountries| ensures !At(AllowedCountries, j, AddonPrefix) {
      if j + |AddonPrefix| <= |AllowedCountries| {
        assert AllowedCountries[j..j + |AddonPrefix|][0] == AllowedCountries[j];
        assert j == 0 || j == 1;
      }
    }
  }

  /** No multiselect prefix occurs in `_gaddon_setting_allowed_countries`. */
  lemma AddonAllowedFreeOfMultiselect()
    ensures !Contains(AddonPrefix + AllowedCountries, MultiselectPrefix)
  {
    var s := AddonPrefix + AllowedCountries;
    assert s == "_gaddon_setting_allowed_countries";
    forall j: nat | j <= |s| ensures !At(s, j, MultiselectPrefix) {
      if j + |MultiselectPrefix| <= |s| {
        // A match would need an underscore both at j and at j + 22.
        var w := s[j..j + |MultiselectPrefix|];
        assert w[0] == s[j] && w[22] == s[j + 22];
        if j == 0 {
          assert s[22] == 'd';
        } else if j == 7 {
          assert s[29] == 'r';
        } else {
          assert s[j] != '_';
        }
      }
    }
  }
}
