# Gravity Forms IP Location — a Dafny model

This project models the core of the Gravity Forms IP Location add-on for WordPress. The add-on looks up a form submitter's IP address with the ipstack geolocation service and caches the answer in three layers:

- a request-scoped LRU cache;
- the WordPress object cache;
- transients.

It uses the resolved location in three places:

- to reject submissions from countries outside a per-form allow-list;
- to fill hidden fields whose default value is a location merge tag such as `{user:country}`;
- to replace those tags in notification text.

After submission it writes one entry note that sums up what happened. The model also covers how `allowed_countries` is coerced into an array when form settings are read, filtered, validated and saved. That includes the save-time handling of the enhanced multiselect's hidden JSON fields.

Everything is stated as pure functions over immutable values. PHP values are a datatype, with arrays split into lists and string-keyed dictionaries, and numbers kept as uninterpreted text (`PhpValues`). The caches and the pending-notes accumulator are maps and sequences threaded through the calls. The platform calls become uninterpreted function fields of `Platform.Env`:

- `sanitize_text_field`, `is_numeric`, `filter_var(FILTER_VALIDATE_IP)` and `json_decode`.

Other outside facts are passed in as parameters:

- the HTTP response, as `string -> ProviderOutcome` keyed by request URL;
- the plugin settings and `is_ssl()`;
- the submitter's IP;
- the nonce verdict.

Modules, in dependency order:

- `Wrappers`, `PhpValues`, `Platform`, `PhpStrings`: PHP values and the string built-ins the add-on calls (`strpos`, `str_replace`, `explode`, `implode`, `trim`).
- `RequestCache`: the request-scoped LRU cache.
- `LocationRecords`: the sanitized location record and its display text.
- `Resolver`: the layered lookup and the write-through to every layer.
- `Notes`: the pending-notes accumulator and the after-submission note.
- `FormSettings`: reading, filtering and validating the per-form settings.
- `CountryGate`: the country validation of a submission.
- `FieldPopulation`: hidden-field population and merge-tag replacement.
- `SettingsOverride`: the save-time multiselect processing.

## Model

| member | source | states |
|---|---|---|
| RequestCache.Empty | gravityformsiplocation.php:96-100 | The initial and the cleared cache are empty and satisfy the cache invariant for every size limit. |
| RequestCache.Operation | gravityformsiplocation.php:221-257 | A put stores and returns its data. An access to a present key returns the stored value and leaves the map as it was. Either way the key ends up at the tail of the recency list. |
| RequestCache.OperationPreservesValid | gravityformsiplocation.php:221-257 | After a put, or an access to a present key, the recency list still has no duplicates and holds exactly the map's keys, and the map holds at most `max(1, cache_max_size)` entries. |
| RequestCache.HitKeepsValid | gravityformsiplocation.php:223-236 | Touching a cached key keeps the cache invariant. |
| RequestCache.EvictKeepsValid | gravityformsiplocation.php:239-245 | Inserting into a full cache keeps the cache invariant. |
| RequestCache.GrowKeepsValid | gravityformsiplocation.php:249-254 | Inserting into a cache with room keeps the cache invariant. |
| RequestCache.TouchMovesToTail | gravityformsiplocation.php:223-236 | Touching a present key moves it from its place to the tail and keeps the key set. An access-only touch returns the stored value and changes nothing else. |
| RequestCache.InsertEvictsHead | gravityformsiplocation.php:239-254 | A new key in a full cache evicts exactly the head of the recency list, and the size stays the same. |
| RequestCache.GrowStep | gravityformsiplocation.php:249-254 | A new key in a cache with room is appended to the recency list and added to the key set. |
| RequestCache.PutAllFresh | gravityformsiplocation.php:249-254 | Inserting distinct fresh keys into a cache with room lists them in insertion order. |
| RequestCache.ReadHead | gravityformsiplocation.php:223-236 | Accessing the least recently used key rotates it to the tail and leaves the map unchanged. |
| RequestCache.EvictionScenario | gravityformsiplocation.php:221-257 | Fill a cache of size `max` with k1..kmax, access k1, insert a new key: k2 is evicted, while k1 and the new key survive. |
| RequestCache.RemoveFirstDistinct | gravityformsiplocation.php:225-231 | Unlinking a key from a duplicate-free recency list removes its only occurrence. |
| RequestCache.OperationAsWritten | gravityformsiplocation.php:221-257 | As written: when the evicted head is a falsy key, it stays in the map. |
| RequestCache.AsWrittenAgrees | gravityformsiplocation.php:241-244 | While the recency list's head is a truthy key, the code as written and the corrected operation agree. |
| RequestCache.FalsyKeyBreaksBound | gravityformsiplocation.php:239-245 | A full cache of size 1 holding key "0" grows to two entries under the code as written, and stays at one under the corrected operation. |
| LocationRecords.CleanFields | gravityformsiplocation.php:1293-1301 | Exactly the listed fields that are set in the input are kept. Numeric values pass through and every other value is sanitized text. |
| LocationRecords.SanitizeIpData | gravityformsiplocation.php:1279-1304 | A non-array gives the empty record. Otherwise the keys are exactly the whitelisted keys set in the input, numeric values are unchanged and the rest are sanitized strings. |
| LocationRecords.FormatLocationText | gravityformsiplocation.php:1147-1163 | The text is empty without a country. Otherwise it starts with "city, country", or with just the country when there is no city. It ends with " (region)" exactly when the region is non-empty and differs from the city, and with the country otherwise. The exact text of each shape is stated by the four lemmas below. |
| LocationRecords.FormatLocationFull | gravityformsiplocation.php:1147-1163 | With a city and a non-empty region different from it, the text is exactly "city, country (region)". |
| LocationRecords.FormatLocationCityOnly | gravityformsiplocation.php:1152-1162 | With a city and no region shown, the text is exactly "city, country". |
| LocationRecords.FormatLocationNoCity | gravityformsiplocation.php:1148-1162 | Without a city, the text is exactly the country, followed by " (region)" when the region is shown. |
| LocationRecords.RegionEqualToCity | gravityformsiplocation.php:1158-1160 | A region whose text equals the city's is not repeated: the text is exactly "city, country". |
| Resolver.Classify | gravityformsiplocation.php:886-916 | The success TTL is used exactly when the body has no non-empty `error` and has a `country_name`. A success keeps every other field and sets `is_error` false. Everything else gets the error TTL and an error record. A non-empty `error` gets the label "API Error" and the message `error.info`, or "Unknown API Error" when that is unset. A body that is neither gets the label "Data Error" and the message "Invalid or empty API response". |
| Resolver.Fetch | gravityformsiplocation.php:848-927 | The provider is asked only for a valid IP with a non-empty key, at `http(s)://api.ipstack.com/<ip>?access_key=<key>`. An invalid IP is reported before a missing key, as "Invalid IP" with "Invalid IP format: <ip>". A missing key gives "API Key Missing" with "IPStack API key is missing". A transport failure gives "API Error" with the transport's message, and a body is classified as above. The TTL is the success TTL exactly when the record is not an error. |
| Resolver.StoreIpData | gravityformsiplocation.php:938-954 | The sanitized record is what is returned. The same record goes into the request cache under the IP, into the object cache under `ipstack_<ip>`, and into the transients under `ipstack_` plus the IP with dots turned into underscores, with the given TTL. |
| Resolver.Resolve | gravityformsiplocation.php:805-845 | An empty IP yields the "Invalid IP" / "Empty IP address provided" error record and touches no cache. Otherwise the returned record is the one the request cache holds for the sanitized IP afterwards, and the provider is asked only when all three layers miss. |
| Resolver.ResolveLayers | gravityformsiplocation.php:819-843 | A request-cache hit is returned with no other effect. An object-cache hit is returned and leaves both stores alone. A transient hit is returned and copied into the object cache with a 3600 s lifetime. |
| Resolver.ResolveMiss | gravityformsiplocation.php:845-954 | When every layer misses, the record is the sanitized fetch result, and both stores receive it with the fetch's TTL. |
| Resolver.ResolveTwice | gravityformsiplocation.php:819-823 | Resolving the same IP again returns the same record without asking the provider. |
| Resolver.WriteThroughReadBack | gravityformsiplocation.php:826-843 | The keys written on a miss are the keys read back. A later request with an empty request cache finds the record through the object cache, or through the transients alone. |
| Resolver.ResolveKeepsCacheValid | gravityformsiplocation.php:805-954 | Resolving keeps the request cache's invariant, with the corrected eviction (see Findings). |
| Resolver.ErrorFlagSurvivesSanitizing | gravityformsiplocation.php:1294-1299 | With a sanitizer that leaves "" and "1" alone, a boolean `is_error` still reads the same after sanitizing. |
| Resolver.ErrorsExpireSooner | gravityformsiplocation.php:859-926 | After a miss, the stored lifetime is 24 h exactly for located records and 1 h exactly for error records. |
| Resolver.TransientKeyInjective | gravityformsiplocation.php:835 | Two addresses without underscores never share a transient key. |
| Notes.RecordValidationError | gravityformsiplocation.php:639-643 | The form's facts get the record and both the validation and the API-error flags, and its after-submission hook is registered. Other forms are untouched. |
| Notes.RecordValidation | gravityformsiplocation.php:662-668 | The form's facts get the record, the allow-list and the validation flag. The type is "combined" exactly when field population already ran, and "validation" otherwise. Other forms are untouched. |
| Notes.RecordMergeError | gravityformsiplocation.php:744-749 | The form's facts get the record, the tagged fields, and the merge-tag and API-error flags. Other forms are untouched. |
| Notes.RecordMerge | gravityformsiplocation.php:788-796 | The form's facts get the record, the tagged fields and the merge-tag flag. The type is "combined" exactly when validation already ran, and "merge_tags" otherwise. The hook is registered once. |
| Notes.Labels | gravityformsiplocation.php:1423 | The labels are the fields' labels, in order. |
| Notes.FormatFieldsText | gravityformsiplocation.php:1421-1425 | Every field's label appears in the fields text, and no fields give the empty text. |
| Notes.ErrorNoteFor | gravityformsiplocation.php:1320-1338 | The note is an error note that quotes the error message. With tagged fields and the merge-tag flag it opens "IP Location service error: <message>" and contains the fields text. Otherwise it opens "IP Location service unavailable or error occurred: <message>". |
| Notes.Finalize | gravityformsiplocation.php:1309-1400 | The form's pending entry is always removed. An error record gives one error note that quotes the error message, or "Unknown API error". It has the field-error wording, and contains the fields text, exactly when tagged fields exist and the merge-tag flag is set. Otherwise a note exists exactly when population or validation ran. It starts "IP Location detected: <location>", is a warning exactly for validation alone with a disallowed country, and carries the fields text and the validation verdict when those ran. |
| Notes.NoteLeads | gravityformsiplocation.php:1324-1338 | The error note has the field-error wording exactly when tagged fields exist and the merge-tag flag is set. |
| Notes.LocatedNoteFor | gravityformsiplocation.php:1350-1396 | A note exists exactly when population or validation ran. It opens with "IP Location detected: <location>", and is a warning exactly for validation alone with a disallowed country. It contains the fields text when population ran and the verdict when validation ran. |
| Notes.FinalizeTwice | gravityformsiplocation.php:1345-1346 | A second finalisation of the same form emits nothing and changes nothing. |
| Notes.WritersYieldNote | gravityformsiplocation.php:1309-1400 | After any of the four writers, finalising the form emits a note. |
| Notes.CombinedEitherOrder | gravityformsiplocation.php:665-666 | Validation then population, or population then validation, both give type "combined". A located record then gets a success note. |
| Notes.FieldsTextSplits | gravityformsiplocation.php:1421-1425 | When no label contains ", ", splitting the fields text at ", " gives back the labels. |
| FormSettings.NormalizeAllowed | gravityformsiplocation.php:1016-1027 | A set `allowed_countries` becomes an array. Arrays are kept, a comma list is split and trimmed, a non-empty string becomes a singleton, and anything else becomes empty. |
| FormSettings.GetFormSettings | gravityformsiplocation.php:1002-1033 | `allowed_countries` is always present and an array. Every other setting is as stored, and a non-array store reads as empty settings. |
| FormSettings.FilterSettings | gravityformsiplocation.php:1057-1070 | Only a set, non-array `allowed_countries` changes, to a singleton or to empty. |
| FormSettings.ValidateAllowedCountries | gravityformsiplocation.php:509-524 | The field is rejected exactly when country validation is on and the value is neither a string nor a non-empty array. |
| FormSettings.AsCountryList | gravityformsiplocation.php:511-515 | A string becomes a singleton, an array is kept, and anything else becomes empty. |
| FormSettings.SplitCountries | gravityformsiplocation.php:1019 | One trimmed name per comma-separated piece. |
| FormSettings.GetFormSettingsIdempotent | gravityformsiplocation.php:1014-1030 | Reading already-normalised settings changes nothing. |
| FormSettings.FilterSettingsIdempotent | gravityformsiplocation.php:1057-1070 | Filtering twice equals filtering once. |
| FormSettings.SplitRejoins | gravityformsiplocation.php:1019 | Names without surrounding whitespace, joined with commas, split back into themselves. |
| FormSettings.SplitPair | gravityformsiplocation.php:1019 | Splitting "a,b" of two comma-free names gives exactly the two names, each trimmed. |
| FormSettings.SettingsSplitPair | gravityformsiplocation.php:1015-1024 | A stored "a,b" of two comma-free names is read back as the two-element array of the trimmed names. |
| CountryGate.AddValidationError | gravityformsiplocation.php:1117-1121 | The result becomes invalid and keeps the message. |
| CountryGate.ValidateCountryForForm | gravityformsiplocation.php:582-687 | An invalid result is never made valid. The result is invalid exactly when validation is on and either the key is empty, or the allow-list is non-empty and a located record's non-empty country is not strictly in it. A missing key gives the configuration message, before the allow-list is looked at. A rejection gives the form's message when it is set and non-empty, else the default. No lookup happens when the gate stops early. An error record fails open and flags an API error for the form. |
| CountryGate.RejectionMessage | gravityformsiplocation.php:670-677 | A rejected country makes the result invalid with the form's `country_validation_message` when it is set and non-empty; an unset or empty one gives the default message. |
| CountryGate.NoteAgreesWithGate | gravityformsiplocation.php:671-684 | For validation alone, the note is a warning exactly when the submitter's country is outside the allow-list, so every rejection is noted as a warning. |
| FieldPopulation.FirstTag | gravityformsiplocation.php:702-706 | No tag is found exactly when the text contains none. Otherwise the found tag occurs, and no tag starts earlier. |
| FieldPopulation.ExactTag | gravityformsiplocation.php:769 | A tag is matched only when the whole default value equals it. |
| FieldPopulation.TaggedFields | gravityformsiplocation.php:700-715 | There is at most one entry per field. |
| FieldPopulation.TaggedFieldsEmpty | gravityformsiplocation.php:698-721 | The list of tagged fields is empty exactly when no hidden field's default value contains a location tag. |
| FieldPopulation.TaggedFieldsSound | gravityformsiplocation.php:700-715 | Every listed entry is the tag entry of some hidden field whose default value contains a tag. |
| FieldPopulation.TaggedFieldsComplete | gravityformsiplocation.php:700-715 | Every hidden field whose default value contains a tag is listed. |
| FieldPopulation.TaggedFieldsSnoc | gravityformsiplocation.php:700-715 | The list follows form order: one more field appends its own entry, if it has one, at the end. |
| FieldPopulation.PostWrites | gravityformsiplocation.php:766-774 | When no hidden field's default is exactly a tag, nothing is written. |
| FieldPopulation.PostWritesKeys | gravityformsiplocation.php:766-774 | The inputs written are exactly `input_<id>` for the hidden fields whose default is exactly a tag. |
| FieldPopulation.PostWritesValues | gravityformsiplocation.php:756-774 | Each written input holds the record value for its tag, or "" when that value is unset, from the last field using that id. |
| FieldPopulation.SetFieldValues | gravityformsiplocation.php:692-800 | Without tagged fields nothing is looked up. An error record writes no inputs and records a merge error. A located record writes the populated inputs and records the merge facts. |
| FieldPopulation.EmbeddedTagNotPopulated | gravityformsiplocation.php:702-769 | A default with text before the tag is detected as tagged, but not populated. |
| FieldPopulation.PopulatesIsTagged | gravityformsiplocation.php:702-711 | A populated field is also listed in the tagged fields, and its entry names the tag it is filled from. |
| FieldPopulation.ExactTagIsFirstTag | gravityformsiplocation.php:702-706 | A tag on its own is found as itself. |
| FieldPopulation.TagOnlyInItself | gravityformsiplocation.php:543 | A tag occurs inside another tag only at its start, and only as itself. |
| FieldPopulation.ReplaceMergeTags | gravityformsiplocation.php:541-577 | Text without a tag, or without an entry, is returned unchanged and nothing is looked up. Otherwise it is the text with each tag whose record value is set replaced by that value. |
| FieldPopulation.ReplaceTags | gravityformsiplocation.php:557-574 | Without an entry in the record, or without a "{" in the text, the text is unchanged. |
| FieldPopulation.ReplaceEach | gravityformsiplocation.php:557-574 | When the record is empty or sets none of the given tags' fields, the text is unchanged. |
| FieldPopulation.ReplaceEachUntouched | gravityformsiplocation.php:557-574 | Text without a "{" is left unchanged by the replacements. |
| FieldPopulation.SingleTagReplaced | gravityformsiplocation.php:557-574 | A lone tag is replaced by its set value, and the later replacements leave that value alone. |
| FieldPopulation.ReplaceEachSplit | gravityformsiplocation.php:557-574 | The replacements apply one tag after another, in the source's order. |
| FieldPopulation.TagMessageFilled | gravityformsiplocation.php:541-577 | A message that is just one tag comes back as the resolved value for that tag. |
| SettingsOverride.SanitizeEach | gravityforms-ip-location/includes/form-settings-override.php:43 | Every element becomes its sanitized text, with keys and order kept. |
| SettingsOverride.SettingName | gravityforms-ip-location/includes/form-settings-override.php:30-31 | A key that holds neither prefix is its own setting name. |
| SettingsOverride.ReadHiddenFields | gravityforms-ip-location/includes/form-settings-override.php:28-46 | Every existing setting stays present, and a post with no decodable hidden multiselect field leaves the settings as they were. |
| SettingsOverride.Contribution | gravityforms-ip-location/includes/form-settings-override.php:29-44 | Only keys starting with `_gf_multiselect_values_` contribute. A decode error or a decoded non-array contributes nothing. A decoded array fills the setting named by the key with both prefixes removed. |
| SettingsOverride.Lookup | gravityforms-ip-location/includes/form-settings-override.php:52 | A set value was posted under that key, and an absent key reads as null. |
| SettingsOverride.StandardSelection | gravityforms-ip-location/includes/form-settings-override.php:50-60 | The standard field's value as an array: mapped, as a singleton, or empty when absent. |
| SettingsOverride.ProcessMultiselectValues | gravityforms-ip-location/includes/form-settings-override.php:21-64 | `allowed_countries` is always present afterwards. A non-empty value read from the hidden fields or already saved is kept. Otherwise the standard field's selection is used. No other setting changes beyond the hidden-field loop. |
| SettingsOverride.UnwrittenSettingKept | gravityforms-ip-location/includes/form-settings-override.php:28-46 | A setting that no posted entry writes keeps its value. |
| SettingsOverride.LastWriterWins | gravityforms-ip-location/includes/form-settings-override.php:28-46 | The last entry writing a setting decides its value. |
| SettingsOverride.SanitizeDeep | gravityforms-ip-location/includes/form-settings-override.php:91-92 | Deep sanitizing keeps the array shape, turns a scalar into its sanitized text, and deep-sanitizes every element of an array under the same index or key. |
| SettingsOverride.SanitizePost | gravityforms-ip-location/includes/form-settings-override.php:89-96 | Every posted key is kept in order, with its value deep-sanitized. |
| SettingsOverride.FormSettingsOverride | gravityforms-ip-location/includes/form-settings-override.php:71-99 | Another add-on's settings, or a failed nonce, leave the settings untouched. Otherwise `allowed_countries` is present afterwards. |
| SettingsOverride.SanitizeDeepIdempotent | gravityforms-ip-location/includes/form-settings-override.php:89-96 | With an idempotent sanitizer, sanitizing the post twice equals sanitizing it once. |
| SettingsOverride.SanitizeEachAfterDeep | gravityforms-ip-location/includes/form-settings-override.php:43-54 | With an idempotent sanitizer, sanitizing the post first does not change the saved elements. |
| SettingsOverride.ContributionAfterSanitize | gravityforms-ip-location/includes/form-settings-override.php:33-44 | With an idempotent sanitizer, an entry contributes the same before and after the post is sanitized. |
| SettingsOverride.StandardMultiselectSaved | gravityforms-ip-location/includes/form-settings-override.php:49-56 | Without hidden fields or a saved selection, the sanitized standard selection is saved. |
| SettingsOverride.EnhancedMultiselectSaved | gravityforms-ip-location/includes/form-settings-override.php:28-49 | A non-empty hidden-field selection for `allowed_countries`, when it is the last such entry, is what is saved. |
| SettingsOverride.LookupAfterSanitize | gravityforms-ip-location/includes/form-settings-override.php:52-56 | The sanitized post holds the deep-sanitized value under the same key. |
| SettingsOverride.HiddenFieldName | gravityforms-ip-location/includes/form-settings-override.php:29-31 | `_gf_multiselect_values_<name>` fills `<name>` when the name contains neither prefix. |
| SettingsOverride.HiddenAddonFieldName | gravityforms-ip-location/includes/form-settings-override.php:29-31 | `_gf_multiselect_values__gaddon_setting_<name>` also fills `<name>` when the name holds no add-on prefix and no multiselect prefix spans `_gaddon_setting_<name>`. |
| SettingsOverride.AllowedCountriesHiddenNames | gravityforms-ip-location/includes/form-settings-override.php:29-31 | Both `_gf_multiselect_values_allowed_countries` and `_gf_multiselect_values__gaddon_setting_allowed_countries` fill `allowed_countries`. |

## Left out

- Logging, admin notices, redirects and HTML output: they carry no logic the rest depends on.
- `__()`: translation is modelled as the identity.
- Hook registration is kept only as the set of form ids whose after-submission hook is registered. WordPress ignores a second registration of the same callback.
- The bootstrap and admin code is not modelled:
  - `load`, `get_instance`, `define_constants`, `init`, `enqueue_admin_scripts`;
  - `add_nonce_*`, the settings screens and field declarations, `add_ip_location_merge_tags`, `maybe_show_debug_notice`.
- `handle_clear_cache_request`, `get_cache_stats` and `process_form_settings_submission` are not modelled: they are SQL, redirects and request plumbing.
- `add_location_note`, `create_merge_tag_error_note` and `extract_multiselect_values` are never called, so they are not modelled.
- `js/multiselect-fix.js` is browser DOM handling and is not part of this model.
- HTTP, `json_decode`, `sanitize_text_field`, `is_numeric`, IP validation and nonce checks are foreign calls. They are parameters, not code.
- Cache expiry inside WordPress is platform behaviour. The lifetimes are carried as data only.
- Cross-request concurrency on the shared caches is not modelled.
- Latitude, longitude and other numbers are uninterpreted text. No float arithmetic is modelled.
- PHP's conversion of numeric-string array keys to integers is not modelled: every key is a string.
- The form id is taken as already passed through `absint`.
- LocationRecords.FormatLocationText: the loose `!=` between region and city is approximated by comparing their string renderings. PHP 8's numeric-string comparison, such as "1.0" against "1", is not modelled.
- Notes.Finalize: a validation note reached without a stored allow-list counts the country as not allowed. PHP 8 would raise a TypeError from `in_array` on null instead. The state needs a failed-open check followed by population from a located record for the same form, as in `RecordMerge(RecordValidationError(...), ...)`. Within one request both steps read the same record for the IP from the caches, so it is not reached in practice.
- Notes.Finalize: `empty($this->pending_location_notes[$form_id])` is read as "no pending entry". The writers never store an empty entry.
- Resolver.ErrorFlagSurvivesSanitizing: relies on `sanitize_text_field` leaving "" and "1" unchanged, which is stated as a premise.
- SettingsOverride.SanitizeDeepIdempotent, SettingsOverride.SanitizeEachAfterDeep, SettingsOverride.ContributionAfterSanitize, SettingsOverride.StandardMultiselectSaved, SettingsOverride.EnhancedMultiselectSaved: assume that `sanitize_text_field` is idempotent, which is stated as a premise.
- SettingsOverride.Lookup: a post is a list of key/value pairs. The last pair for a key is read; PHP arrays have one pair per key.
- SettingsOverride.HiddenFieldName, SettingsOverride.HiddenAddonFieldName: proved only for names in which no prefix occurs again. `str_replace` removes every occurrence of a prefix, not only the leading one, so a name that repeats a prefix is shortened.
- Resolver.Resolve: the request cache goes through the corrected eviction of `RequestCache.Operation`. Under the code as written, a falsy evicted key such as "0" stays in the map (see Findings). `StoreIpData`, `ValidateCountryForForm`, `SetFieldValues` and `ReplaceMergeTags` inherit this.
- Resolver.ResolveKeepsCacheValid: proved for the corrected eviction only. For the code as written the invariant fails once a falsy key is evicted, as `RequestCache.FalsyKeyBreaksBound` shows.
- RequestCache.Operation: the size limit is a `nat`. A negative `GF_IPLOCATION_MAX_CACHE_SIZE` behaves like 0 in the source's `>=` test, so no case is lost. A non-integer constant is not modelled.
- FieldPopulation.SetFieldValues: the empty-record branch at line 727 is modelled, though the resolver never returns an empty record.
- FieldPopulation.ReplaceMergeTags: the URL-encoding, escaping and format arguments of the filter are unused by the source and are not modelled.

## Findings

| source | as written | input that shows it | evidently intended | confidence | as-written member | corrected member |
|---|---|---|---|---|---|---|
| gravityformsiplocation.php:241-244 | The evicted key is unset from the map only `if ($oldest_key)`, so a falsy key stays in the map while it leaves the recency list. | A full cache of size 1 whose only key is "0" takes a new key "a" and then holds two entries. "0" is reachable as the sanitized form of a raw IP such as " 0". | Always unset the key shifted off the recency list, so the size bound and the key agreement hold. | not executed | RequestCache.FalsyKeyBreaksBound | RequestCache.OperationPreservesValid |
