/**
 IP-to-location resolution: the request cache, then the object cache, then
 the transients, and only then the IPStack lookup, whose outcome is
 classified, sanitized and written back to all three layers.

 Lifetimes are carried with each stored record as data; expiry is not
 modelled, so a stored entry is found until it is overwritten. The HTTP call
 is the function `provider`, consulted with the request URL.
 */
module Resolver {
  import opened Wrappers
  import opened PhpValues
  import opened Platform
  import opened PhpStrings
  import opened RequestCache
  import opened LocationRecords

  /** Lifetime of a successful lookup (one day) and of an error record (one hour), in seconds. */
  const SuccessTtl: nat := 24 * 3600
  const ErrorTtl: nat := 3600
  /** Lifetime of the object-cache copy made when a record is found among the transients. */
  const PromotionTtl: nat := 3600

  /** A record in the object cache or the transients, with the lifetime it was written with. */
  datatype Stored = Stored(data: Record, ttl: nat)

  /** The object cache or the transients: key to stored record. */
  type Store = map<string, Stored>

  datatype Stores = Stores(request: Cache<Record>, objectCache: Store, transients: Store)

  /** What `wp_remote_get` gives back: a transport error with its message, or a response body. */
  datatype ProviderOutcome = Transport(message: string) | Body(text: string)

  datatype Config = Config(
    /** `cache_max_size`, the request cache's limit. */
    maxSize: nat,
    /** `is_ssl()`. */
    isSsl: bool,
    /** `get_plugin_settings()`. */
    pluginSettings: Record
  )

  /** A record before sanitizing, how long it is to be kept, and the URL requested for it, if any. */
  datatype Fetched = Fetched(data: Value, ttl: nat, requested: Option<string>)

  /** The record returned, the caches afterwards, and the URL requested, if any. */
  datatype Resolution = Resolution(record: Record, stores: Stores, requested: Option<string>)

  function ObjectKey(ip: string): string {
    "ipstack_" + ip
  }

  /** Transient names replace every '.' of the address by '_'. */
  function TransientKey(ip: string): string {
    "ipstack_" + ReplaceAll(ip, ".", "_")
  }

  function ApiKey(cfg: Config): Value {
    Rgar(cfg.pluginSettings, "ipstack_access_key", Str(""))
  }

  function ProviderUrl(isSsl: bool, ip: string, key: string): string {
    (if isSsl then "https://api.ipstack.com/" else "http://api.ipstack.com/") + ip + "?access_key=" + key
  }

  /** The shape every error placeholder has: a label, `is_error` true and a message. */
  predicate IsErrorShape(v: Value) {
    && Index(v, "is_error") == Bool(true)
    && Index(v, "country_name").Str?
    && IsSet(Index(v, "error_message"))
  }

  /** The decoded body is an answer with a location in it. */
  predicate Located(decoded: Value) {
    !(IsSet(Index(decoded, "error")) && Truthy(Index(decoded, "error")))
    && Truthy(decoded) && IsSet(Index(decoded, "country_name"))
  }

  /** Sorting a decoded IPStack answer into an API error, a location, or unusable data. */
  function Classify(decoded: Value, url: string): (f: Fetched)
    ensures f.requested == Some(url)
    ensures f.ttl == SuccessTtl <==> Located(decoded)
    ensures Located(decoded) ==> Index(f.data, "is_error") == Bool(false)
    ensures Located(decoded) ==> forall k :: k != "is_error" ==> Index(f.data, k) == Index(decoded, k)
    ensures !Located(decoded) ==> f.ttl == ErrorTtl && IsErrorShape(f.data)
    ensures Truthy(Index(decoded, "error")) ==>
      var info := Index(Index(decoded, "error"), "info");
      && Index(f.data, "country_name") == Str("API Error")
      && Index(f.data, "error_message") == (if IsSet(info) then info else Str("Unknown API Error"))
    ensures !Located(decoded) && !Truthy(Index(decoded, "error")) ==>
      && Index(f.data, "country_name") == Str("Data Error")
      && Index(f.data, "error_message") == Str("Invalid or empty API response")
  {
    var error := Index(decoded, "error");
    if IsSet(error) && Truthy(error) then
      var info := Index(error, "info");
      var message := if IsSet(info) then info else Str("Unknown API Error");
      Fetched(Dict(ErrorRecord("API Error", message)), ErrorTtl, Some(url))
    else if Truthy(decoded) && IsSet(Index(decoded, "country_name")) then
      Fetched(Dict(decoded.fields["is_error" := Bool(false)]), SuccessTtl, Some(url))
    else
      Fetched(Dict(ErrorRecord("Data Error", Str("Invalid or empty API response"))), ErrorTtl, Some(url))
  }

  /** The part of `get_location_data_from_ip` after every cache layer missed. */
  function Fetch(env: Env, cfg: Config, provider: string -> ProviderOutcome, ip: string): (f: Fetched)
    ensures f.requested.Some? <==> env.isValidIp(ip) && Truthy(ApiKey(cfg))
    ensures f.requested.Some? ==> f.requested.value == ProviderUrl(cfg.isSsl, ip, Text(ApiKey(cfg)))
    ensures f.ttl == SuccessTtl || f.ttl == ErrorTtl
    ensures f.ttl == SuccessTtl <==> Index(f.data, "is_error") == Bool(false)
    ensures f.ttl == ErrorTtl <==> IsErrorShape(f.data)
    ensures !env.isValidIp(ip) ==>
      Index(f.data, "country_name") == Str("Invalid IP") &&
      Index(f.data, "error_message") == Str("Invalid IP format: " + ip)
    ensures env.isValidIp(ip) && !Truthy(ApiKey(cfg)) ==>
      Index(f.data, "country_name") == Str("API Key Missing") &&
      Index(f.data, "error_message") == Str("IPStack API key is missing")
    ensures env.isValidIp(ip) && Truthy(ApiKey(cfg)) ==>
      var outcome := provider(ProviderUrl(cfg.isSsl, ip, Text(ApiKey(cfg))));
      && (outcome.Transport? ==>
            Index(f.data, "country_name") == Str("API Error") && Index(f.data, "error_message") == Str(outcome.message))
      && (outcome.Body? ==> f == Classify(env.jsonDecode(outcome.text).GetOr(Null), f.requested.value))
  {
    if !env.isValidIp(ip) then
      Fetched(Dict(ErrorRecord("Invalid IP", Str("Invalid IP format: " + ip))), ErrorTtl, None)
    else
      var key := ApiKey(cfg);
      if !Truthy(key) then
        Fetched(Dict(ErrorRecord("API Key Missing", Str("IPStack API key is missing"))), ErrorTtl, None)
      else
        var url := ProviderUrl(cfg.isSsl, ip, Text(key));
        match provider(url)
        case Transport(message) =>
          Fetched(Dict(ErrorRecord("API Error", Str(message))), ErrorTtl, Some(url))
        case Body(text) =>
          Classify(env.jsonDecode(text).GetOr(Null), url)
  }

  /**
   `store_ip_data`: the sanitized record goes into the request cache, the
   object cache and the transients, and is what the caller gets back.
   */
  function StoreIpData(env: Env, max: nat, s: Stores, ip: string, data: Value, ttl: nat): (r: (Record, Stores))
    ensures r.0 == SanitizeIpData(env, data)
    ensures ip in r.1.request.entries && r.1.request.entries[ip] == r.0
    ensures r.1.objectCache == s.objectCache[ObjectKey(ip) := Stored(r.0, ttl)]
    ensures r.1.transients == s.transients[TransientKey(ip) := Stored(r.0, ttl)]
  {
    var clean := SanitizeIpData(env, data);
    var t := Operation(s.request, max, ip, Put(clean));
    (clean, Stores(t.cache,
                   s.objectCache[ObjectKey(ip) := Stored(clean, ttl)],
                   s.transients[TransientKey(ip) := Stored(clean, ttl)]))
  }

  /** `get_location_data_from_ip`. */
  function Resolve(env: Env, cfg: Config, provider: string -> ProviderOutcome, s: Stores, rawIp: string): (res: Resolution)
    ensures !Truthy(Str(rawIp)) ==> res == Resolution(EmptyIpRecord, s, None)
    ensures Truthy(Str(rawIp)) ==>
      var ip := env.sanitizeText(rawIp);
      ip in res.stores.request.entries && res.stores.request.entries[ip] == res.record
    ensures res.requested.Some? ==>
      var ip := env.sanitizeText(rawIp);
      && ip !in s.request.entries
      && ObjectKey(ip) !in s.objectCache
      && TransientKey(ip) !in s.transients
      && res.requested == Fetch(env, cfg, provider, ip).requested
  {
    if !Truthy(Str(rawIp)) then Resolution(EmptyIpRecord, s, None)
    else
      var ip := env.sanitizeText(rawIp);
      if ip in s.request.entries then
        var t := Operation(s.request, cfg.maxSize, ip, Access);
        Resolution(t.data.GetOr(map[]), s.(request := t.cache), None)
      else if ObjectKey(ip) in s.objectCache then
        var d := s.objectCache[ObjectKey(ip)].data;
        var t := Operation(s.request, cfg.maxSize, ip, Put(d));
        Resolution(d, s.(request := t.cache), None)
      else if TransientKey(ip) in s.transients then
        var d := s.transients[TransientKey(ip)].data;
        var t := Operation(s.request, cfg.maxSize, ip, Put(d));
        var objectCache := s.objectCache[ObjectKey(ip) := Stored(d, PromotionTtl)];
        Resolution(d, Stores(t.cache, objectCache, s.transients), None)
      else
        var f := Fetch(env, cfg, provider, ip);
        var r := StoreIpData(env, cfg.maxSize, s, ip, f.data, f.ttl);
        Resolution(r.0, r.1, f.requested)
  }

  // ---------------------------------------------------------------------------
  // Facts about resolution
  // ---------------------------------------------------------------------------

  /** Which layer answers: the first one holding the address, and the provider only when none does. */
  lemma ResolveLayers(env: Env, cfg: Config, provider: string -> ProviderOutcome, s: Stores, rawIp: string)
    requires Truthy(Str(rawIp))
    ensures var res := Resolve(env, cfg, provider, s, rawIp);
      var ip := env.sanitizeText(rawIp);
      && (ip in s.request.entries ==>
            res.record == s.request.entries[ip] && res.requested.None?
            && res.stores.objectCache == s.objectCache && res.stores.transients == s.transients
            && res.stores.request.entries == s.request.entries)
      && (ip !in s.request.entries && ObjectKey(ip) in s.objectCache ==>
            res.record == s.objectCache[ObjectKey(ip)].data && res.requested.None?
            && res.stores.objectCache == s.objectCache && res.stores.transients == s.transients)
      && (ip !in s.request.entries && ObjectKey(ip) !in s.objectCache
          && TransientKey(ip) in s.transients ==>
            res.record == s.transients[TransientKey(ip)].data && res.requested.None?
            && res.stores.objectCache == s.objectCache[ObjectKey(ip) := Stored(res.record, PromotionTtl)]
            && res.stores.transients == s.transients)
  {
  }

  /**
   After a miss in every layer the fetched record, sanitized, is returned and
   written to both shared caches with the lifetime its outcome calls for.
   */
  lemma ResolveMiss(env: Env, cfg: Config, provider: string -> ProviderOutcome, s: Stores, rawIp: string)
    requires Truthy(Str(rawIp))
    requires var ip := env.sanitizeText(rawIp);
      ip !in s.request.entries && ObjectKey(ip) !in s.objectCache && TransientKey(ip) !in s.transients
    ensures var res := Resolve(env, cfg, provider, s, rawIp);
      var ip := env.sanitizeText(rawIp);
      var f := Fetch(env, cfg, provider, ip);
      && res.record == SanitizeIpData(env, f.data)
      && res.requested == f.requested
      && res.stores.objectCache[ObjectKey(ip)] == Stored(res.record, f.ttl)
      && res.stores.transients[TransientKey(ip)] == Stored(res.record, f.ttl)
  {
  }

  /** A second lookup of the same address returns the same record without a request. */
  lemma {:induction false} ResolveTwice(env: Env, cfg: Config, provider: string -> ProviderOutcome, s: Stores, rawIp: string)
    ensures var first := Resolve(env, cfg, provider, s, rawIp);
      var second := Resolve(env, cfg, provider, first.stores, rawIp);
      second.record == first.record && second.requested.None?
  {
    var first := Resolve(env, cfg, provider, s, rawIp);
    if Truthy(Str(rawIp)) {
      ResolveLayers(env, cfg, provider, first.stores, rawIp);
    }
  }

  /**
   A record written through after a full miss is read back by a later request
   (fresh request cache) from the object cache, and from the transients when
   the object cache has lost it, without consulting the provider.
   */
  lemma {:induction false} WriteThroughReadBack(env: Env, cfg: Config, provider: string -> ProviderOutcome, s: Stores, rawIp: string)
    requires Truthy(Str(rawIp))
    requires var ip := env.sanitizeText(rawIp);
      ip !in s.request.entries && ObjectKey(ip) !in s.objectCache && TransientKey(ip) !in s.transients
    ensures var first := Resolve(env, cfg, provider, s, rawIp);
      var viaObject := Resolve(env, cfg, provider, Stores(Empty(), first.stores.objectCache, first.stores.transients), rawIp);
      var viaTransient := Resolve(env, cfg, provider, Stores(Empty(), map[], first.stores.transients), rawIp);
      && viaObject.record == first.record && viaObject.requested.None?
      && viaTransient.record == first.record && viaTransient.requested.None?
  {
    var ip := env.sanitizeText(rawIp);
    var first := Resolve(env, cfg, provider, s, rawIp);
    ResolveMiss(env, cfg, provider, s, rawIp);
    var empty: Cache<Record> := Empty();
    assert ip !in empty.entries;
    ResolveLayers(env, cfg, provider, Stores(empty, first.stores.objectCache, first.stores.transients), rawIp);
    ResolveLayers(env, cfg, provider, Stores(empty, map[], first.stores.transients), rawIp);
  }

  /** Resolution keeps the request cache's invariant and bound. */
  lemma {:induction false} ResolveKeepsCacheValid(env: Env, cfg: Config, provider: string -> ProviderOutcome, s: Stores, rawIp: string)
    requires Valid(s.request, cfg.maxSize)
    ensures Valid(Resolve(env, cfg, provider, s, rawIp).stores.request, cfg.maxSize)
  {
    if Truthy(Str(rawIp)) {
      var ip := env.sanitizeText(rawIp);
      if ip in s.request.entries {
        OperationPreservesValid(s.request, cfg.maxSize, ip, Access);
      } else if ObjectKey(ip) in s.objectCache {
        OperationPreservesValid(s.request, cfg.maxSize, ip, Put(s.objectCache[ObjectKey(ip)].data));
      } else if TransientKey(ip) in s.transients {
        OperationPreservesValid(s.request, cfg.maxSize, ip, Put(s.transients[TransientKey(ip)].data));
      } else {
        var f := Fetch(env, cfg, provider, ip);
        OperationPreservesValid(s.request, cfg.maxSize, ip, Put(SanitizeIpData(env, f.data)));
      }
    }
  }

  /** A platform whose `sanitize_text_field` leaves "" and "1" alone, as WordPress's does. */
  ghost predicate SaneSanitizer(env: Env) {
    env.sanitizeText("") == "" && env.sanitizeText("1") == "1"
  }

  /** After sanitizing, `true` reads as "1" and `false` as "", so the error flag keeps its truthiness. */
  lemma ErrorFlagSurvivesSanitizing(env: Env, data: Value)
    requires SaneSanitizer(env)
    requires Index(data, "is_error") == Bool(true) || Index(data, "is_error") == Bool(false)
    ensures IsError(SanitizeIpData(env, data)) <==> Index(data, "is_error") == Bool(true)
  {
    var r := SanitizeIpData(env, data);
    assert "is_error" in Whitelist;
    assert "is_error" in r;
  }

  /**
   A freshly fetched record is kept for a day exactly when it is not an error
   record; errors are kept for an hour.
   */
  lemma {:induction false} ErrorsExpireSooner(env: Env, cfg: Config, provider: string -> ProviderOutcome, s: Stores, rawIp: string)
    requires SaneSanitizer(env) && Truthy(Str(rawIp))
    requires var ip := env.sanitizeText(rawIp);
      ip !in s.request.entries && ObjectKey(ip) !in s.objectCache && TransientKey(ip) !in s.transients
    ensures var res := Resolve(env, cfg, provider, s, rawIp);
      var stored := res.stores.transients[TransientKey(env.sanitizeText(rawIp))];
      && (stored.ttl == SuccessTtl <==> !IsError(res.record))
      && (stored.ttl == ErrorTtl <==> IsError(res.record))
  {
    var ip := env.sanitizeText(rawIp);
    var f := Fetch(env, cfg, provider, ip);
    ResolveMiss(env, cfg, provider, s, rawIp);
    ErrorFlagSurvivesSanitizing(env, f.data);
  }

  /** Distinct addresses without '_' get distinct transient names. */
  lemma {:induction false} TransientKeyInjective(a: string, b: string)
    requires !Contains(a, "_") && !Contains(b, "_")
    requires TransientKey(a) == TransientKey(b)
    ensures a == b
  {
    var ra := ReplaceAll(a, ".", "_");
    var rb := ReplaceAll(b, ".", "_");
    assert ra == rb by {
      assert ra == TransientKey(a)[8..] && rb == TransientKey(b)[8..];
    }
    ReplaceCharPointwise(a, '.', '_');
    ReplaceCharPointwise(b, '.', '_');
    assert |a| == |b|;
    forall k | 0 <= k < |a| ensures a[k] == b[k] {
      assert ra[k] == (if a[k] == '.' then '_' else a[k]);
      assert rb[k] == (if b[k] == '.' then '_' else b[k]);
      assert a[k] != '_' by { assert !At(a, k, "_"); assert a[k..k + 1] == [a[k]]; }
      assert b[k] != '_' by { assert !At(b, k, "_"); assert b[k..k + 1] == [b[k]]; }
    }
  }
}
