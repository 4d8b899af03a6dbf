/**
 The request-scoped LRU cache of resolved IP records: a map from key to value
 kept beside a recency list ordered from least to most recently used.
 */
module RequestCache {
  import opened Wrappers

  datatype Cache<V> = Cache(entries: map<string, V>, order: seq<string>)

  /** A touch either only reads the entry (`$is_access_only`) or stores new data. */
  datatype Op<V> = Access | Put(data: V)

  /** What `cache_operation` leaves behind and what it returns (`None` for PHP null). */
  datatype Touched<V> = Touched(cache: Cache<V>, data: Option<V>)

  predicate Distinct(s: seq<string>) {
    forall i, j :: 0 <= i < j < |s| ==> s[i] != s[j]
  }

  /** The list holds each cached key exactly once and nothing else. */
  ghost predicate Coherent<V>(c: Cache<V>) {
    && Distinct(c.order)
    && (forall k :: k in c.order <==> k in c.entries)
  }

  /** The bound the cache keeps: `max` entries, except that a limit of 0 still admits one. */
  function Capacity(max: nat): nat {
    if max == 0 then 1 else max
  }

  ghost predicate Valid<V>(c: Cache<V>, max: nat) {
    Coherent(c) && |c.entries| <= Capacity(max)
  }

  /** `init_cache` and `clear_request_cache`: a fresh map and a fresh list. */
  function Empty<V>(): (c: Cache<V>)
    ensures Coherent(c) && |c.entries| == 0
    ensures forall max: nat :: Valid(c, max)
  {
    Cache(map[], [])
  }

  /** PHP truthiness of a key: `if ($oldest_key)` is false for "" and "0". */
  predicate TruthyKey(k: string) {
    k != "" && k != "0"
  }

  /** The list with the first position holding `k` unset (SplDoublyLinkedList::offsetUnset). */
  function RemoveFirst(s: seq<string>, k: string): (r: seq<string>)
    ensures k !in s ==> r == s
    ensures k in s ==> |r| == |s| - 1
    ensures forall x :: x in r ==> x in s
    ensures forall x :: x in s && x != k ==> x in r
  {
    if |s| == 0 then s
    else if s[0] == k then s[1..]
    else [s[0]] + RemoveFirst(s[1..], k)
  }

  /** The list with every occurrence of `k` dropped; the order of the others is kept. */
  function Without(s: seq<string>, k: string): seq<string> {
    if |s| == 0 then s
    else if s[0] == k then Without(s[1..], k)
    else [s[0]] + Without(s[1..], k)
  }

  /**
   `cache_operation($key, $data, $is_access_only)` with its eviction reading
   "unset whatever key was shifted off the list". See `OperationAsWritten`
   for the guard the source actually has.
   */
  function Operation<V>(c: Cache<V>, max: nat, key: string, op: Op<V>): (t: Touched<V>)
    ensures op.Put? ==> key in t.cache.entries && t.cache.entries[key] == op.data && t.data == Some(op.data)
    ensures op.Access? && key in c.entries ==> t.data == Some(c.entries[key]) && t.cache.entries == c.entries
    ensures |t.cache.order| > 0 && t.cache.order[|t.cache.order| - 1] == key
  {
    if key in c.entries then
      var entries := if op.Put? then c.entries[key := op.data] else c.entries;
      var data := if op.Put? then op.data else c.entries[key];
      Touched(Cache(entries, RemoveFirst(c.order, key) + [key]), Some(data))
    else
      var base := if |c.entries| >= max && |c.order| > 0
        then Cache(c.entries - {c.order[0]}, c.order[1..])
        else c;
      var entries := if op.Put? then base.entries[key := op.data] else base.entries;
      var data := if op.Put? then Some(op.data) else None;
      Touched(Cache(entries, base.order + [key]), data)
  }

  /**
   `cache_operation` exactly as written: the shifted key is unset only when it
   is truthy, so a cached key "" or "0" leaves the list but stays in the map.
   */
  function OperationAsWritten<V>(c: Cache<V>, max: nat, key: string, op: Op<V>): (t: Touched<V>)
    ensures op.Put? ==> key in t.cache.entries && t.cache.entries[key] == op.data
    ensures |c.entries| >= max && |c.order| > 0 && key !in c.entries && !TruthyKey(c.order[0]) ==>
      c.order[0] in c.entries ==> c.order[0] in t.cache.entries
  {
    if key in c.entries then
      var entries := if op.Put? then c.entries[key := op.data] else c.entries;
      var data := if op.Put? then op.data else c.entries[key];
      Touched(Cache(entries, RemoveFirst(c.order, key) + [key]), Some(data))
    else
      var base := if |c.entries| >= max && |c.order| > 0
        then Cache(if TruthyKey(c.order[0]) then c.entries - {c.order[0]} else c.entries, c.order[1..])
        else c;
      var entries := if op.Put? then base.entries[key := op.data] else base.entries;
      var data := if op.Put? then Some(op.data) else None;
      Touched(Cache(entries, base.order + [key]), data)
  }

  // ---------------------------------------------------------------------------
  // Invariant and recency facts
  // ---------------------------------------------------------------------------

  lemma {:induction false} RemoveFirstDistinct(s: seq<string>, k: string)
    requires Distinct(s)
    ensures RemoveFirst(s, k) == Without(s, k)
    ensures Distinct(RemoveFirst(s, k))
    ensures k !in RemoveFirst(s, k)
    decreases |s|
  {
    if |s| > 0 {
      assert Distinct(s[1..]) by {
        forall i, j | 0 <= i < j < |s[1..]| ensures s[1..][i] != s[1..][j] {
          assert s[1..][i] == s[i + 1] && s[1..][j] == s[j + 1];
        }
      }
      RemoveFirstDistinct(s[1..], k);
      if s[0] == k {
        assert k !in s[1..] by {
          forall j | 0 <= j < |s[1..]| ensures s[1..][j] != k {
            assert s[1..][j] == s[j + 1];
          }
        }
        WithoutAbsent(s[1..], k);
      } else {
        var r := [s[0]] + RemoveFirst(s[1..], k);
        assert s[0] !in RemoveFirst(s[1..], k) by {
          forall j | 0 <= j < |s[1..]| ensures s[1..][j] != s[0] {
            assert s[1..][j] == s[j + 1];
          }
        }
        forall i, j | 0 <= i < j < |r| ensures r[i] != r[j] {
          if i > 0 {
            assert r[i] == RemoveFirst(s[1..], k)[i - 1];
            assert r[j] == RemoveFirst(s[1..], k)[j - 1];
          } else {
            assert r[j] == RemoveFirst(s[1..], k)[j - 1];
            assert r[j] in RemoveFirst(s[1..], k);
          }
        }
      }
    }
  }

  lemma {:induction false} WithoutAbsent(s: seq<string>, k: string)
    requires k !in s
    ensures Without(s, k) == s
    decreases |s|
  {
    if |s| > 0 {
      WithoutAbsent(s[1..], k);
    }
  }

  lemma DistinctSnoc(s: seq<string>, k: string)
    requires Distinct(s) && k !in s
    ensures Distinct(s + [k])
  {
    var r := s + [k];
    forall i, j | 0 <= i < j < |r| ensures r[i] != r[j] {
      if j == |s| {
        assert r[i] == s[i];
      } else {
        assert r[i] == s[i] && r[j] == s[j];
      }
    }
  }

  lemma DistinctTail(s: seq<string>)
    requires Distinct(s) && |s| > 0
    ensures Distinct(s[1..]) && s[0] !in s[1..]
  {
    forall i, j | 0 <= i < j < |s[1..]| ensures s[1..][i] != s[1..][j] {
      assert s[1..][i] == s[i + 1] && s[1..][j] == s[j + 1];
    }
    forall j | 0 <= j < |s[1..]| ensures s[1..][j] != s[0] {
      assert s[1..][j] == s[j + 1];
    }
  }

  lemma CoherentSize<V>(c: Cache<V>)
    requires Coherent(c)
    ensures |c.entries| == |c.order|
  {
    DistinctCard(c.order);
    assert (set x | x in c.order) == c.entries.Keys;
  }

  lemma {:induction false} DistinctCard(s: seq<string>)
    requires Distinct(s)
    ensures |set x | x in s| == |s|
    decreases |s|
  {
    if |s| > 0 {
      DistinctTail(s);
      DistinctCard(s[1..]);
      assert (set x | x in s) == (set x | x in s[1..]) + {s[0]};
    }
  }

  lemma {:induction false} HitKeepsValid<V>(c: Cache<V>, max: nat, key: string, op: Op<V>)
    requires Valid(c, max) && key in c.entries
    ensures Valid(Operation(c, max, key, op).cache, max)
  {
    var t := Operation(c, max, key, op).cache;
    var rest := RemoveFirst(c.order, key);
    assert t.order == rest + [key];
    assert t.entries.Keys == c.entries.Keys;
    RemoveFirstDistinct(c.order, key);
    DistinctSnoc(rest, key);
    forall k ensures k in t.order <==> k in t.entries {
      assert k in t.order <==> k in rest || k == key;
    }
  }

  lemma {:induction false} EvictKeepsValid<V>(c: Cache<V>, max: nat, key: string, v: V)
    requires Valid(c, max) && key !in c.entries && |c.entries| >= max && |c.order| > 0
    ensures Valid(Operation(c, max, key, Put(v)).cache, max)
  {
    var t := Operation(c, max, key, Put(v)).cache;
    var rest := c.order[1..];
    assert t.order == rest + [key];
    assert t.entries == (c.entries - {c.order[0]})[key := v];
    CoherentSize(c);
    DistinctTail(c.order);
    assert key !in rest;
    DistinctSnoc(rest, key);
    forall k ensures k in t.order <==> k in t.entries {
      assert k in t.order <==> k in rest || k == key;
      assert k in c.order <==> k == c.order[0] || k in rest;
    }
    assert t.entries.Keys == c.entries.Keys - {c.order[0]} + {key};
    assert |t.entries| == |c.entries|;
  }

  lemma {:induction false} GrowKeepsValid<V>(c: Cache<V>, max: nat, key: string, v: V)
    requires Valid(c, max) && key !in c.entries && !(|c.entries| >= max && |c.order| > 0)
    ensures Valid(Operation(c, max, key, Put(v)).cache, max)
  {
    var t := Operation(c, max, key, Put(v)).cache;
    assert t.order == c.order + [key];
    assert t.entries == c.entries[key := v];
    CoherentSize(c);
    DistinctSnoc(c.order, key);
    forall k ensures k in t.order <==> k in t.entries {
      assert k in t.order <==> k in c.order || k == key;
    }
    assert |t.entries| == |c.entries| + 1;
  }

  /**
   After every touch that stores data or reads a cached key, each cached key
   is in the list exactly once, the list holds only cached keys, and the map
   never exceeds its capacity.
   */
  lemma {:induction false} OperationPreservesValid<V>(c: Cache<V>, max: nat, key: string, op: Op<V>)
    requires Valid(c, max)
    requires op.Put? || key in c.entries
    ensures Valid(Operation(c, max, key, op).cache, max)
  {
    if key in c.entries {
      HitKeepsValid(c, max, key, op);
    } else if |c.entries| >= max && |c.order| > 0 {
      EvictKeepsValid(c, max, key, op.data);
    } else {
      GrowKeepsValid(c, max, key, op.data);
    }
  }

  /**
   Touching a cached key moves it to the tail and keeps every other key in
   its relative order; a read-only touch returns the stored value and leaves
   the map as it was.
   */
  lemma TouchMovesToTail<V>(c: Cache<V>, max: nat, key: string, op: Op<V>)
    requires Coherent(c) && key in c.entries
    ensures Operation(c, max, key, op).cache.order == Without(c.order, key) + [key]
    ensures Operation(c, max, key, op).cache.entries.Keys == c.entries.Keys
    ensures op.Access? ==> Operation(c, max, key, op) == Touched(c.(order := Without(c.order, key) + [key]), Some(c.entries[key]))
  {
    RemoveFirstDistinct(c.order, key);
  }

  /** Inserting a new key into a full cache evicts exactly the least recently used key. */
  lemma InsertEvictsHead<V>(c: Cache<V>, max: nat, key: string, v: V)
    requires Valid(c, max) && key !in c.entries && |c.entries| >= max && |c.entries| > 0
    ensures var t := Operation(c, max, key, Put(v)).cache;
      && t.order == c.order[1..] + [key]
      && t.entries == (c.entries - {c.order[0]})[key := v]
      && c.order[0] !in t.entries
      && |t.entries| == |c.entries|
  {
    CoherentSize(c);
    DistinctTail(c.order);
    EvictKeepsValid(c, max, key, v);
  }

  /** Puts a run of keys in order, all with the same value. */
  function PutAll<V>(c: Cache<V>, max: nat, keys: seq<string>, v: V): Cache<V>
    decreases |keys|
  {
    if |keys| == 0 then c
    else PutAll(Operation(c, max, keys[0], Put(v)).cache, max, keys[1..], v)
  }

  lemma {:induction false} GrowStep<V>(c: Cache<V>, max: nat, key: string, v: V)
    requires Coherent(c) && key !in c.entries && |c.entries| < max
    ensures Operation(c, max, key, Put(v)).cache.order == c.order + [key]
    ensures Operation(c, max, key, Put(v)).cache.entries.Keys == c.entries.Keys + {key}
    ensures Coherent(Operation(c, max, key, Put(v)).cache)
  {
    var t := Operation(c, max, key, Put(v)).cache;
    assert t.order == c.order + [key];
    assert t.entries == c.entries[key := v];
    DistinctSnoc(c.order, key);
    forall k ensures k in t.order <==> k in t.entries {
      assert k in t.order <==> k in c.order || k == key;
    }
  }

  /** Filling a cache that has room with fresh distinct keys appends them and evicts nothing. */
  lemma {:induction false} PutAllFresh<V>(c: Cache<V>, max: nat, keys: seq<string>, v: V)
    requires Coherent(c) && Distinct(keys)
    requires forall k :: k in keys ==> k !in c.entries
    requires |c.entries| + |keys| <= max
    ensures PutAll(c, max, keys, v).order == c.order + keys
    ensures Coherent(PutAll(c, max, keys, v))
    decreases |keys|
  {
    if |keys| == 0 {
      assert c.order + keys == c.order;
    } else {
      var t := Operation(c, max, keys[0], Put(v)).cache;
      GrowStep(c, max, keys[0], v);
      DistinctTail(keys);
      assert forall k :: k in keys[1..] ==> k in keys && k != keys[0];
      CoherentSize(c);
      CoherentSize(t);
      PutAllFresh(t, max, keys[1..], v);
      assert PutAll(c, max, keys, v) == PutAll(t, max, keys[1..], v);
      SnocAppend(c.order, keys);
    }
  }

  lemma SnocAppend(a: seq<string>, keys: seq<string>)
    requires |keys| > 0
    ensures (a + [keys[0]]) + keys[1..] == a + keys
  {
    assert keys == [keys[0]] + keys[1..];
  }

  lemma {:induction false} ReadHead<V>(c: Cache<V>, max: nat)
    requires Valid(c, max) && |c.order| >= 2
    ensures var read := Operation(c, max, c.order[0], Access).cache;
      && read.order == c.order[1..] + [c.order[0]]
      && read.entries == c.entries
      && Valid(read, max)
  {
    var keys := c.order;
    assert keys[0] in c.entries;
    TouchMovesToTail(c, max, keys[0], Access);
    DistinctTail(keys);
    WithoutAbsent(keys[1..], keys[0]);
    HitKeepsValid(c, max, keys[0], Access);
  }

  /**
   The recency scenario: fill an empty cache of capacity `max` with distinct
   keys k1..kmax, read k1, insert a new key: k2 is evicted and k1 survives.
   */
  lemma {:induction false} EvictionScenario<V>(max: nat, keys: seq<string>, newKey: string, v: V)
    requires max >= 2 && |keys| == max && Distinct(keys) && newKey !in keys
    ensures var filled := PutAll(Empty<V>(), max, keys, v);
      var read := Operation(filled, max, keys[0], Access).cache;
      var last := Operation(read, max, newKey, Put(v)).cache;
      && keys[1] !in last.entries
      && keys[0] in last.entries
      && newKey in last.entries
      && |last.entries| == max
  {
    var filled := PutAll(Empty<V>(), max, keys, v);
    assert filled.order == keys && Coherent(filled) by {
      PutAllFresh(Empty<V>(), max, keys, v);
    }
    var read := Operation(filled, max, keys[0], Access).cache;
    assert read.order == keys[1..] + [keys[0]] && read.entries == filled.entries && Valid(read, max) by {
      CoherentSize(filled);
      ReadHead(filled, max);
    }
    var last := Operation(read, max, newKey, Put(v)).cache;
    assert last.entries == (read.entries - {keys[1]})[newKey := v] && |last.entries| == |read.entries| by {
      CoherentSize(read);
      InsertEvictsHead(read, max, newKey, v);
    }
    assert keys[0] != keys[1];
    CoherentSize(read);
  }

  // ---------------------------------------------------------------------------
  // The falsy-key eviction in the source
  // ---------------------------------------------------------------------------

  /** The two readings agree whenever the key at the head of the list is truthy. */
  lemma AsWrittenAgrees<V>(c: Cache<V>, max: nat, key: string, op: Op<V>)
    requires |c.order| == 0 || TruthyKey(c.order[0])
    ensures OperationAsWritten(c, max, key, op) == Operation(c, max, key, op)
  {
  }

  /**
   As written, a cache of capacity 1 holding the key "0" grows to two entries
   when another key is inserted: the shifted "0" is never unset.
   */
  lemma FalsyKeyBreaksBound()
    ensures var c := Cache(map["0" := 7], ["0"]);
      && Valid(c, 1)
      && |OperationAsWritten(c, 1, "a", Put(8)).cache.entries| == 2
      && |Operation(c, 1, "a", Put(8)).cache.entries| == 1
  {
    var c := Cache(map["0" := 7], ["0"]);
    assert c.order[0] == "0";
    var w := OperationAsWritten(c, 1, "a", Put(8)).cache;
    assert w.entries == map["0" := 7, "a" := 8];
    var f := Operation(c, 1, "a", Put(8)).cache;
    assert f.entries == map["a" := 8];
  }
}
