/** The host's one-shot result registries: the scalar one and its grid twin. */
module RtdOnceRegistries {
  import opened RtdOnceKeys

  type Bytes = seq<int>
  type TopicId = x: int | -0x8000_0000 <= x < 0x8000_0000
  datatype Option<T> = None | Some(value: T)

  /** Function names by declared lifecycle; names in neither set are `once`. */
  datatype Policy = Policy(memoize: set<string>, ttl: map<string, nat>)

  /** Unsigned 64-bit subtraction of two ticks. */
  function Age(now: nat, stored: nat): nat { (now - stored) % 0x1_0000_0000_0000_0000 }

  // ----- scalar registry

  /** A VARIANT, up to what the registry can tell. */
  datatype Variant = Variant(content: Bytes)
  datatype Entry = Entry(value: Variant, storedTick: nat, transient: bool)
  datatype Once = Once(topics: map<TopicId, Key>, results: map<Key, Entry>)

  predicate Live(topics: map<TopicId, Key>, key: Key) { key in topics.Values }

  function StoreResult(s: Once, key: Key, v: Variant, transient: bool, now: nat): Once {
    s.(results := s.results[key := Entry(v, now, transient)])
  }

  /** Expired at read time: only without a live topic. */
  predicate ReadExpired(p: Policy, topics: map<TopicId, Key>, key: Key, storedTick: nat, transient: bool, now: nat) {
    !Live(topics, key) &&
    (transient || (FuncNameOfKey(key) in p.ttl && Age(now, storedTick) > p.ttl[FuncNameOfKey(key)]))
  }

  function TryGetResult(s: Once, p: Policy, key: Key, now: nat): (Option<Variant>, Once) {
    if key !in s.results then (None, s)
    else
      var e := s.results[key];
      if ReadExpired(p, s.topics, key, e.storedTick, e.transient, now)
      then (None, s.(results := s.results - {key}))
      else (Some(e.value), s)
  }

  /** Erased at calc end. */
  predicate Reclaimed(p: Policy, topics: map<TopicId, Key>, key: Key, storedTick: nat, transient: bool, now: nat) {
    var fn := FuncNameOfKey(key);
    !Live(topics, key) &&
    (transient || (fn !in p.memoize && (fn in p.ttl ==> Age(now, storedTick) > p.ttl[fn])))
  }

  function ClearNonMemoized(s: Once, p: Policy, now: nat): Once {
    s.(results := map k | k in s.results
         && !Reclaimed(p, s.topics, k, s.results[k].storedTick, s.results[k].transient, now) :: s.results[k])
  }

  class RtdOnceRegistry {
    var policy: Policy
    var topicToKey: map<TopicId, Key>
    var results: map<Key, Entry>

    ghost function Abs(): Once
      reads this
    {
      Once(topicToKey, results)
    }

    constructor (policy: Policy)
      ensures this.policy == policy && Abs() == Once(map[], map[])
    {
      this.policy, topicToKey, results := policy, map[], map[];
    }

    method RegisterTopic(topicID: TopicId, key: Key)
      modifies this`topicToKey
      ensures Abs() == old(Abs()).(topics := old(topicToKey)[topicID := key])
    {
      topicToKey := topicToKey[topicID := key];
    }

    method UnregisterTopic(topicID: TopicId)
      modifies this`topicToKey
      ensures Abs() == old(Abs()).(topics := old(topicToKey) - {topicID})
    {
      topicToKey := topicToKey - {topicID};
    }

    method KeyHasLiveTopic(key: Key) returns (live: bool)
      ensures live == Live(topicToKey, key)
    {
      var ids := topicToKey.Keys;
      while ids != {}
        invariant ids <= topicToKey.Keys
        invariant forall id :: id in topicToKey && id !in ids ==> topicToKey[id] != key
      {
        var id :| id in ids;
        if topicToKey[id] == key {
          return true;
        }
        ids := ids - {id};
      }
      return false;
    }

    method Store(key: Key, v: Variant, transient: bool, now: nat)
      modifies this`results
      ensures Abs() == StoreResult(old(Abs()), key, v, transient, now)
    {
      if key !in results {
        results := results[key := Entry(v, now, transient)];
      } else {
        results := results[key := results[key].(value := v, storedTick := now, transient := transient)];
      }
    }

    method TryGet(key: Key, now: nat) returns (out: Option<Variant>)
      modifies this`results
      ensures (out, Abs()) == TryGetResult(old(Abs()), policy, key, now)
    {
      if key !in results {
        return None;
      }
      var e := results[key];
      var live := KeyHasLiveTopic(key);
      if e.transient && !live {
        results := results - {key};
        return None;
      }
      var fn := FuncNameOfKey(key);
      if fn in policy.ttl && !live {
        if Age(now, e.storedTick) > policy.ttl[fn] {
          results := results - {key};
          return None;
        }
      }
      return Some(e.value);
    }

    method Clear(now: nat)
      modifies this`results
      ensures Abs() == ClearNonMemoized(old(Abs()), policy, now)
    {
      var live := topicToKey.Values;
      var keys := results.Keys;
      while keys != {}
        invariant keys <= old(results).Keys
        invariant results == map k | k in old(results) && (k in keys ||
            !Reclaimed(policy, topicToKey, k, old(results)[k].storedTick, old(results)[k].transient, now)) :: old(results)[k]
      {
        var k :| k in keys;
        keys := keys - {k};
        var e := results[k];
        var erase := false;
        var fn := FuncNameOfKey(k);
        if k !in live {
          if e.transient {
            erase := true;
          } else if fn in policy.memoize {
            erase := false;
          } else if fn in policy.ttl {
            erase := Age(now, e.storedTick) > policy.ttl[fn];
          } else {
            erase := true;
          }
        }
        if erase {
          results := results - {k};
        }
      }
    }
  }

  // ----- grid registry

  datatype GridEntry = GridEntry(bytes: Bytes, errorText: string, storedTick: nat, transient: bool)
  datatype GridOnce = GridOnce(topics: map<TopicId, Key>, results: map<Key, GridEntry>)
  datatype OnceGridLookup = Miss | Result(bytes: Bytes) | Error(text: string)

  function StoreGrid(s: GridOnce, key: Key, data: Bytes, now: nat): GridOnce {
    s.(results := s.results[key := GridEntry(data, "", now, false)])
  }

  function StoreGridError(s: GridOnce, key: Key, text: string, now: nat): GridOnce {
    s.(results := s.results[key := GridEntry([], text, now, true)])
  }

  function TryGetGrid(s: GridOnce, p: Policy, key: Key, now: nat): (OnceGridLookup, GridOnce) {
    if key !in s.results then (Miss, s)
    else
      var e := s.results[key];
      if ReadExpired(p, s.topics, key, e.storedTick, e.transient, now)
      then (Miss, s.(results := s.results - {key}))
      else (if e.transient then Error(e.errorText) else Result(e.bytes), s)
  }

  function ClearGrid(s: GridOnce, p: Policy, now: nat): GridOnce {
    s.(results := map k | k in s.results
         && !Reclaimed(p, s.topics, k, s.results[k].storedTick, s.results[k].transient, now) :: s.results[k])
  }

  class RtdOnceGridRegistry {
    var policy: Policy
    var topicToKey: map<TopicId, Key>
    var results: map<Key, GridEntry>

    ghost function Abs(): GridOnce
      reads this
    {
      GridOnce(topicToKey, results)
    }

    constructor (policy: Policy)
      ensures this.policy == policy && Abs() == GridOnce(map[], map[])
    {
      this.policy, topicToKey, results := policy, map[], map[];
    }

    method RegisterTopic(topicID: TopicId, key: Key)
      modifies this`topicToKey
      ensures Abs() == old(Abs()).(topics := old(topicToKey)[topicID := key])
    {
      topicToKey := topicToKey[topicID := key];
    }

    method UnregisterTopic(topicID: TopicId)
      modifies this`topicToKey
      ensures Abs() == old(Abs()).(topics := old(topicToKey) - {topicID})
    {
      topicToKey := topicToKey - {topicID};
    }

    method KeyHasLiveTopic(key: Key) returns (live: bool)
      ensures live == Live(topicToKey, key)
    {
      var ids := topicToKey.Keys;
      while ids != {}
        invariant ids <= topicToKey.Keys
        invariant forall id :: id in topicToKey && id !in ids ==> topicToKey[id] != key
      {
        var id :| id in ids;
        if topicToKey[id] == key {
          return true;
        }
        ids := ids - {id};
      }
      return false;
    }

    /** A completed payload promotes the entry to normal retention. */
    method Store(key: Key, data: Bytes, now: nat)
      modifies this`results
      ensures Abs() == StoreGrid(old(Abs()), key, data, now)
    {
      if key !in results {
        results := results[key := GridEntry(data, "", now, false)];
      } else {
        results := results[key := results[key].(bytes := data, errorText := "", transient := false, storedTick := now)];
      }
    }

    method StoreError(key: Key, text: string, now: nat)
      modifies this`results
      ensures Abs() == StoreGridError(old(Abs()), key, text, now)
    {
      if key !in results {
        results := results[key := GridEntry([], text, now, true)];
      } else {
        results := results[key := results[key].(bytes := [], errorText := text, transient := true, storedTick := now)];
      }
    }

    method TryGet(key: Key, now: nat) returns (out: OnceGridLookup)
      modifies this`results
      ensures (out, Abs()) == TryGetGrid(old(Abs()), policy, key, now)
    {
      if key !in results {
        return Miss;
      }
      var e := results[key];
      var live := KeyHasLiveTopic(key);
      if e.transient && !live {
        results := results - {key};
        return Miss;
      }
      var fn := FuncNameOfKey(key);
      if fn in policy.ttl && !live {
        if Age(now, e.storedTick) > policy.ttl[fn] {
          results := results - {key};
          return Miss;
        }
      }
      if e.transient {
        return Error(e.errorText);
      }
      return Result(e.bytes);
    }

    method Clear(now: nat)
      modifies this`results
      ensures Abs() == ClearGrid(old(Abs()), policy, now)
    {
      var live := topicToKey.Values;
      var keys := results.Keys;
      while keys != {}
        invariant keys <= old(results).Keys
        invariant results == map k | k in old(results) && (k in keys ||
            !Reclaimed(policy, topicToKey, k, old(results)[k].storedTick, old(results)[k].transient, now)) :: old(results)[k]
      {
        var k :| k in keys;
        keys := keys - {k};
        var e := results[k];
        var fn := FuncNameOfKey(k);
        var erase := false;
        if k !in live {
          if e.transient {
            erase := true;
          } else if fn in policy.memoize {
            erase := false;
          } else if fn in policy.ttl {
            erase := Age(now, e.storedTick) > policy.ttl[fn];
          } else {
            erase := true;
          }
        }
        if erase {
          results := results - {k};
        }
      }
    }
  }
}
