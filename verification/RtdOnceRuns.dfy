/** Retention of one-shot results over whole runs, and the proof that the scalar
    registry and its grid twin behave alike. */
module RtdOnceRuns {
  import opened RtdOnceKeys
  import opened RtdOnceRegistries

  datatype Event =
    | Register(topic: TopicId, key: Key)
    | Unregister(topic: TopicId)
    | Put(key: Key, value: Variant, transient: bool, now: nat)
    | Read(key: Key, now: nat)
    | CalcEnd(now: nat)

  function Step(s: Once, p: Policy, e: Event): Once {
    match e
    case Register(t, k) => s.(topics := s.topics[t := k])
    case Unregister(t) => s.(topics := s.topics - {t})
    case Put(k, v, transient, now) => StoreResult(s, k, v, transient, now)
    case Read(k, now) => TryGetResult(s, p, k, now).1
    case CalcEnd(now) => ClearNonMemoized(s, p, now)
  }

  function Run(s: Once, p: Policy, es: seq<Event>): Once
    decreases |es|
  {
    if es == [] then s else Run(Step(s, p, es[0]), p, es[1..])
  }

  ghost predicate Stores(es: seq<Event>, key: Key) {
    exists i :: 0 <= i < |es| && es[i].Put? && es[i].key == key
  }

  lemma StoresTail(es: seq<Event>, key: Key)
    requires es != []
    ensures Stores(es, key) <==> (es[0].Put? && es[0].key == key) || Stores(es[1..], key)
  {
    if Stores(es, key) {
      var i :| 0 <= i < |es| && es[i].Put? && es[i].key == key;
      if i > 0 {
        assert es[1..][i - 1] == es[i];
      }
    }
    if Stores(es[1..], key) {
      var i :| 0 <= i < |es[1..]| && es[1..][i].Put? && es[1..][i].key == key;
      assert es[i + 1] == es[1..][i];
    }
  }

  /** Entries come from stores and from nowhere else. */
  lemma {:induction false} GoneStaysGone(s: Once, p: Policy, es: seq<Event>, key: Key)
    requires key !in s.results && !Stores(es, key)
    ensures key !in Run(s, p, es).results
    decreases |es|
  {
    if es != [] {
      StoresTail(es, key);
      GoneStaysGone(Step(s, p, es[0]), p, es[1..], key);
    }
  }

  // ----- what a read may serve

  /** A plain `once` result without a live topic is gone at calc end and stays
      gone until it is stored again. */
  lemma OnceIsReclaimed(s: Once, p: Policy, key: Key, now: nat, es: seq<Event>)
    requires !Live(s.topics, key) && !Stores(es, key)
    requires FuncNameOfKey(key) !in p.memoize && FuncNameOfKey(key) !in p.ttl
    ensures key !in Run(ClearNonMemoized(s, p, now), p, es).results
  {
    GoneStaysGone(ClearNonMemoized(s, p, now), p, es, key);
  }

  /** An error is never frozen: once its topic is gone, the next read or calc end
      drops it whatever the function declares. */
  lemma ErrorIsNeverFrozen(s: Once, p: Policy, key: Key, e: Event, es: seq<Event>)
    requires key in s.results && s.results[key].transient && !Live(s.topics, key)
    requires e.CalcEnd? || (e.Read? && e.key == key)
    requires !Stores(es, key)
    ensures key !in Run(Step(s, p, e), p, es).results
  {
    GoneStaysGone(Step(s, p, e), p, es, key);
  }

  /** A completed memoized entry survives every run until the next store. */
  lemma {:induction false} MemoizedSurvives(s: Once, p: Policy, es: seq<Event>, key: Key)
    requires key in s.results && !s.results[key].transient && !Stores(es, key)
    requires FuncNameOfKey(key) in p.memoize && FuncNameOfKey(key) !in p.ttl
    ensures key in Run(s, p, es).results && Run(s, p, es).results[key] == s.results[key]
    decreases |es|
  {
    if es != [] {
      StoresTail(es, key);
      MemoizedSurvives(Step(s, p, es[0]), p, es[1..], key);
    }
  }

  // ----- exactly when an entry is dropped

  /** The topics as a step leaves them: only Register and Unregister touch them. */
  function TopicsAfter(topics: map<TopicId, Key>, ev: Event): map<TopicId, Key> {
    match ev
    case Register(t, k) => topics[t := k]
    case Unregister(t) => topics - {t}
    case _ => topics
  }

  /** The retention rule: what drops e from under key when ev finds it there. */
  ghost predicate Drops(topics: map<TopicId, Key>, p: Policy, key: Key, e: Entry, ev: Event) {
    var fn := FuncNameOfKey(key);
    && (forall t :: t in topics ==> topics[t] != key)
    && match ev
       case Read(k, now) => k == key && (e.transient || (fn in p.ttl && PastTtl(e, p.ttl[fn], now)))
       case CalcEnd(now) =>
         e.transient || (fn !in p.memoize && (fn !in p.ttl || PastTtl(e, p.ttl[fn], now)))
       case _ => false
  }

  /** More than ttl milliseconds have passed, on a 64-bit tick counter. */
  predicate PastTtl(e: Entry, ttl: nat, now: nat) { (now - e.storedTick) % 0x1_0000_0000_0000_0000 > ttl }

  ghost predicate DropsOver(topics: map<TopicId, Key>, p: Policy, key: Key, e: Entry, es: seq<Event>)
    decreases |es|
  {
    es != [] && (Drops(topics, p, key, e, es[0]) || DropsOver(TopicsAfter(topics, es[0]), p, key, e, es[1..]))
  }

  lemma StepDrops(s: Once, p: Policy, ev: Event, key: Key)
    requires key in s.results && !(ev.Put? && ev.key == key)
    ensures Step(s, p, ev).topics == TopicsAfter(s.topics, ev)
    ensures key in Step(s, p, ev).results <==> !Drops(s.topics, p, key, s.results[key], ev)
    ensures key in Step(s, p, ev).results ==> Step(s, p, ev).results[key] == s.results[key]
  {
    assert Live(s.topics, key) <==> exists t :: t in s.topics && s.topics[t] == key;
  }

  /** Over any run without a store of its key an entry stays, unchanged, if and
      only if no event of the run drops it. */
  lemma {:induction false} EntryStaysIff(s: Once, p: Policy, es: seq<Event>, key: Key)
    requires key in s.results && !Stores(es, key)
    ensures key in Run(s, p, es).results <==> !DropsOver(s.topics, p, key, s.results[key], es)
    ensures key in Run(s, p, es).results ==> Run(s, p, es).results[key] == s.results[key]
    decreases |es|
  {
    if es != [] {
      StoresTail(es, key);
      StepDrops(s, p, es[0], key);
      if Drops(s.topics, p, key, s.results[key], es[0]) {
        GoneStaysGone(Step(s, p, es[0]), p, es[1..], key);
      } else {
        EntryStaysIff(Step(s, p, es[0]), p, es[1..], key);
      }
    }
  }

  /** Every read of key and every calc end falls within ttl of the tick. */
  ghost predicate Within(es: seq<Event>, key: Key, tick: nat, ttl: nat) {
    forall i :: 0 <= i < |es| ==>
      (es[i].CalcEnd? || (es[i].Read? && es[i].key == key)) ==>
        tick <= es[i].now <= tick + ttl && es[i].now < 0x1_0000_0000_0000_0000
  }

  lemma {:induction false} WithinDropsNothing(topics: map<TopicId, Key>, p: Policy, key: Key, e: Entry, es: seq<Event>)
    requires !e.transient && FuncNameOfKey(key) in p.ttl
    requires Within(es, key, e.storedTick, p.ttl[FuncNameOfKey(key)])
    ensures !DropsOver(topics, p, key, e, es)
    decreases |es|
  {
    if es != [] {
      var rest := es[1..];
      assert forall i :: 0 <= i < |rest| ==> rest[i] == es[i + 1];
      WithinDropsNothing(TopicsAfter(topics, es[0]), p, key, e, rest);
    }
  }

  /** A completed result of a function with a TTL is kept inside it, topic or no
      topic, and is then served to a read; a read past the TTL is served exactly
      when a topic is live. */
  lemma TtlIsKept(s: Once, p: Policy, es: seq<Event>, key: Key, now: nat)
    requires key in s.results && !s.results[key].transient && !Stores(es, key) && FuncNameOfKey(key) in p.ttl
    requires Within(es, key, s.results[key].storedTick, p.ttl[FuncNameOfKey(key)])
    requires s.results[key].storedTick <= now < 0x1_0000_0000_0000_0000
    ensures var s', e := Run(s, p, es), s.results[key];
      && key in s'.results && s'.results[key] == e
      && TryGetResult(s', p, key, now).0 ==
         if now - e.storedTick <= p.ttl[FuncNameOfKey(key)] || (exists t :: t in s'.topics && s'.topics[t] == key)
         then Some(e.value) else None
  {
    EntryStaysIff(s, p, es, key);
    WithinDropsNothing(s.topics, p, key, s.results[key], es);
  }

  // ----- a live period

  /** key has a live topic after every event of the run. */
  ghost predicate LiveThroughout(s: Once, p: Policy, es: seq<Event>, key: Key)
    decreases |es|
  {
    Live(s.topics, key) && (es == [] || LiveThroughout(Step(s, p, es[0]), p, es[1..], key))
  }

  /** The entry the run's last store of key left, or `before` if it stored none. */
  function LastStored(es: seq<Event>, key: Key, before: Option<Entry>): Option<Entry>
    decreases |es|
  {
    if es == [] then before
    else
      var e := es[0];
      LastStored(es[1..], key, if e.Put? && e.key == key then Some(Entry(e.value, e.now, e.transient)) else before)
  }

  function EntryOf(s: Once, key: Key): Option<Entry> {
    if key in s.results then Some(s.results[key]) else None
  }

  /** The liveness guard: while a topic is connected nothing but a store of that
      key changes what a read of it finds. */
  lemma {:induction false} LiveIsLastStored(s: Once, p: Policy, es: seq<Event>, key: Key)
    requires LiveThroughout(s, p, es, key)
    ensures EntryOf(Run(s, p, es), key) == LastStored(es, key, EntryOf(s, key))
    decreases |es|
  {
    if es != [] {
      var s1 := Step(s, p, es[0]);
      assert Live(s1.topics, key);
      assert EntryOf(s1, key) == if es[0].Put? && es[0].key == key
                                 then Some(Entry(es[0].value, es[0].now, es[0].transient)) else EntryOf(s, key);
      LiveIsLastStored(s1, p, es[1..], key);
    }
  }

  lemma {:induction false} LastStoredIff(es: seq<Event>, key: Key, before: Option<Entry>)
    ensures LastStored(es, key, before).Some? <==> before.Some? || Stores(es, key)
    decreases |es|
  {
    if es != [] {
      StoresTail(es, key);
      var e := es[0];
      LastStoredIff(es[1..], key, if e.Put? && e.key == key then Some(Entry(e.value, e.now, e.transient)) else before);
    }
  }

  lemma {:induction false} LastStoredForgets(es: seq<Event>, key: Key, a: Option<Entry>, b: Option<Entry>)
    requires Stores(es, key)
    ensures LastStored(es, key, a) == LastStored(es, key, b)
    decreases |es|
  {
    StoresTail(es, key);
    var e := es[0];
    if Stores(es[1..], key) {
      LastStoredForgets(es[1..], key,
        if e.Put? && e.key == key then Some(Entry(e.value, e.now, e.transient)) else a,
        if e.Put? && e.key == key then Some(Entry(e.value, e.now, e.transient)) else b);
    }
  }

  /** Whatever runs, an entry found under a key is the last one stored there. */
  lemma {:induction false} ResidentIsLastStored(s: Once, p: Policy, es: seq<Event>, key: Key)
    requires key in Run(s, p, es).results
    ensures LastStored(es, key, EntryOf(s, key)) == Some(Run(s, p, es).results[key])
    decreases |es|
  {
    if es != [] {
      var s1 := Step(s, p, es[0]);
      ResidentIsLastStored(s1, p, es[1..], key);
      if key !in s1.results {
        if !Stores(es[1..], key) {
          GoneStaysGone(s1, p, es[1..], key);
        }
        LastStoredForgets(es[1..], key, None, EntryOf(s, key));
      }
    }
  }

  /** Over any run a hit serves the last value stored under its key: an error only
      to a live topic, and without a live topic a TTL result only inside its TTL. */
  lemma HitServesLastStored(s: Once, p: Policy, es: seq<Event>, key: Key, now: nat)
    requires TryGetResult(Run(s, p, es), p, key, now).0.Some?
    ensures var out := TryGetResult(Run(s, p, es), p, key, now).0.value;
      var last, live, fn := LastStored(es, key, EntryOf(s, key)), Live(Run(s, p, es).topics, key), FuncNameOfKey(key);
      && last.Some? && out == last.value.value
      && (last.value.transient ==> live)
      && (fn in p.ttl && !live ==> Age(now, last.value.storedTick) <= p.ttl[fn])
  {
    ResidentIsLastStored(s, p, es, key);
  }

  /** The state once a read of key has run, then `between`, then a registration. */
  function Registered(s: Once, p: Policy, key: Key, missAt: nat, between: seq<Event>, topic: TopicId): Once {
    Step(Run(TryGetResult(s, p, key, missAt).1, p, between), p, Register(topic, key))
  }

  /** A topic registered after a miss, with no store of its key in between but
      whatever else: through its live period a read hits exactly when the period
      has stored a value, and serves the last one stored. */
  lemma LivePeriodServesItself(s: Once, p: Policy, key: Key, missAt: nat, between: seq<Event>, topic: TopicId,
                               es: seq<Event>, now: nat)
    requires TryGetResult(s, p, key, missAt).0 == None && !Stores(between, key)
    requires LiveThroughout(Registered(s, p, key, missAt, between, topic), p, es, key)
    ensures var s1 := Registered(s, p, key, missAt, between, topic);
      var out := TryGetResult(Run(s1, p, es), p, key, now).0;
      && (out.Some? <==> Stores(es, key))
      && (out.Some? ==> LastStored(es, key, None).Some? && out.value == LastStored(es, key, None).value.value)
  {
    GoneStaysGone(TryGetResult(s, p, key, missAt).1, p, between, key);
    var s1 := Registered(s, p, key, missAt, between, topic);
    assert EntryOf(s1, key) == None;
    LiveIsLastStored(s1, p, es, key);
    LastStoredIff(es, key, None);
    LiveAtEnd(s1, p, es, key);
  }

  lemma {:induction false} LiveAtEnd(s: Once, p: Policy, es: seq<Event>, key: Key)
    requires LiveThroughout(s, p, es, key)
    ensures Live(Run(s, p, es).topics, key)
    decreases |es|
  {
    if es != [] {
      LiveAtEnd(Step(s, p, es[0]), p, es[1..], key);
    }
  }

  // ----- the grid twin

  function GridStep(g: GridOnce, p: Policy, e: Event, enc: Variant -> Bytes, msg: Variant -> string): GridOnce {
    match e
    case Register(t, k) => g.(topics := g.topics[t := k])
    case Unregister(t) => g.(topics := g.topics - {t})
    case Put(k, v, transient, now) =>
      if transient then StoreGridError(g, k, msg(v), now) else StoreGrid(g, k, enc(v), now)
    case Read(k, now) => TryGetGrid(g, p, k, now).1
    case CalcEnd(now) => ClearGrid(g, p, now)
  }

  /** Same topics, same resident keys, and under each the same kind of entry. */
  ghost predicate Alike(s: Once, g: GridOnce, enc: Variant -> Bytes, msg: Variant -> string) {
    && s.topics == g.topics && s.results.Keys == g.results.Keys
    && forall k :: k in s.results ==>
         && s.results[k].storedTick == g.results[k].storedTick
         && s.results[k].transient == g.results[k].transient
         && if s.results[k].transient
            then g.results[k].bytes == [] && g.results[k].errorText == msg(s.results[k].value)
            else g.results[k].bytes == enc(s.results[k].value) && g.results[k].errorText == ""
  }

  /** The grid's three-way answer against the scalar's two-way one. */
  ghost predicate SameAnswer(s: Once, p: Policy, key: Key, now: nat, out: OnceGridLookup, enc: Variant -> Bytes, msg: Variant -> string) {
    match TryGetResult(s, p, key, now).0
    case None => out == Miss
    case Some(v) => out == if s.results[key].transient then Error(msg(v)) else Result(enc(v))
  }

  lemma StepAlike(s: Once, g: GridOnce, p: Policy, e: Event, enc: Variant -> Bytes, msg: Variant -> string)
    requires Alike(s, g, enc, msg)
    ensures Alike(Step(s, p, e), GridStep(g, p, e, enc, msg), enc, msg)
    ensures e.Read? ==> SameAnswer(s, p, e.key, e.now, TryGetGrid(g, p, e.key, e.now).0, enc, msg)
  {
  }

  /** Every read of the run answers alike on both sides, up to its end. */
  ghost predicate RunsAlike(s: Once, g: GridOnce, p: Policy, es: seq<Event>, enc: Variant -> Bytes, msg: Variant -> string)
    decreases |es|
  {
    && Alike(s, g, enc, msg)
    && (es != [] ==>
          && (es[0].Read? ==> SameAnswer(s, p, es[0].key, es[0].now, TryGetGrid(g, p, es[0].key, es[0].now).0, enc, msg))
          && RunsAlike(Step(s, p, es[0]), GridStep(g, p, es[0], enc, msg), p, es[1..], enc, msg))
  }

  /** The two registries are bisimilar, whatever values encode to: completed
      results match StoreResult(false) with Store, errors match
      StoreResult(true) with StoreError. */
  lemma {:induction false} RegistriesBisimilar(s: Once, g: GridOnce, p: Policy, es: seq<Event>,
                                               enc: Variant -> Bytes, msg: Variant -> string)
    requires Alike(s, g, enc, msg)
    ensures RunsAlike(s, g, p, es, enc, msg)
    decreases |es|
  {
    if es != [] {
      StepAlike(s, g, p, es[0], enc, msg);
      RegistriesBisimilar(Step(s, p, es[0]), GridStep(g, p, es[0], enc, msg), p, es[1..], enc, msg);
    }
  }
}
