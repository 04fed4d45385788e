/** What the limits of a configuration come to, on its fields and in numbers, and
    what exactly becomes of a frame of a resident transfer. */
module ChunkLimits {
  import opened Segments
  import opened ChunkProtocol
  import opened ChunkInvariants

  /** A field that is not positive means the default: 256 MiB, 60 s, 1024, 1024. */
  predicate Limits(cfg: Config, maxBytes: nat, ttl: nat, transfers: nat, poisons: nat) {
    && maxBytes == (if cfg.MaxChunkBufferBytes > 0 then cfg.MaxChunkBufferBytes else 268_435_456)
    && ttl == (if cfg.ChunkBufferTTL > 0 then cfg.ChunkBufferTTL else 60_000_000_000)
    && transfers == (if cfg.MaxConcurrentTransfers > 0 then cfg.MaxConcurrentTransfers else 1024)
    && poisons == (if cfg.MaxPoisonedTransfers > 0 then cfg.MaxPoisonedTransfers else 1024)
  }

  /** The transfers touched, and the ids poisoned, no more than ttl ago. */
  function Fresh(s: State, ttl: nat, now: int): set<nat> { set id | id in s.cache && now - s.cache[id].lastAccess <= ttl }
  function Recent(s: State, ttl: nat, now: int): set<nat> { set id | id in s.poisoned && now - s.poisoned[id] <= ttl }

  lemma FreshStay(s: State, cfg: Config, ttl: nat, now: int)
    requires ttl == cfg.Ttl()
    ensures Prune(s, cfg, now).cache.Keys == Fresh(s, ttl, now) && Prune(s, cfg, now).poisoned.Keys == Recent(s, ttl, now)
    ensures |Fresh(s, ttl, now)| <= |s.cache| && |Recent(s, ttl, now)| <= |s.poisoned|
    ensures |Prune(s, cfg, now).cache| == |Fresh(s, ttl, now)| && |Prune(s, cfg, now).poisoned| == |Recent(s, ttl, now)|
  {
    var p := Prune(s, cfg, now);
    assert p.cache.Keys == Fresh(s, ttl, now) && p.poisoned.Keys == Recent(s, ttl, now);
    SubmapSmaller(p.cache, s.cache);
    SubmapSmaller(p.poisoned, s.poisoned);
    assert |p.cache| == |p.cache.Keys| && |p.poisoned| == |p.poisoned.Keys|;
  }

  /** In any state, a new transfer of an acceptable size is refused for the count
      if and only if that many fresh ones are resident; one that is resident never
      is; and only a size of zero or past the cap is refused for its size. */
  lemma AdmittedIff(s: State, cfg: Config, id: nat, total: nat, now: int, maxBytes: nat, ttl: nat, transfers: nat, poisons: nat)
    requires Limits(cfg, maxBytes, ttl, transfers, poisons)
    ensures var adm := Admit(s, cfg, id, total, now).0;
      && (adm == Denied(TotalNonPositive) <==> total == 0)
      && (adm == Denied(TotalTooLarge) <==> total > maxBytes)
      && (adm == Denied(TooManyTransfers) <==>
            0 < total <= maxBytes && id !in s.cache && |Fresh(s, ttl, now)| >= transfers)
      && (adm == Admitted <==>
            0 < total <= maxBytes && (id in s.cache || |Fresh(s, ttl, now)| < transfers))
  {
    FreshStay(s, cfg, ttl, now);
  }

  /** A sweep keeps exactly the transfers and poison entries idle for no longer than
      the TTL, untouched. */
  lemma SweptIff(s: State, cfg: Config, id: nat, now: int, maxBytes: nat, ttl: nat, transfers: nat, poisons: nat)
    requires Limits(cfg, maxBytes, ttl, transfers, poisons)
    ensures var s' := Step(s, cfg, Sweep(now));
      && (id in s'.cache <==> id in s.cache && now - s.cache[id].lastAccess <= ttl)
      && (id in s'.cache ==> s'.cache[id] == s.cache[id])
      && (id in s'.poisoned <==> id in s.poisoned && now - s.poisoned[id] <= ttl)
      && (id in s'.poisoned ==> s'.poisoned[id] == s.poisoned[id])
  {
  }

  /** A chunk is refused as poisoned if and only if its id was rejected no more
      than the TTL ago. */
  lemma PoisonedIff(s: State, cfg: Config, f: Frame, t: Clock, victim: nat, maxBytes: nat, ttl: nat, transfers: nat, poisons: nat)
    requires Inv(s, cfg) && Limits(cfg, maxBytes, ttl, transfers, poisons)
    ensures HandleChunk(s, cfg, f, t, victim).0 == Refused(Poisoned)
      <==> f.id in s.poisoned && t.check - s.poisoned[f.id] <= ttl
  {
    PoisonRefusal(s, cfg, f, t, victim);
  }

  /** A rejection costs another id its record, while that is inside its window, if
      and only if as many such records as the limit are kept, and then exactly one
      of the oldest. */
  lemma EvictedIff(s: State, cfg: Config, id: nat, now: int, victim: nat, q: nat,
                   maxBytes: nat, ttl: nat, transfers: nat, poisons: nat)
    requires Limits(cfg, maxBytes, ttl, transfers, poisons) && VictimOk(s, cfg, id, now, victim)
    requires q in Recent(s, ttl, now) && q != id
    ensures var p := Poison(s, cfg, id, now, victim).poisoned;
      && (q !in p <==> |Recent(s, ttl, now)| >= poisons && q == victim)
      && (q in p ==> p[q] == s.poisoned[q])
      && (q !in p ==> forall r :: r in Recent(s, ttl, now) ==> s.poisoned[q] <= s.poisoned[r])
      && id in p && p[id] == now
  {
    FreshStay(s.(cache := s.cache - {id}), cfg, ttl, now);
    assert Recent(s.(cache := s.cache - {id}), ttl, now) == Recent(s, ttl, now);
  }

  /** Some byte of f's range has been claimed before. */
  ghost predicate Meets(b: Buffer, f: Frame) { exists k :: f.Range().Has(k) && Covers(b.segments, k) }

  /** Every byte of b has been claimed, or is in f's range. */
  ghost predicate Fills(b: Buffer, f: Frame) {
    forall k :: 0 <= k < |b.data| ==> Covers(b.segments, k) || f.Range().Has(k)
  }

  /** d is b's bytes with f's own where they are new. */
  ghost predicate Mixed(b: Buffer, f: Frame, d: seq<byte>) {
    |d| == b.total == |b.data| && forall k :: 0 <= k < b.total ==>
      d[k] == if !Covers(b.segments, k) && f.Range().Has(k) then f.data[k - f.offset] else b.data[k]
  }

  /** What exactly becomes of a frame that keeps its transfer's total: refused when
      it reaches past the total, is empty, or meets a claimed byte without being a
      range seen before; dispatched when nothing is missing any more, with its own
      bytes where they are new; acknowledged otherwise. */
  lemma FrameFate(s: State, cfg: Config, f: Frame, t: Clock, victim: nat)
    requires Inv(s, cfg) && f.id in s.cache && s.cache[f.id].buffer.total == f.total
    ensures var b := s.cache[f.id].buffer; var out := HandleChunk(s, cfg, f, t, victim).0;
      && (out == Refused(OutOfBounds) <==> f.offset + |f.data| > f.total)
      && (out == Refused(ZeroLength) <==> f.offset <= f.total && f.data == [])
      && (out == Refused(Overlapping) <==>
            f.data != [] && f.offset + |f.data| <= f.total && Meets(b, f) && f.Range() !in b.segments)
      && (out.Refused? ==> out.reason.Violation())
      && (!out.Refused? ==> (out.Dispatched? <==> Fills(b, f)))
      && (out.Dispatched? ==> out.msgType == f.msgType && Mixed(b, f, out.payload))
  {
    var b := s.cache[f.id].buffer;
    assert Admitting(s, cfg, f, t) == (Admitted, s.(cache := s.cache[f.id := Transfer(b, t.admit)]));
    ReceiveRejects(b, f);
    if Receive(b, f).0.Stored? {
      ReceiveStores(b, f);
    }
  }

  lemma ReceiveRejects(b: Buffer, f: Frame)
    requires Unfinished(b)
    ensures var got := Receive(b, f).0;
      && (got == Rejected(OutOfBounds) <==> f.offset + |f.data| > b.total)
      && (got == Rejected(ZeroLength) <==> f.offset <= b.total && f.data == [])
      && (got == Rejected(Overlapping) <==>
            f.data != [] && f.offset + |f.data| <= b.total && Meets(b, f) && f.Range() !in b.segments)
  {
  }

  lemma ReceiveStores(b: Buffer, f: Frame)
    requires Unfinished(b) && Receive(b, f).0.Stored?
    ensures var (got, b') := Receive(b, f); (got.complete <==> Fills(b, f)) && Mixed(b, f, b'.data)
  {
    ReceiveCompletes(b, f);
    if f.Range() in b.segments {
      RepeatChangesNothing(b, f);
    } else {
      NewBytesLand(b, f);
    }
  }

  lemma ReceiveCompletes(b: Buffer, f: Frame)
    requires Unfinished(b) && Receive(b, f).0.Stored?
    ensures Receive(b, f).0.complete <==> Fills(b, f)
  {
    ReceiveKeeps(b, f);
    CompleteIffCovered(Receive(b, f).1.segments, b.total);
  }

  lemma RepeatChangesNothing(b: Buffer, f: Frame)
    requires GoodBuffer(b) && f.Range() in b.segments && Receive(b, f).0.Stored?
    ensures Mixed(b, f, Receive(b, f).1.data)
  {
    var j :| 0 <= j < |b.segments| && b.segments[j] == f.Range();
    assert forall k :: f.Range().Has(k) ==> b.segments[j].Has(k);
    assert forall k :: f.Range().Has(k) ==> Covers(b.segments, k);
    assert Receive(b, f).1.data == b.data;
  }

  lemma NewBytesLand(b: Buffer, f: Frame)
    requires GoodBuffer(b) && f.Range() !in b.segments && Receive(b, f).0.Stored?
    ensures Mixed(b, f, Receive(b, f).1.data)
  {
    assert Free(b.segments, f.Range());
    SpliceMixes(b, f);
    assert Receive(b, f).1.data == Splice(b.data, f.offset, f.data);
  }

  lemma SpliceMixes(b: Buffer, f: Frame)
    requires 0 < b.total == |b.data| && f.offset + |f.data| <= |b.data| && Free(b.segments, f.Range())
    ensures Mixed(b, f, Splice(b.data, f.offset, f.data))
  {
  }
}
