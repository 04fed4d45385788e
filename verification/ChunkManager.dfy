/** ChunkBuffer, ChunkManager and HandleChunk as the source has them, updating
    their fields in place, each proved against its step in ChunkProtocol. */
module ChunkManagers {
  import opened Segments
  import opened ChunkProtocol
  import opened ChunkInvariants

  class ChunkBuffer {
    const Data: array<byte>
    const TotalSize: nat
    var Received: nat
    var Segments: seq<Segment>
    var Dispatched: bool
    var LastAccess: int

    ghost function Abs(): Buffer
      reads this, Data
    {
      Buffer(Data[..], TotalSize, Received, Segments, Dispatched)
    }

    constructor (total: nat, now: int)
      ensures Abs() == FreshBuffer(total) && LastAccess == now
      ensures fresh(Data)
    {
      Data := new byte[total](_ => 0);
      TotalSize, Received, Segments, Dispatched, LastAccess := total, 0, [], false, now;
    }

    /** sort.Search: the first recorded range starting at or after offset. */
    method Search(offset: nat) returns (i: nat)
      requires SortedDisjoint(Segments)
      ensures i <= |Segments|
      ensures forall j :: 0 <= j < i ==> Segments[j].Offset < offset
      ensures forall j :: i <= j < |Segments| ==> offset <= Segments[j].Offset
    {
      i := 0;
      var hi := |Segments|;
      while i < hi
        invariant 0 <= i <= hi <= |Segments|
        invariant forall j :: 0 <= j < i ==> Segments[j].Offset < offset
        invariant forall j :: hi <= j < |Segments| ==> offset <= Segments[j].Offset
      {
        var h := (i + hi) / 2;
        if Segments[h].Offset < offset {
          assert forall j :: 0 <= j < h ==> Segments[j].End() <= Segments[h].Offset;
          i := h + 1;
        } else {
          assert forall j :: h < j < |Segments| ==> Segments[h].End() <= Segments[j].Offset;
          hi := h;
        }
      }
    }

    method ClaimSegment(offset: nat, length: nat) returns (claim: Claim)
      requires SortedDisjoint(Segments) && length > 0
      modifies this`Segments
      ensures claim == Verdict(old(Segments), Segment(offset, length))
      ensures Segments == if claim == New then Record(old(Segments), Segment(offset, length)) else old(Segments)
    {
      var i := Search(offset);
      ghost var seg := Segment(offset, length);
      NeighboursDecide(Segments, seg, i);
      if i < |Segments| && Segments[i].Offset == offset {
        if Segments[i].Length == length {
          return Duplicate;
        }
        return Overlap;
      }
      if i > 0 {
        var p := Segments[i - 1];
        if p.Offset + p.Length > offset {
          return Overlap;
        }
      }
      if i < |Segments| && offset + length > Segments[i].Offset {
        return Overlap;
      }
      RecordAt(Segments, seg, i);
      Segments := Segments[..i] + [Segment(offset, length)] + Segments[i..];
      return New;
    }

    /** The section of HandleChunk under this buffer's mutex. */
    method ReceiveChunk(f: Frame) returns (got: Received)
      requires GoodBuffer(Abs())
      modifies this, Data
      ensures (got, Abs()) == Receive(old(Abs()), f)
      ensures LastAccess == old(LastAccess)
    {
      var dataLen := |f.data|;
      if f.offset + dataLen > Data.Length {
        return Rejected(OutOfBounds);
      }
      if dataLen == 0 {
        return Rejected(ZeroLength);
      }
      var claim := ClaimSegment(f.offset, dataLen);
      if claim == Overlap {
        return Rejected(Overlapping);
      }
      if claim == New {
        ghost var before := Data[..];
        forall k | 0 <= k < dataLen {
          Data[f.offset + k] := f.data[k];
        }
        assert Data[..] == Splice(before, f.offset, f.data);
        Received := Received + dataLen;
      }
      var claimedDispatch := false;
      if Received == TotalSize && !Dispatched {
        Dispatched := true;
        claimedDispatch := true;
      }
      return Stored(claimedDispatch);
    }
  }

  class ChunkManager {
    const cfg: Config
    var chunkCache: map<nat, ChunkBuffer>
    var poisoned: map<nat, int>
    ghost var S: State  // the protocol state these fields hold
    ghost var Repr: set<object>

    /** The fields hold S, and no two transfers share a buffer. */
    ghost predicate Valid()
      reads this, Repr
    {
      && this in Repr
      && poisoned == S.poisoned
      && chunkCache.Keys == S.cache.Keys
      && (forall id :: id in chunkCache ==> chunkCache[id] in Repr && chunkCache[id].Data in Repr)
      && (forall id :: id in chunkCache ==>
            S.cache[id] == Transfer(chunkCache[id].Abs(), chunkCache[id].LastAccess))
      && (forall i, j :: i in chunkCache && j in chunkCache && i != j ==>
            chunkCache[i] != chunkCache[j] && chunkCache[i].Data != chunkCache[j].Data)
    }

    constructor (cfg: Config)
      ensures Valid() && fresh(Repr) && this.cfg == cfg && S == State(map[], map[])
    {
      this.cfg := cfg;
      chunkCache, poisoned := map[], map[];
      S := State(map[], map[]);
      Repr := {this};
    }

    method PruneTransfers(now: int)
      requires Valid()
      modifies this`chunkCache
      ensures chunkCache == map id | id in old(chunkCache)
          && now - old(chunkCache)[id].LastAccess <= cfg.Ttl() :: old(chunkCache)[id]
    {
      var kept, ttl := chunkCache, cfg.Ttl();
      var ids := chunkCache.Keys;
      while ids != {}
        invariant ids <= chunkCache.Keys
        invariant kept == map id | id in chunkCache
            && (id in ids || now - chunkCache[id].LastAccess <= ttl) :: chunkCache[id]
      {
        var id :| id in ids;
        ids := ids - {id};
        if now - chunkCache[id].LastAccess > ttl {
          kept := kept - {id};
        }
      }
      chunkCache := kept;
    }

    method PrunePoisoned(now: int)
      modifies this`poisoned
      ensures poisoned == map id | id in old(poisoned)
          && now - old(poisoned)[id] <= cfg.Ttl() :: old(poisoned)[id]
    {
      var ids := poisoned.Keys;
      while ids != {}
        invariant ids <= old(poisoned).Keys
        invariant poisoned == map id | id in old(poisoned)
            && (id in ids || now - old(poisoned)[id] <= cfg.Ttl()) :: old(poisoned)[id]
      {
        var id :| id in ids;
        ids := ids - {id};
        if now - poisoned[id] > cfg.Ttl() {
          poisoned := poisoned - {id};
        }
      }
    }

    /** pruneStaleChunkBuffersLocked: two map sweeps on one clock. */
    method PruneStale(now: int)
      requires Valid()
      modifies this`chunkCache, this`poisoned, this`S
      ensures Valid() && S == Prune(old(S), cfg, now)
    {
      PruneTransfers(now);
      PrunePoisoned(now);
      S := Prune(S, cfg, now);
    }

    method IsPoisoned(id: nat, now: int) returns (bad: bool)
      requires Valid()
      modifies this`poisoned, this`S
      ensures Valid() && (bad, S) == CheckPoisoned(old(S), cfg, id, now)
    {
      S := CheckPoisoned(S, cfg, id, now).1;
      if id !in poisoned {
        return false;
      }
      if now - poisoned[id] > cfg.Ttl() {
        poisoned := poisoned - {id};
        return false;
      }
      return true;
    }

    method GetChunkBuffer(id: nat, total: nat, now: int) returns (adm: Admission)
      requires Valid()
      modifies Repr
      ensures Valid() && fresh(Repr - old(Repr))
      ensures (adm, S) == Admit(old(S), cfg, id, total, now)
    {
      if total == 0 {
        return Denied(TotalNonPositive);
      }
      if total > cfg.MaxBytes() {
        return Denied(TotalTooLarge);
      }
      adm := Acquire(id, total, now);
    }

    /** GetChunkBuffer past the checks on the declared total. */
    method Acquire(id: nat, total: nat, now: int) returns (adm: Admission)
      requires Valid() && 0 < total <= cfg.MaxBytes()
      modifies Repr
      ensures Valid() && fresh(Repr - old(Repr))
      ensures (adm, S) == Admit(old(S), cfg, id, total, now)
    {
      if id !in chunkCache {
        adm := OpenTransfer(id, total, now);
        return;
      }
      if chunkCache[id].TotalSize == total {
        Touch(id, now);
      } else {
        InsertFresh(id, total, now);
      }
      return Admitted;
    }

    /** A key that is not resident is held against the transfer bound. */
    method OpenTransfer(id: nat, total: nat, now: int) returns (adm: Admission)
      requires Valid() && 0 < total <= cfg.MaxBytes() && id !in chunkCache
      modifies this
      ensures Valid() && fresh(Repr - old(Repr))
      ensures (adm, S) == Admit(old(S), cfg, id, total, now)
    {
      var room := MakeRoom(now);
      if !room {
        return Denied(TooManyTransfers);
      }
      InsertFresh(id, total, now);
      return Admitted;
    }

    /** At the transfer bound, prune; report whether a new transfer fits. */
    method MakeRoom(now: int) returns (room: bool)
      requires Valid()
      modifies this`chunkCache, this`poisoned, this`S
      ensures Valid()
      ensures S == if |old(S).cache| >= cfg.MaxTransfers() then Prune(old(S), cfg, now) else old(S)
      ensures room == (|S.cache| < cfg.MaxTransfers())
    {
      SameSize(chunkCache, S.cache);
      if |chunkCache| >= cfg.MaxTransfers() {
        PruneStale(now);
        SameSize(chunkCache, S.cache);
      }
      room := |chunkCache| < cfg.MaxTransfers();
    }

    method Touch(id: nat, now: int)
      requires Valid() && id in chunkCache
      modifies Repr
      ensures Valid() && Repr == old(Repr)
      ensures S == old(S).(cache := old(S).cache[id := old(S).cache[id].(lastAccess := now)])
    {
      chunkCache[id].LastAccess := now;
      S := S.(cache := S.cache[id := S.cache[id].(lastAccess := now)]);
    }

    method InsertFresh(id: nat, total: nat, now: int)
      requires Valid()
      modifies this
      ensures Valid() && fresh(Repr - old(Repr))
      ensures S == old(S).(cache := old(S).cache[id := Transfer(FreshBuffer(total), now)])
    {
      var buf := new ChunkBuffer(total, now);
      chunkCache := chunkCache[id := buf];
      S := S.(cache := S.cache[id := Transfer(FreshBuffer(total), now)]);
      Repr := Repr + {buf, buf.Data};
    }

    method RemoveChunkBuffer(id: nat)
      requires Valid()
      modifies this`chunkCache, this`S
      ensures Valid() && S == old(S).(cache := old(S).cache - {id})
    {
      chunkCache := chunkCache - {id};
      S := S.(cache := S.cache - {id});
    }

    /** The oldest entry, as the eviction loop finds it. */
    method OldestPoisoned() returns (oldest: nat)
      requires |poisoned| > 0
      ensures IsOldest(poisoned, oldest)
    {
      assert poisoned.Keys != {};
      oldest :| oldest in poisoned;
      var ids := poisoned.Keys - {oldest};
      while ids != {}
        invariant ids <= poisoned.Keys && oldest in poisoned
        invariant forall id :: id in poisoned && id !in ids ==> poisoned[oldest] <= poisoned[id]
      {
        var id :| id in ids;
        ids := ids - {id};
        if poisoned[id] < poisoned[oldest] {
          oldest := id;
        }
      }
    }

    method PoisonTransfer(id: nat, now: int) returns (ghost victim: nat)
      requires Valid()
      modifies this`chunkCache, this`poisoned, this`S
      ensures Valid() && VictimOk(old(S), cfg, id, now, victim)
      ensures S == Poison(old(S), cfg, id, now, victim)
    {
      victim := 0;
      RemoveChunkBuffer(id);
      if |poisoned| >= cfg.MaxPoisoned() {
        PruneStale(now);
      }
      assert S == BeforePoison(old(S), cfg, id, now);
      if |poisoned| >= cfg.MaxPoisoned() {
        victim := EvictOldest();
      }
      RecordPoison(id, now);
    }

    method EvictOldest() returns (ghost victim: nat)
      requires Valid() && |poisoned| > 0
      modifies this`poisoned, this`S
      ensures Valid() && IsOldest(old(S).poisoned, victim)
      ensures S == old(S).(poisoned := old(S).poisoned - {victim})
    {
      var oldest := OldestPoisoned();
      victim := oldest;
      poisoned := poisoned - {oldest};
      S := S.(poisoned := poisoned);
    }

    method RecordPoison(id: nat, now: int)
      requires Valid()
      modifies this`poisoned, this`S
      ensures Valid() && S == old(S).(poisoned := old(S).poisoned[id := now])
    {
      poisoned := poisoned[id := now];
      S := S.(poisoned := poisoned);
    }

    /** The mutex section applied to a resident transfer: no other one moves. */
    method ReceiveInto(f: Frame) returns (got: Received)
      requires Valid() && f.id in chunkCache && GoodBuffer(S.cache[f.id].buffer)
      modifies Repr
      ensures Valid() && Repr == old(Repr) && chunkCache == old(chunkCache)
      ensures var r := Receive(old(S).cache[f.id].buffer, f);
        && got == r.0 && (got.Rejected? ==> S == old(S))
        && S == old(S).(cache := old(S).cache[f.id := old(S).cache[f.id].(buffer := r.1)])
    {
      var buf := chunkCache[f.id];
      ghost var r := Receive(S.cache[f.id].buffer, f);
      got := buf.ReceiveChunk(f);
      S := S.(cache := S.cache[f.id := S.cache[f.id].(buffer := r.1)]);
      assert got.Rejected? ==> S.cache == old(S).cache;
    }

    /** HandleChunk up to the lock hand-off. */
    method AdmitChunk(f: Frame, t: Clock) returns (adm: Admission)
      requires Valid()
      modifies Repr
      ensures Valid() && fresh(Repr - old(Repr))
      ensures (adm, S) == Admitting(old(S), cfg, f, t)
    {
      var bad := IsPoisoned(f.id, t.check);
      if bad {
        return Denied(Poisoned);
      }
      adm := GetChunkBuffer(f.id, f.total, t.admit);
    }

    method HandleChunkRequest(f: Frame, t: Clock) returns (out: Outcome, ghost victim: nat)
      requires Valid() && Inv(S, cfg)
      modifies Repr
      ensures Valid() && fresh(Repr - old(Repr)) && Inv(S, cfg)
      ensures Legal(old(S), cfg, f, t, victim)
      ensures (out, S) == HandleChunk(old(S), cfg, f, t, victim)
    {
      AdmittingKeeps(S, cfg, f, t);
      var adm := AdmitChunk(f, t);
      if adm.Denied? {
        ghost var oldest := AnyVictim(S, cfg, f.id, t.reject);
        return Refused(adm.reason), oldest;
      }
      out, victim := Reassemble(f, t);
      HandleChunkKeeps(old(S), cfg, f, t, victim);
    }

    method TakePayload(id: nat) returns (payload: seq<byte>)
      requires Valid() && id in chunkCache
      modifies this`chunkCache, this`S
      ensures Valid() && payload == old(S).cache[id].buffer.data
      ensures S == old(S).(cache := old(S).cache - {id})
    {
      payload := chunkCache[id].Data[..];
      RemoveChunkBuffer(id);
    }

    /** HandleChunk after admission. */
    method Reassemble(f: Frame, t: Clock) returns (out: Outcome, ghost victim: nat)
      requires Valid() && f.id in S.cache && GoodBuffer(S.cache[f.id].buffer)
      modifies Repr
      ensures Valid() && Repr == old(Repr)
      ensures VictimOk(old(S), cfg, f.id, t.reject, victim)
      ensures (out, S) == Conclude(old(S), cfg, f, t, victim)
    {
      victim := AnyVictim(S, cfg, f.id, t.reject);
      var got := ReceiveInto(f);
      if got.Rejected? {
        victim := PoisonTransfer(f.id, t.reject);
        return Refused(got.reason), victim;
      }
      if got.complete {
        var payload := TakePayload(f.id);
        RemoveAfterUpdate(old(S).cache, f.id, old(S).cache[f.id].(buffer := Receive(old(S).cache[f.id].buffer, f).1));
        return Dispatched(payload, f.msgType), victim;
      }
      return Acked, victim;
    }
  }

  /** Some entry is always a legal choice of victim. */
  lemma {:induction false} AnyVictim(s: State, cfg: Config, id: nat, now: int) returns (victim: nat)
    ensures VictimOk(s, cfg, id, now, victim)
  {
    victim := 0;
    var p := BeforePoison(s, cfg, id, now).poisoned;
    if Evicts(s, cfg, id, now) {
      assert |p| == |p.Keys|;
      victim := SomeOldest(p, p.Keys);
    }
  }

  lemma RemoveAfterUpdate<V>(m: map<nat, V>, k: nat, v: V)
    ensures m[k := v] - {k} == m - {k}
  {
  }

  lemma SameSize<U, V>(m: map<nat, U>, n: map<nat, V>)
    requires m.Keys == n.Keys
    ensures |m| == |n|
  {
    assert |m| == |m.Keys| && |n| == |n.Keys|;
  }
}
