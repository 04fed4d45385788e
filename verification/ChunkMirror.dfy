/** The guest-to-host reassembler: a second implementation of the same rules,
    over ordered maps, and the proof that the two agree. */
module ChunkMirror {
  import opened Segments
  import opened ChunkProtocol
  import opened ChunkInvariants

  datatype PartialMessage = PartialMessage(
    buffer: seq<byte>, receivedSize: nat, totalSize: nat, finalMsgType: nat,
    receivedSegments: map<nat, nat>, lastUpdate: int)

  datatype Registry = Registry(partials: map<nat, PartialMessage>, poisoned: map<nat, int>)

  datatype SegmentClaim = Claimed(claim: Claim) | Fault(reason: Reason)

  // ----- specification

  ghost predicate MapCovers(m: map<nat, nat>, k: int) {
    exists o :: o in m && Segment(o, m[o]).Has(k)
  }

  ghost function MapVerdict(m: map<nat, nat>, seg: Segment): Claim {
    if seg.Offset in m && m[seg.Offset] == seg.Length then Duplicate
    else if forall k :: seg.Has(k) ==> !MapCovers(m, k) then New
    else Overlap
  }

  /** The recorded ranges are nonempty and pairwise disjoint. */
  ghost predicate MapDisjoint(m: map<nat, nat>) {
    && (forall o :: o in m ==> m[o] > 0)
    && forall o, p :: o in m && p in m && o < p ==> o + m[o] <= p
  }

  /** Every entry's ranges are disjoint and its buffer has the declared size. */
  ghost predicate WellSized(partials: map<nat, PartialMessage>) {
    forall id :: id in partials ==>
      MapDisjoint(partials[id].receivedSegments) && partials[id].totalSize == |partials[id].buffer|
  }

  ghost function ReceivePartial(pm: PartialMessage, f: Frame): (Received, PartialMessage)
    requires pm.totalSize == |pm.buffer|
  {
    if f.offset > pm.totalSize || |f.data| > pm.totalSize - f.offset
    then (Rejected(OutOfBounds), pm)
    else if |f.data| == 0 then (Rejected(ZeroLength), pm)
    else
      var claim := MapVerdict(pm.receivedSegments, f.Range());
      if claim == Overlap then (Rejected(Overlapping), pm)
      else
        var pm1 := if claim == New then
                     pm.(buffer := Splice(pm.buffer, f.offset, f.data),
                         receivedSize := pm.receivedSize + |f.data|,
                         receivedSegments := pm.receivedSegments[f.offset := |f.data|])
                   else pm;
        (Stored(pm1.receivedSize == pm1.totalSize), pm1)
  }

  function PruneRegistry(r: Registry, cfg: Config, now: int): Registry {
    Registry(map id | id in r.partials && now - r.partials[id].lastUpdate <= cfg.Ttl() :: r.partials[id],
             map id | id in r.poisoned && now - r.poisoned[id] <= cfg.Ttl() :: r.poisoned[id])
  }

  function FreshPartial(total: nat, msgType: nat, now: int): PartialMessage {
    PartialMessage(seq(total, _ => 0 as byte), 0, total, msgType, map[], now)
  }

  /** Admit past the poison check: the existing entry, then the bounds of a new one. */
  function OpenPartial(r: Registry, cfg: Config, f: Frame, now: int): (a: (Admission, Registry))
    ensures a.0.Admitted? ==> f.id in a.1.partials
    ensures WellSized(r.partials) ==> WellSized(a.1.partials)
  {
    if f.id in r.partials then
      (Admitted, r.(partials := r.partials[f.id := r.partials[f.id].(lastUpdate := now)]))
    else if f.total == 0 then (Denied(TotalNonPositive), r)
    else if f.total > cfg.MaxBytes() then (Denied(TotalTooLarge), r)
    else
      var r1 := if |r.partials| >= cfg.MaxTransfers() then PruneRegistry(r, cfg, now) else r;
      if |r1.partials| >= cfg.MaxTransfers() then (Denied(TooManyTransfers), r1)
      else (Admitted, r1.(partials := r1.partials[f.id := FreshPartial(f.total, f.msgType, now)]))
  }

  function AdmitPartial(r: Registry, cfg: Config, f: Frame, now: int): (a: (Admission, Registry))
    ensures a.0.Admitted? ==> f.id in a.1.partials
    ensures WellSized(r.partials) ==> WellSized(a.1.partials)
  {
    if f.id in r.poisoned && now - r.poisoned[f.id] <= cfg.Ttl() then (Denied(Poisoned), r)
    else OpenPartial(r.(poisoned := r.poisoned - {f.id}), cfg, f, now)
  }

  function BeforePoisonPartial(r: Registry, cfg: Config, id: nat, now: int): Registry {
    var r0 := r.(partials := r.partials - {id});
    if |r0.poisoned| >= cfg.MaxPoisoned() then PruneRegistry(r0, cfg, now) else r0
  }

  function PoisonPartial(r: Registry, cfg: Config, id: nat, now: int, victim: nat): Registry {
    var r1 := BeforePoisonPartial(r, cfg, id, now);
    var p := if |r1.poisoned| >= cfg.MaxPoisoned() then r1.poisoned - {victim} else r1.poisoned;
    r1.(poisoned := p[id := now])
  }

  ghost function ConcludePartial(r: Registry, cfg: Config, f: Frame, now: int, victim: nat): (Outcome, Registry)
    requires f.id in r.partials && WellSized(r.partials)
  {
    var (got, pm) := ReceivePartial(r.partials[f.id], f);
    match got
    case Rejected(reason) => (Refused(reason), PoisonPartial(r, cfg, f.id, now, victim))
    case Stored(complete) =>
      if complete then (Dispatched(pm.buffer, pm.finalMsgType), r.(partials := r.partials - {f.id}))
      else (Acked, r.(partials := r.partials[f.id := pm]))
  }

  predicate EvictsPartial(r: Registry, cfg: Config, id: nat, now: int) {
    |BeforePoisonPartial(r, cfg, id, now).poisoned| >= cfg.MaxPoisoned()
  }

  /** Which entry the host's eviction loop may pick. */
  predicate VictimOkPartial(r: Registry, cfg: Config, id: nat, now: int, victim: nat) {
    EvictsPartial(r, cfg, id, now) ==> IsOldest(BeforePoisonPartial(r, cfg, id, now).poisoned, victim)
  }

  ghost predicate LegalPartial(r: Registry, cfg: Config, f: Frame, now: int, victim: nat) {
    VictimOkPartial(AdmitPartial(r, cfg, f, now).1, cfg, f.id, now, victim)
  }

  /** The host's HandleChunk: one lock, one clock reading. */
  ghost function HandlePartial(r: Registry, cfg: Config, f: Frame, now: int, victim: nat): (Outcome, Registry)
    requires WellSized(r.partials)
  {
    var (adm, r1) := AdmitPartial(r, cfg, f, now);
    if adm.Denied? then (Refused(adm.reason), r1) else ConcludePartial(r1, cfg, f, now, victim)
  }

  // ----- the code

  /** std::map::lower_bound. */
  method LowerBound(m: map<nat, nat>, offset: nat) returns (end: bool, key: nat)
    ensures end ==> forall o :: o in m ==> o < offset
    ensures !end ==> key in m && offset <= key && forall o :: o in m && offset <= o ==> key <= o
  {
    end, key := true, 0;
    var keys := m.Keys;
    while keys != {}
      invariant keys <= m.Keys
      invariant end ==> forall o :: o in m && o !in keys ==> o < offset
      invariant !end ==> key in m && offset <= key && forall o :: o in m && o !in keys && offset <= o ==> key <= o
    {
      var o :| o in keys;
      keys := keys - {o};
      if offset <= o && (end || o < key) {
        end, key := false, o;
      }
    }
  }

  /** std::prev of a lower bound, when there is one. */
  method Predecessor(m: map<nat, nat>, offset: nat) returns (begin: bool, key: nat)
    ensures begin ==> forall o :: o in m ==> offset <= o
    ensures !begin ==> key in m && key < offset && forall o :: o in m && o < offset ==> o <= key
  {
    begin, key := true, 0;
    var keys := m.Keys;
    while keys != {}
      invariant keys <= m.Keys
      invariant begin ==> forall o :: o in m && o !in keys ==> offset <= o
      invariant !begin ==> key in m && key < offset && forall o :: o in m && o !in keys && o < offset ==> o <= key
    {
      var o :| o in keys;
      keys := keys - {o};
      if o < offset && (begin || key < o) {
        begin, key := false, o;
      }
    }
  }

  method ClaimChunkSegment(segments: map<nat, nat>, totalSize: nat, offset: nat, length: nat)
      returns (claim: SegmentClaim, segments': map<nat, nat>)
    requires MapDisjoint(segments)
    ensures claim == if offset > totalSize || length > totalSize - offset then Fault(OutOfBounds)
                     else if length == 0 then Fault(ZeroLength)
                     else Claimed(MapVerdict(segments, Segment(offset, length)))
    ensures segments' == if claim == Claimed(New) then segments[offset := length] else segments
    ensures claim == Claimed(New) ==> MapDisjoint(segments')
  {
    segments' := segments;
    if offset > totalSize || length > totalSize - offset {
      return Fault(OutOfBounds), segments;
    }
    if length == 0 {
      return Fault(ZeroLength), segments;
    }
    ghost var seg := Segment(offset, length);
    var end, next := LowerBound(segments, offset);
    var begin, prev := Predecessor(segments, offset);
    if !end && next == offset {
      MeetsAt(segments, seg, offset, offset);
      return Claimed(if segments[next] == length then Duplicate else Overlap), segments;
    }
    assert offset !in segments;
    if !begin && prev + segments[prev] > offset {
      MeetsAt(segments, seg, prev, offset);
      return Claimed(Overlap), segments;
    }
    if !end && offset + length > next {
      MeetsAt(segments, seg, next, next);
      return Claimed(Overlap), segments;
    }
    forall o | o in segments ensures o + segments[o] <= offset || offset + length <= o {
      if o < offset { assert o + segments[o] <= prev + segments[prev]; }
    }
    return Claimed(New), segments[offset := length];
  }

  lemma MeetsAt(m: map<nat, nat>, seg: Segment, o: nat, k: nat)
    requires o in m && Segment(o, m[o]).Has(k) && seg.Has(k)
    ensures MapVerdict(m, seg) == if seg.Offset in m && m[seg.Offset] == seg.Length then Duplicate else Overlap
  {
    assert MapCovers(m, k);
  }

  class ChunkRegistry {
    const cfg: Config
    var partials: map<nat, PartialMessage>
    var poisoned: map<nat, int>

    ghost function Abs(): Registry
      reads this
    {
      Registry(partials, poisoned)
    }

    ghost predicate Valid()
      reads this
    {
      WellSized(partials)
    }

    constructor (cfg: Config)
      ensures this.cfg == cfg && Valid() && Abs() == Registry(map[], map[])
    {
      this.cfg := cfg;
      partials, poisoned := map[], map[];
    }

    method Prune(now: int)
      requires Valid()
      modifies this
      ensures Valid() && Abs() == PruneRegistry(old(Abs()), cfg, now)
    {
      var ids := partials.Keys;
      while ids != {}
        invariant ids <= old(partials).Keys && poisoned == old(poisoned)
        invariant partials == map id | id in old(partials)
            && (id in ids || now - old(partials)[id].lastUpdate <= cfg.Ttl()) :: old(partials)[id]
      {
        var id :| id in ids;
        ids := ids - {id};
        if now - partials[id].lastUpdate > cfg.Ttl() {
          partials := partials - {id};
        }
      }
      ids := poisoned.Keys;
      while ids != {}
        invariant ids <= old(poisoned).Keys && partials == PruneRegistry(old(Abs()), cfg, now).partials
        invariant poisoned == map id | id in old(poisoned)
            && (id in ids || now - old(poisoned)[id] <= cfg.Ttl()) :: old(poisoned)[id]
      {
        var id :| id in ids;
        ids := ids - {id};
        if now - poisoned[id] > cfg.Ttl() {
          poisoned := poisoned - {id};
        }
      }
    }

    method Admit(f: Frame, now: int) returns (adm: Admission)
      requires Valid()
      modifies this
      ensures Valid() && (adm, Abs()) == AdmitPartial(old(Abs()), cfg, f, now)
    {
      if f.id in poisoned && now - poisoned[f.id] <= cfg.Ttl() {
        return Denied(Poisoned);
      }
      poisoned := poisoned - {f.id};
      adm := AdmitUnpoisoned(f, now);
    }

    method AdmitUnpoisoned(f: Frame, now: int) returns (adm: Admission)
      requires Valid()
      modifies this
      ensures Valid() && (adm, Abs()) == OpenPartial(old(Abs()), cfg, f, now)
    {
      if f.id in partials {
        partials := partials[f.id := partials[f.id].(lastUpdate := now)];
        return Admitted;
      }
      if f.total == 0 {
        return Denied(TotalNonPositive);
      }
      if f.total > cfg.MaxBytes() {
        return Denied(TotalTooLarge);
      }
      if |partials| >= cfg.MaxTransfers() {
        Prune(now);
        if |partials| >= cfg.MaxTransfers() {
          return Denied(TooManyTransfers);
        }
      }
      partials := partials[f.id := FreshPartial(f.total, f.msgType, now)];
      return Admitted;
    }

    method Complete(id: nat)
      requires Valid()
      modifies this`partials
      ensures Valid() && Abs() == old(Abs()).(partials := old(partials) - {id})
    {
      partials := partials - {id};
    }

    method Poison(id: nat, now: int) returns (ghost victim: nat)
      requires Valid()
      modifies this
      ensures Valid() && Abs() == PoisonPartial(old(Abs()), cfg, id, now, victim)
      ensures VictimOkPartial(old(Abs()), cfg, id, now, victim)
    {
      victim := 0;
      partials := partials - {id};
      if |poisoned| >= cfg.MaxPoisoned() {
        Prune(now);
      }
      assert Abs() == BeforePoisonPartial(old(Abs()), cfg, id, now);
      if |poisoned| >= cfg.MaxPoisoned() {
        assert |poisoned.Keys| == |poisoned|;
        assert poisoned.Keys != {};
        var oldest :| oldest in poisoned;
        var ids := poisoned.Keys - {oldest};
        while ids != {}
          invariant ids <= poisoned.Keys && oldest in poisoned
          invariant forall i :: i in poisoned && i !in ids ==> poisoned[oldest] <= poisoned[i]
        {
          var i :| i in ids;
          ids := ids - {i};
          if poisoned[i] < poisoned[oldest] {
            oldest := i;
          }
        }
        victim := oldest;
        poisoned := poisoned - {oldest};
      }
      poisoned := poisoned[id := now];
    }

    method HandleChunk(f: Frame, now: int) returns (out: Outcome, ghost victim: nat)
      requires Valid()
      modifies this
      ensures Valid() && (out, Abs()) == HandlePartial(old(Abs()), cfg, f, now, victim)
      ensures LegalPartial(old(Abs()), cfg, f, now, victim)
    {
      var adm := Admit(f, now);
      if adm.Denied? {
        ghost var oldest := AnyVictimPartial(Abs(), cfg, f.id, now);
        return Refused(adm.reason), oldest;
      }
      out, victim := Reassemble(f, now);
    }

    /** HandleChunk after admission. */
    method Reassemble(f: Frame, now: int) returns (out: Outcome, ghost victim: nat)
      requires Valid() && f.id in partials
      modifies this
      ensures Valid() && (out, Abs()) == ConcludePartial(old(Abs()), cfg, f, now, victim)
      ensures VictimOkPartial(old(Abs()), cfg, f.id, now, victim)
    {
      var pm := partials[f.id];
      var claim, segments := ClaimChunkSegment(pm.receivedSegments, pm.totalSize, f.offset, |f.data|);
      if claim.Fault? || claim.claim == Overlap {
        victim := Poison(f.id, now);
        return Refused(if claim.Fault? then claim.reason else Overlapping), victim;
      }
      victim := AnyVictimPartial(Abs(), cfg, f.id, now);
      if claim.claim == New {
        pm := pm.(receivedSegments := segments,
                  buffer := Splice(pm.buffer, f.offset, f.data),
                  receivedSize := pm.receivedSize + |f.data|);
      }
      out := Keep(f.id, pm);
    }

    /** The entry is stored; a complete one is dispatched and dropped. */
    method Keep(id: nat, pm: PartialMessage) returns (out: Outcome)
      requires Valid() && MapDisjoint(pm.receivedSegments) && pm.totalSize == |pm.buffer|
      modifies this`partials
      ensures Valid()
      ensures if pm.receivedSize == pm.totalSize
        then out == Dispatched(pm.buffer, pm.finalMsgType) && partials == old(partials) - {id}
        else out == Acked && partials == old(partials)[id := pm]
    {
      partials := partials[id := pm];
      if pm.receivedSize == pm.totalSize {
        Complete(id);
        assert partials == old(partials) - {id};
        return Dispatched(pm.buffer, pm.finalMsgType);
      }
      return Acked;
    }
  }

  lemma AnyVictimPartial(r: Registry, cfg: Config, id: nat, now: int) returns (victim: nat)
    ensures VictimOkPartial(r, cfg, id, now, victim)
  {
    victim := 0;
    var p := BeforePoisonPartial(r, cfg, id, now).poisoned;
    if EvictsPartial(r, cfg, id, now) {
      assert |p| == |p.Keys|;
      victim := SomeOldest(p, p.Keys);
    }
  }

  // ----- agreement with the guest's reassembler

  ghost predicate SameRanges(segs: seq<Segment>, m: map<nat, nat>) {
    forall seg: Segment :: seg in segs <==> seg.Offset in m && m[seg.Offset] == seg.Length
  }

  ghost predicate Twin(tr: Transfer, pm: PartialMessage) {
    && tr.buffer.data == pm.buffer && tr.buffer.total == pm.totalSize
    && tr.buffer.received == pm.receivedSize && tr.lastAccess == pm.lastUpdate
    && SameRanges(tr.buffer.segments, pm.receivedSegments)
  }

  /** The two hold the same transfers, byte for byte, and the same poison. */
  ghost predicate Linked(s: State, r: Registry) {
    && s.cache.Keys == r.partials.Keys && s.poisoned == r.poisoned
    && WellSized(r.partials)
    && forall id :: id in s.cache ==> Twin(s.cache[id], r.partials[id])
  }

  lemma SameCover(segs: seq<Segment>, m: map<nat, nat>, k: int)
    requires SameRanges(segs, m)
    ensures Covers(segs, k) <==> MapCovers(m, k)
  {
    if Covers(segs, k) {
      var i :| 0 <= i < |segs| && segs[i].Has(k);
      assert segs[i] in segs;
    }
    if MapCovers(m, k) {
      var o :| o in m && Segment(o, m[o]).Has(k);
      assert Segment(o, m[o]) in segs;
    }
  }

  lemma SameVerdict(segs: seq<Segment>, m: map<nat, nat>, seg: Segment)
    requires SameRanges(segs, m)
    ensures Verdict(segs, seg) == MapVerdict(m, seg)
  {
    forall k ensures Covers(segs, k) <==> MapCovers(m, k) {
      SameCover(segs, m, k);
    }
  }

  lemma SameRecord(segs: seq<Segment>, m: map<nat, nat>, seg: Segment)
    requires SortedDisjoint(segs) && SameRanges(segs, m) && MapDisjoint(m)
    requires seg.Length > 0 && Free(segs, seg)
    ensures SameRanges(Record(segs, seg), m[seg.Offset := seg.Length])
    ensures MapDisjoint(m[seg.Offset := seg.Length])
  {
    RecordHas(segs, seg);
    forall o | o in m ensures o + m[o] <= seg.Offset || seg.End() <= o {
      var t := Segment(o, m[o]);
      assert t in segs;
      var j :| 0 <= j < |segs| && segs[j] == t;
      FreeIsApart(segs, seg, j);
    }
  }

  lemma TwinReceive(tr: Transfer, pm: PartialMessage, f: Frame)
    requires Unfinished(tr.buffer) && Twin(tr, pm)
    requires MapDisjoint(pm.receivedSegments) && pm.totalSize == |pm.buffer|
    ensures Receive(tr.buffer, f).0 == ReceivePartial(pm, f).0
    ensures var (got, b) := Receive(tr.buffer, f); var pm' := ReceivePartial(pm, f).1;
      && b.data == pm'.buffer && pm'.finalMsgType == pm.finalMsgType
      && (got != Stored(true) ==> Twin(tr.(buffer := b), pm'))
      && MapDisjoint(pm'.receivedSegments) && pm'.totalSize == |pm'.buffer|
  {
    if f.offset + |f.data| <= |tr.buffer.data| && |f.data| > 0 {
      SameVerdict(tr.buffer.segments, pm.receivedSegments, f.Range());
      if Verdict(tr.buffer.segments, f.Range()) == New {
        SameRecord(tr.buffer.segments, pm.receivedSegments, f.Range());
      }
    }
  }

  lemma LinkedSizes(s: State, r: Registry)
    requires Linked(s, r)
    ensures |s.cache| == |r.partials|
  {
    assert |s.cache| == |s.cache.Keys| && |r.partials| == |r.partials.Keys|;
  }

  lemma LinkedPrune(s: State, r: Registry, cfg: Config, now: int)
    requires Linked(s, r)
    ensures Linked(Prune(s, cfg, now), PruneRegistry(r, cfg, now))
  {
  }

  /** f declares the total its transfer was opened with. */
  ghost predicate SameTotal(s: State, f: Frame) {
    f.id in s.cache ==> s.cache[f.id].buffer.total == f.total
  }

  lemma LinkedOpen(s: State, r: Registry, f: Frame, now: int)
    requires Linked(s, r)
    ensures Linked(s.(cache := s.cache[f.id := Transfer(FreshBuffer(f.total), now)]),
                   r.(partials := r.partials[f.id := FreshPartial(f.total, f.msgType, now)]))
  {
  }

  lemma LinkedNew(s: State, r: Registry, cfg: Config, f: Frame, now: int)
    requires Linked(s, r) && f.id !in s.cache
    ensures var (a, s1) := Admit(s, cfg, f.id, f.total, now); var (b, r1) := OpenPartial(r, cfg, f, now);
      && a == b && Linked(s1, r1)
      && (a.Admitted? ==> s1.cache[f.id].buffer == FreshBuffer(f.total) && r1.partials[f.id].finalMsgType == f.msgType)
  {
    if 0 < f.total <= cfg.MaxBytes() {
      LinkedSizes(s, r);
      if |s.cache| >= cfg.MaxTransfers() {
        var p, q := Prune(s, cfg, now), PruneRegistry(r, cfg, now);
        LinkedPrune(s, r, cfg, now);
        LinkedSizes(p, q);
        LinkedOpen(p, q, f, now);
      } else {
        LinkedOpen(s, r, f, now);
      }
    }
  }

  lemma LinkedResident(s: State, r: Registry, cfg: Config, f: Frame, now: int)
    requires Linked(s, r) && Inv(s, cfg) && SameTotal(s, f) && f.id in s.cache
    ensures var (a, s1) := Admit(s, cfg, f.id, f.total, now); var (b, r1) := OpenPartial(r, cfg, f, now);
      && a == b == Admitted && Linked(s1, r1)
      && s1.cache[f.id].buffer == s.cache[f.id].buffer && r1.partials[f.id].finalMsgType == r.partials[f.id].finalMsgType
  {
    var tr, pm := s.cache[f.id].(lastAccess := now), r.partials[f.id].(lastUpdate := now);
    assert Admit(s, cfg, f.id, f.total, now) == (Admitted, s.(cache := s.cache[f.id := tr]));
    assert OpenPartial(r, cfg, f, now) == (Admitted, r.(partials := r.partials[f.id := pm]));
    LinkedStore(s, r, f.id, tr, pm);
  }

  lemma LinkedCheck(s: State, r: Registry, cfg: Config, id: nat, now: int)
    requires Linked(s, r)
    ensures var (bad, s0) := CheckPoisoned(s, cfg, id, now);
      && (bad <==> id in r.poisoned && now - r.poisoned[id] <= cfg.Ttl())
      && (!bad ==> Linked(s0, r.(poisoned := r.poisoned - {id})))
      && s0.cache == s.cache
  {
    if id !in s.poisoned {
      assert r.poisoned - {id} == r.poisoned;
    }
  }

  lemma LinkedAdmit(s: State, r: Registry, cfg: Config, f: Frame, now: int)
    requires Linked(s, r) && Inv(s, cfg) && SameTotal(s, f)
    ensures var (a, s1) := Admitting(s, cfg, f, Clock(now, now, now));
      var (b, r1) := AdmitPartial(r, cfg, f, now);
      && a == b && Linked(s1, r1)
      && (a.Admitted? ==>
            if f.id in s.cache
            then s1.cache[f.id].buffer == s.cache[f.id].buffer && r1.partials[f.id].finalMsgType == r.partials[f.id].finalMsgType
            else r1.partials[f.id].finalMsgType == f.msgType)
  {
    CheckKeeps(s, cfg, f.id, now);
    LinkedCheck(s, r, cfg, f.id, now);
    var (bad, s0) := CheckPoisoned(s, cfg, f.id, now);
    if !bad {
      var r0 := r.(poisoned := r.poisoned - {f.id});
      if f.id in s.cache {
        LinkedResident(s0, r0, cfg, f, now);
      } else {
        LinkedNew(s0, r0, cfg, f, now);
      }
    }
  }

  // ----- both sides evict the same entry

  ghost predicate DistinctTimes(p: map<nat, int>) {
    forall i, j :: i in p && j in p && i != j ==> p[i] != p[j]
  }

  /** p is q with entries taken out. */
  ghost predicate Thins(p: map<nat, int>, q: map<nat, int>) {
    forall i :: i in p ==> i in q && p[i] == q[i]
  }

  lemma AdmittingThins(s: State, cfg: Config, f: Frame, t: Clock)
    ensures Thins(Admitting(s, cfg, f, t).1.poisoned, s.poisoned)
  {
  }

  /** With distinct poison times only one entry is the oldest, so both sides
      evict the same one. */
  lemma OneOldest(p: map<nat, int>, v: nat, w: nat)
    requires IsOldest(p, v) && IsOldest(p, w) && DistinctTimes(p)
    ensures v == w
  {
    assert p[v] <= p[w] && p[w] <= p[v];
  }

  /** Linked, whatever the two hold of id. */
  ghost predicate LinkedBut(s: State, r: Registry, id: nat) {
    && s.cache.Keys - {id} == r.partials.Keys - {id} && s.poisoned == r.poisoned
    && WellSized(r.partials)
    && forall i :: i in s.cache && i != id ==> i in r.partials && Twin(s.cache[i], r.partials[i])
  }

  lemma LinkedBeforePoison(s: State, r: Registry, cfg: Config, id: nat, now: int)
    requires LinkedBut(s, r, id)
    ensures Linked(BeforePoison(s, cfg, id, now), BeforePoisonPartial(r, cfg, id, now))
    ensures Thins(BeforePoison(s, cfg, id, now).poisoned, s.poisoned)
  {
    var s0, r0 := s.(cache := s.cache - {id}), r.(partials := r.partials - {id});
    assert s0.cache.Keys == s.cache.Keys - {id} && r0.partials.Keys == r.partials.Keys - {id};
    assert Linked(s0, r0);
    LinkedPrune(s0, r0, cfg, now);
  }

  /** Each side rejects id and evicts a victim of its own choosing. What they
      held of id is dropped. */
  lemma LinkedPoison(s: State, r: Registry, cfg: Config, id: nat, now: int, v: nat, w: nat)
    requires LinkedBut(s, r, id)
    requires DistinctTimes(s.poisoned)
    requires VictimOk(s, cfg, id, now, v) && VictimOkPartial(r, cfg, id, now, w)
    ensures Linked(Poison(s, cfg, id, now, v), PoisonPartial(r, cfg, id, now, w))
  {
    LinkedBeforePoison(s, r, cfg, id, now);
    if Evicts(s, cfg, id, now) {
      OneOldest(BeforePoison(s, cfg, id, now).poisoned, v, w);
    }
  }

  lemma OthersEvicted(p: map<nat, int>, id: nat, now: int, v: nat, w: nat)
    requires v in p && w in p && v != w
    ensures (p - {v})[id := now] != (p - {w})[id := now]
  {
    var i := if v == id then w else v;
    assert i in (p - {v})[id := now] <==> i !in (p - {w})[id := now];
  }

  /** Two linked sides record id, each with an eviction of its own. */
  lemma RecordLinkedIff(s: State, r: Registry, id: nat, now: int, v: nat, w: nat)
    requires Linked(s, r) && v in s.poisoned && w in s.poisoned
    ensures Linked(s.(poisoned := (s.poisoned - {v})[id := now]), r.(poisoned := (r.poisoned - {w})[id := now])) <==> v == w
  {
    if v != w {
      OthersEvicted(s.poisoned, id, now, v, w);
    }
  }

  lemma RecordLinked(s: State, r: Registry, id: nat, now: int)
    requires Linked(s, r)
    ensures Linked(s.(poisoned := s.poisoned[id := now]), r.(poisoned := r.poisoned[id := now]))
  {
  }

  /** Without distinct times: a rejection leaves the two linked exactly when it
      evicts nothing or both sides chose the same one of the oldest entries. */
  lemma PoisonLinkedIff(s: State, r: Registry, cfg: Config, id: nat, now: int, v: nat, w: nat)
    requires LinkedBut(s, r, id)
    requires VictimOk(s, cfg, id, now, v) && VictimOkPartial(r, cfg, id, now, w)
    ensures Linked(Poison(s, cfg, id, now, v), PoisonPartial(r, cfg, id, now, w))
            <==> !Evicts(s, cfg, id, now) || v == w
  {
    LinkedBeforePoison(s, r, cfg, id, now);
    var a, b := BeforePoison(s, cfg, id, now), BeforePoisonPartial(r, cfg, id, now);
    if Evicts(s, cfg, id, now) {
      RecordLinkedIff(a, b, id, now, v, w);
    } else {
      RecordLinked(a, b, id, now);
    }
  }

  // ----- one frame, side by side

  /** f brings the last bytes b is missing. */
  ghost predicate Completes(b: Buffer, f: Frame) {
    && |f.data| > 0 && f.Range().End() <= b.total
    && Free(b.segments, f.Range()) && b.received + |f.data| == b.total
  }

  lemma CompletesIff(b: Buffer, f: Frame)
    requires Unfinished(b)
    ensures Receive(b, f).0 == Stored(true) <==> Completes(b, f)
  {
    var seg := f.Range();
    if |f.data| > 0 && seg in b.segments {
      var i :| 0 <= i < |b.segments| && b.segments[i] == seg;
      assert b.segments[i].Has(seg.Offset) && seg.Has(seg.Offset);
      assert Covers(b.segments, seg.Offset);
    }
  }

  /** The one thing the two may answer differently about a transfer that keeps its
      total: the guest dispatches under the type of the completing frame, the host
      under the type of the frame that opened the transfer. */
  ghost predicate TypeParts(s: State, r: Registry, f: Frame) {
    && f.id in s.cache && f.id in r.partials
    && Completes(s.cache[f.id].buffer, f) && r.partials[f.id].finalMsgType != f.msgType
  }

  /** Same admission verdict and, once admitted, same segment verdict. */
  ghost predicate SameVerdicts(s: State, r: Registry, cfg: Config, f: Frame, now: int)
    requires WellSized(r.partials)
  {
    var (a, s1) := Admitting(s, cfg, f, Clock(now, now, now));
    var (b, r1) := AdmitPartial(r, cfg, f, now);
    && a == b
    && (a.Admitted? ==> Receive(s1.cache[f.id].buffer, f).0 == ReceivePartial(r1.partials[f.id], f).0)
  }

  predicate SameUpToType(a: Outcome, b: Outcome) {
    a == b || (a.Dispatched? && b.Dispatched? && a.payload == b.payload)
  }

  lemma LinkedStore(s: State, r: Registry, id: nat, tr: Transfer, pm: PartialMessage)
    requires Linked(s, r) && Twin(tr, pm) && MapDisjoint(pm.receivedSegments) && pm.totalSize == |pm.buffer|
    ensures Linked(s.(cache := s.cache[id := tr]), r.(partials := r.partials[id := pm]))
    ensures Linked(s.(cache := s.cache - {id}), r.(partials := r.partials - {id}))
  {
  }

  lemma LinkedStored(s: State, r: Registry, cfg: Config, f: Frame, now: int, v: nat, w: nat)
    requires Linked(s, r) && Inv(s, cfg) && f.id in s.cache
    requires Receive(s.cache[f.id].buffer, f).0.Stored?
    ensures var (a, s1) := Conclude(s, cfg, f, Clock(now, now, now), v);
      var (b, r1) := ConcludePartial(r, cfg, f, now, w);
      && Linked(s1, r1) && SameUpToType(a, b)
      && (a != b <==> Receive(s.cache[f.id].buffer, f).0.complete && r.partials[f.id].finalMsgType != f.msgType)
  {
    var tr, pm := s.cache[f.id], r.partials[f.id];
    TwinReceive(tr, pm, f);
    var (got, b) := Receive(tr.buffer, f);
    var pm' := ReceivePartial(pm, f).1;
    if got.complete {
      LinkedStore(s, r, f.id, tr, pm);
    } else {
      LinkedStore(s, r, f.id, tr.(buffer := b), pm');
    }
  }

  lemma LinkedConclude(s: State, r: Registry, cfg: Config, f: Frame, now: int, v: nat, w: nat)
    requires Linked(s, r) && Inv(s, cfg) && f.id in s.cache && DistinctTimes(s.poisoned)
    requires VictimOk(s, cfg, f.id, now, v) && VictimOkPartial(r, cfg, f.id, now, w)
    ensures Receive(s.cache[f.id].buffer, f).0 == ReceivePartial(r.partials[f.id], f).0
    ensures var (a, s1) := Conclude(s, cfg, f, Clock(now, now, now), v);
      var (b, r1) := ConcludePartial(r, cfg, f, now, w);
      && Linked(s1, r1) && SameUpToType(a, b)
      && (a != b <==> Completes(s.cache[f.id].buffer, f) && r.partials[f.id].finalMsgType != f.msgType)
  {
    TwinReceive(s.cache[f.id], r.partials[f.id], f);
    CompletesIff(s.cache[f.id].buffer, f);
    if Receive(s.cache[f.id].buffer, f).0.Rejected? {
      LinkedPoison(s, r, cfg, f.id, now, v, w);
    } else {
      LinkedStored(s, r, cfg, f, now, v, w);
    }
  }

  /** Side by side, a frame that declares its transfer's own total gets the same
      verdicts and leaves the two linked. The answers are the same too, except
      that a completing frame of another type than the first is dispatched under
      one type here and the other there. */
  lemma SidesAgree(s: State, r: Registry, cfg: Config, f: Frame, now: int, v: nat, w: nat)
    requires Linked(s, r) && Inv(s, cfg) && SameTotal(s, f) && DistinctTimes(s.poisoned)
    requires Legal(s, cfg, f, Clock(now, now, now), v) && LegalPartial(r, cfg, f, now, w)
    ensures SameVerdicts(s, r, cfg, f, now)
    ensures var (a, s1) := HandleChunk(s, cfg, f, Clock(now, now, now), v);
      var (b, r1) := HandlePartial(r, cfg, f, now, w);
      && Linked(s1, r1) && SameUpToType(a, b)
      && (a == b <==> !TypeParts(s, r, f))
  {
    var t := Clock(now, now, now);
    LinkedAdmit(s, r, cfg, f, now);
    AdmittingKeeps(s, cfg, f, t);
    AdmittingThins(s, cfg, f, t);
    var (a, s1) := Admitting(s, cfg, f, t);
    if a.Admitted? {
      LinkedConclude(s1, AdmitPartial(r, cfg, f, now).1, cfg, f, now, v, w);
    } else {
      assert f.id !in s.cache;
    }
  }

  // ----- a resident id that comes back with another total

  /** f falls outside both totals, or lies inside both and is empty. */
  predicate RefusedUnderBoth(cfg: Config, total: nat, f: Frame) {
    && 0 < f.total <= cfg.MaxBytes()
    && ((f.Range().End() > f.total && f.Range().End() > total)
        || (|f.data| == 0 && f.offset <= f.total && f.offset <= total))
  }

  lemma FreshReceives(f: Frame)
    requires f.total > 0
    ensures Receive(FreshBuffer(f.total), f).0 ==
            if f.Range().End() > f.total then Rejected(OutOfBounds)
            else if |f.data| == 0 then Rejected(ZeroLength)
            else Stored(|f.data| == f.total)
    ensures |Receive(FreshBuffer(f.total), f).1.data| == f.total == Receive(FreshBuffer(f.total), f).1.total
  {
    var anew := FreshBuffer(f.total);
    assert forall k :: !Covers(anew.segments, k);
    assert Free(anew.segments, f.Range());
  }

  /** The guest starts the transfer over, if it takes the new total at all. */
  lemma GuestRestarts(s: State, cfg: Config, f: Frame, t: Clock)
    requires Inv(s, cfg) && f.id in s.cache && s.cache[f.id].buffer.total != f.total
    ensures Admitting(s, cfg, f, t) ==
            if f.total == 0 then (Denied(TotalNonPositive), s)
            else if f.total > cfg.MaxBytes() then (Denied(TotalTooLarge), s)
            else (Admitted, s.(cache := s.cache[f.id := Transfer(FreshBuffer(f.total), t.admit)]))
  {
  }

  lemma HostGoesOn(r: Registry, cfg: Config, f: Frame, now: int)
    requires f.id in r.partials && f.id !in r.poisoned
    ensures AdmitPartial(r, cfg, f, now)
            == (Admitted, r.(partials := r.partials[f.id := r.partials[f.id].(lastUpdate := now)]))
  {
    assert r.poisoned - {f.id} == r.poisoned;
  }

  /** The host measures every frame of a resident id against the first total: it
      drops the transfer exactly when the frame falls outside that total, is
      empty, or overlaps, and stores the frame otherwise. */
  lemma HostMeasuresFirstTotal(r: Registry, cfg: Config, f: Frame, now: int, victim: nat)
    requires WellSized(r.partials) && f.id in r.partials && f.id !in r.poisoned
    ensures var pm := r.partials[f.id]; var (out, r') := HandlePartial(r, cfg, f, now, victim);
      && (out.Refused? <==> f.Range().End() > pm.totalSize || |f.data| == 0
                            || MapVerdict(pm.receivedSegments, f.Range()) == Overlap)
      && (out.Refused? ==> r' == PoisonPartial(AdmitPartial(r, cfg, f, now).1, cfg, f.id, now, victim))
      && (out.Refused? ==> out.reason == if f.Range().End() > pm.totalSize then OutOfBounds
                                         else if |f.data| == 0 then ZeroLength else Overlapping)
      && (out == Acked ==> f.id in r'.partials && r'.partials[f.id].totalSize == pm.totalSize)
      && (out.Dispatched? ==> |out.payload| == pm.totalSize)
  {
    HostGoesOn(r, cfg, f, now);
  }

  /** For a resident id the host never looks at a frame's declared total. */
  lemma HostIgnoresNewTotal(r: Registry, cfg: Config, f: Frame, total: uint32, now: int, victim: nat)
    requires WellSized(r.partials) && f.id in r.partials
    ensures HandlePartial(r, cfg, f.(total := total), now, victim) == HandlePartial(r, cfg, f, now, victim)
  {
    var g := f.(total := total);
    assert g.Range() == f.Range();
    assert AdmitPartial(r, cfg, g, now) == AdmitPartial(r, cfg, f, now);
    var (adm, r1) := AdmitPartial(r, cfg, f, now);
    if adm.Admitted? {
      assert ReceivePartial(r1.partials[f.id], g) == ReceivePartial(r1.partials[f.id], f);
    }
  }

  lemma LinkedButOne(s: State, r: Registry, id: nat, tr: Transfer, pm: PartialMessage)
    requires Linked(s, r) && MapDisjoint(pm.receivedSegments) && pm.totalSize == |pm.buffer|
    ensures LinkedBut(s.(cache := s.cache[id := tr]), r.(partials := r.partials[id := pm]), id)
  {
  }

  /** Both sides reject a frame of a resident id with another total. */
  lemma NewTotalRejected(s: State, r: Registry, cfg: Config, f: Frame, now: int, v: nat, w: nat)
    requires Linked(s, r) && Inv(s, cfg) && DistinctTimes(s.poisoned)
    requires Legal(s, cfg, f, Clock(now, now, now), v) && LegalPartial(r, cfg, f, now, w)
    requires f.id in s.cache && s.cache[f.id].buffer.total != f.total && 0 < f.total <= cfg.MaxBytes()
    ensures var s1, r1 := Admitting(s, cfg, f, Clock(now, now, now)).1, AdmitPartial(r, cfg, f, now).1;
      Linked(Poison(s1, cfg, f.id, now, v), PoisonPartial(r1, cfg, f.id, now, w))
  {
    GuestRestarts(s, cfg, f, Clock(now, now, now));
    HostGoesOn(r, cfg, f, now);
    LinkedButOne(s, r, f.id, Transfer(FreshBuffer(f.total), now), r.partials[f.id].(lastUpdate := now));
    LinkedPoison(Admitting(s, cfg, f, Clock(now, now, now)).1, AdmitPartial(r, cfg, f, now).1, cfg, f.id, now, v, w);
  }

  /** The guest stores what it started over with: no answer of the host goes with it. */
  lemma NewTotalStored(s: State, r: Registry, cfg: Config, f: Frame, now: int, v: nat, w: nat)
    requires Linked(s, r) && Inv(s, cfg)
    requires f.id in s.cache && s.cache[f.id].buffer.total != f.total && 0 < f.total <= cfg.MaxBytes()
    requires Receive(FreshBuffer(f.total), f).0.Stored?
    ensures var (a, s1) := HandleChunk(s, cfg, f, Clock(now, now, now), v);
      var (b, r1) := HandlePartial(r, cfg, f, now, w);
      a != b || !Linked(s1, r1)
  {
    GuestRestarts(s, cfg, f, Clock(now, now, now));
    HostMeasuresFirstTotal(r, cfg, f, now, w);
    FreshReceives(f);
  }

  lemma GuestRefuses(s: State, cfg: Config, f: Frame, t: Clock, victim: nat)
    requires Inv(s, cfg) && f.id in s.cache && s.cache[f.id].buffer.total != f.total && 0 < f.total <= cfg.MaxBytes()
    requires Receive(FreshBuffer(f.total), f).0.Rejected?
    ensures HandleChunk(s, cfg, f, t, victim)
            == (Refused(Receive(FreshBuffer(f.total), f).0.reason),
                Poison(Admitting(s, cfg, f, t).1, cfg, f.id, t.reject, victim))
  {
    GuestRestarts(s, cfg, f, t);
  }

  lemma NewTotalRefused(s: State, r: Registry, cfg: Config, f: Frame, now: int, v: nat, w: nat)
    requires Linked(s, r) && Inv(s, cfg) && DistinctTimes(s.poisoned)
    requires Legal(s, cfg, f, Clock(now, now, now), v) && LegalPartial(r, cfg, f, now, w)
    requires f.id in s.cache && s.cache[f.id].buffer.total != f.total && 0 < f.total <= cfg.MaxBytes()
    requires Receive(FreshBuffer(f.total), f).0.Rejected?
    ensures var (a, s1) := HandleChunk(s, cfg, f, Clock(now, now, now), v);
      var (b, r1) := HandlePartial(r, cfg, f, now, w);
      a == b && Linked(s1, r1) <==> RefusedUnderBoth(cfg, s.cache[f.id].buffer.total, f)
  {
    GuestRefuses(s, cfg, f, Clock(now, now, now), v);
    HostMeasuresFirstTotal(r, cfg, f, now, w);
    FreshReceives(f);
    NewTotalRejected(s, r, cfg, f, now, v, w);
    assert r.partials[f.id].totalSize == s.cache[f.id].buffer.total;
  }

  /** A resident id that comes back with another total: the two answer alike and
      stay linked exactly when both totals refuse the frame for one reason. */
  lemma NewTotalUnlinks(s: State, r: Registry, cfg: Config, f: Frame, now: int, v: nat, w: nat)
    requires Linked(s, r) && Inv(s, cfg) && DistinctTimes(s.poisoned)
    requires Legal(s, cfg, f, Clock(now, now, now), v) && LegalPartial(r, cfg, f, now, w)
    requires f.id in s.cache && s.cache[f.id].buffer.total != f.total
    ensures var (a, s1) := HandleChunk(s, cfg, f, Clock(now, now, now), v);
      var (b, r1) := HandlePartial(r, cfg, f, now, w);
      a == b && Linked(s1, r1) <==> RefusedUnderBoth(cfg, s.cache[f.id].buffer.total, f)
  {
    if 0 < f.total <= cfg.MaxBytes() {
      FreshReceives(f);
      if Receive(FreshBuffer(f.total), f).0.Stored? {
        NewTotalStored(s, r, cfg, f, now, v, w);
      } else {
        NewTotalRefused(s, r, cfg, f, now, v, w);
      }
    } else {
      GuestRestarts(s, cfg, f, Clock(now, now, now));
      HostMeasuresFirstTotal(r, cfg, f, now, w);
    }
  }

  /** Agreement on one frame, exactly. */
  lemma FrameAgreesIff(s: State, r: Registry, cfg: Config, f: Frame, now: int, v: nat, w: nat)
    requires Linked(s, r) && Inv(s, cfg) && DistinctTimes(s.poisoned)
    requires Legal(s, cfg, f, Clock(now, now, now), v) && LegalPartial(r, cfg, f, now, w)
    ensures var (a, s1) := HandleChunk(s, cfg, f, Clock(now, now, now), v);
      var (b, r1) := HandlePartial(r, cfg, f, now, w);
      a == b && Linked(s1, r1) <==>
        if SameTotal(s, f) then !TypeParts(s, r, f)
        else RefusedUnderBoth(cfg, s.cache[f.id].buffer.total, f)
  {
    if SameTotal(s, f) {
      SidesAgree(s, r, cfg, f, now, v, w);
    } else {
      NewTotalUnlinks(s, r, cfg, f, now, v, w);
    }
  }

  /** A frame of a new transfer, and one that lies behind it under a smaller
      declared total. */
  const FIRST := Frame(7, 10, 0, [1, 1, 1, 1], 0)
  const AGAIN := Frame(7, 8, 4, [2, 2], 0)

  lemma FirstIsStored(cfg: Config, now: int, v: nat)
    requires cfg.MaxBytes() >= 10
    ensures var (out, r1) := HandlePartial(Registry(map[], map[]), cfg, FIRST, now, v);
      && out == Acked && r1.poisoned == map[] && 7 in r1.partials
      && r1.partials[7].receivedSegments == map[0 := 4] && r1.partials[7].totalSize == |r1.partials[7].buffer| == 10
  {
    assert forall k :: !MapCovers(map[], k);
  }

  /** An input on which the host does not discard a transfer that comes back with
      another total, against the note at manager.go:436. */
  lemma HostStoresUnderFirstTotal(cfg: Config, now: int, later: int, v: nat, w: nat)
    requires cfg.MaxBytes() >= 10
    ensures var r1 := HandlePartial(Registry(map[], map[]), cfg, FIRST, now, v).1;
      && WellSized(r1.partials) && 7 in r1.partials && r1.partials[7].totalSize != AGAIN.total
      && !HandlePartial(r1, cfg, AGAIN, later, w).0.Refused?
  {
    var r1 := HandlePartial(Registry(map[], map[]), cfg, FIRST, now, v).1;
    FirstIsStored(cfg, now, v);
    HostKeeps(Registry(map[], map[]), cfg, FIRST, now, v);
    HostMeasuresFirstTotal(r1, cfg, AGAIN, later, w);
    assert forall k :: AGAIN.Range().Has(k) ==> !MapCovers(map[0 := 4], k);
  }

  // ----- runs

  lemma MapRecord(m: map<nat, nat>, seg: Segment)
    requires MapDisjoint(m) && seg.Length > 0 && MapVerdict(m, seg) == New
    ensures MapDisjoint(m[seg.Offset := seg.Length])
  {
    forall o | o in m ensures o + m[o] <= seg.Offset || seg.End() <= o {
      if o + m[o] > seg.Offset && seg.End() > o {
        var k := if o < seg.Offset then seg.Offset else o;
        assert Segment(o, m[o]).Has(k) && seg.Has(k);
        assert MapCovers(m, k);
      }
    }
  }

  lemma PartialKeeps(pm: PartialMessage, f: Frame)
    requires MapDisjoint(pm.receivedSegments) && pm.totalSize == |pm.buffer|
    ensures var pm' := ReceivePartial(pm, f).1; MapDisjoint(pm'.receivedSegments) && pm'.totalSize == |pm'.buffer|
  {
    if |f.data| > 0 && MapVerdict(pm.receivedSegments, f.Range()) == New {
      MapRecord(pm.receivedSegments, f.Range());
    }
  }

  lemma PoisonSized(r: Registry, cfg: Config, id: nat, now: int, victim: nat)
    requires WellSized(r.partials)
    ensures WellSized(PoisonPartial(r, cfg, id, now, victim).partials)
  {
  }

  lemma ConcludeSized(r: Registry, cfg: Config, f: Frame, now: int, victim: nat)
    requires WellSized(r.partials) && f.id in r.partials
    ensures WellSized(ConcludePartial(r, cfg, f, now, victim).1.partials)
  {
    PartialKeeps(r.partials[f.id], f);
    if ReceivePartial(r.partials[f.id], f).0.Rejected? {
      PoisonSized(r, cfg, f.id, now, victim);
    }
  }

  /** The host's own invariant is kept by every frame. */
  lemma HostKeeps(r: Registry, cfg: Config, f: Frame, now: int, victim: nat)
    requires WellSized(r.partials)
    ensures WellSized(HandlePartial(r, cfg, f, now, victim).1.partials)
  {
    var (adm, r1) := AdmitPartial(r, cfg, f, now);
    if adm.Admitted? {
      ConcludeSized(r1, cfg, f, now, victim);
    }
  }

  datatype HostEvent = Arrive(frame: Frame, now: int, victim: nat) | Cleanup(now: int)

  ghost function HostStep(r: Registry, cfg: Config, e: HostEvent): (r': Registry)
    requires WellSized(r.partials)
    ensures WellSized(r'.partials)
  {
    match e
    case Arrive(f, now, victim) => HostKeeps(r, cfg, f, now, victim); HandlePartial(r, cfg, f, now, victim).1
    case Cleanup(now) => PruneRegistry(r, cfg, now)
  }

  ghost predicate HostLegal(r: Registry, cfg: Config, e: HostEvent) {
    e.Arrive? ==> LegalPartial(r, cfg, e.frame, e.now, e.victim)
  }

  /** One event put to both sides; each side has its own eviction choice. */
  datatype Shared = Shared(host: HostEvent, guestVictim: nat) {
    function Guest(): Event {
      match host
      case Arrive(f, now, _) => Chunk(f, Clock(now, now, now), guestVictim)
      case Cleanup(now) => Sweep(now)
    }
  }

  /** What the agreement asks of an event: legal on both sides, its transfer's own
      total, and poison times that tell the oldest entry. */
  ghost predicate Fair(s: State, r: Registry, cfg: Config, e: Shared) {
    && LegalEvent(s, cfg, e.Guest()) && HostLegal(r, cfg, e.host)
    && (e.host.Arrive? ==> SameTotal(s, e.host.frame))
    && DistinctTimes(s.poisoned)
  }

  ghost predicate FairRun(s: State, r: Registry, cfg: Config, es: seq<Shared>)
    requires WellSized(r.partials)
    decreases |es|
  {
    es == [] ||
    (Fair(s, r, cfg, es[0]) && FairRun(Step(s, cfg, es[0].Guest()), HostStep(r, cfg, es[0].host), cfg, es[1..]))
  }

  /** One event: same verdicts, and answers that differ exactly in the type of a
      transfer completed under another type than it was opened with. */
  ghost predicate Agrees(s: State, r: Registry, cfg: Config, e: HostEvent, guestVictim: nat)
    requires WellSized(r.partials)
  {
    e.Arrive? ==>
      var a := HandleChunk(s, cfg, e.frame, Clock(e.now, e.now, e.now), guestVictim).0;
      var b := HandlePartial(r, cfg, e.frame, e.now, e.victim).0;
      && SameVerdicts(s, r, cfg, e.frame, e.now) && SameUpToType(a, b)
      && (a == b <==> !TypeParts(s, r, e.frame))
  }

  /** Every event of the run agrees and leaves the two linked. */
  ghost predicate AgreeOn(s: State, r: Registry, cfg: Config, es: seq<Shared>)
    requires WellSized(r.partials)
    decreases |es|
  {
    && Linked(s, r)
    && (es != [] ==>
          && Agrees(s, r, cfg, es[0].host, es[0].guestVictim)
          && AgreeOn(Step(s, cfg, es[0].Guest()), HostStep(r, cfg, es[0].host), cfg, es[1..]))
  }

  /** Over any run in which each transfer keeps its declared total and poison times
      are distinct, the two reassemblers give the same admission and segment
      verdicts, hold the same transfers byte for byte and the same poison, and
      dispatch the same payloads. */
  lemma {:induction false} RunsAgree(s: State, r: Registry, cfg: Config, es: seq<Shared>)
    requires Linked(s, r) && Inv(s, cfg) && FairRun(s, r, cfg, es)
    ensures AgreeOn(s, r, cfg, es)
    decreases |es|
  {
    if es != [] {
      var e := es[0];
      StepKeeps(s, cfg, e.Guest());
      match e.host {
        case Arrive(f, now, w) => SidesAgree(s, r, cfg, f, now, e.guestVictim, w);
        case Cleanup(now) => LinkedPrune(s, r, cfg, now);
      }
      RunsAgree(Step(s, cfg, e.Guest()), HostStep(r, cfg, e.host), cfg, es[1..]);
    }
  }

  // ----- the same from conditions on the events alone

  /** Each frame declares the total its id stands for, and time moves on. */
  ghost predicate WellDeclared(es: seq<Shared>, totals: nat -> int, from: int)
    decreases |es|
  {
    es == [] ||
    (from < es[0].host.now && (es[0].host.Arrive? ==> es[0].host.frame.total == totals(es[0].host.frame.id))
     && WellDeclared(es[1..], totals, es[0].host.now))
  }

  ghost predicate Declared(s: State, totals: nat -> int, upTo: int) {
    && (forall id :: id in s.cache ==> s.cache[id].buffer.total == totals(id))
    && DistinctTimes(s.poisoned) && PastTimes(s.poisoned, upTo)
  }

  ghost predicate PastTimes(p: map<nat, int>, upTo: int) { forall id :: id in p ==> p[id] <= upTo }

  ghost predicate LegalShared(s: State, r: Registry, cfg: Config, es: seq<Shared>)
    requires WellSized(r.partials)
    decreases |es|
  {
    es == [] ||
    (LegalEvent(s, cfg, es[0].Guest()) && HostLegal(r, cfg, es[0].host)
     && LegalShared(Step(s, cfg, es[0].Guest()), HostStep(r, cfg, es[0].host), cfg, es[1..]))
  }

  lemma DeclaredChecks(s: State, cfg: Config, id: nat, now: int, totals: nat -> int, upTo: int)
    requires Declared(s, totals, upTo)
    ensures Declared(CheckPoisoned(s, cfg, id, now).1, totals, upTo)
  {
  }

  lemma DeclaredPrunes(s: State, cfg: Config, now: int, totals: nat -> int, upTo: int)
    requires Declared(s, totals, upTo)
    ensures Declared(Prune(s, cfg, now), totals, upTo)
  {
  }

  lemma DeclaredStores(s: State, id: nat, tr: Transfer, totals: nat -> int, upTo: int)
    requires Declared(s, totals, upTo) && tr.buffer.total == totals(id)
    ensures Declared(s.(cache := s.cache[id := tr]), totals, upTo)
    ensures Declared(s.(cache := s.cache - {id}), totals, upTo)
  {
  }

  lemma DeclaredAdmits(s: State, cfg: Config, f: Frame, t: Clock, totals: nat -> int, upTo: int)
    requires Declared(s, totals, upTo) && f.total == totals(f.id)
    ensures Declared(Admitting(s, cfg, f, t).1, totals, upTo)
  {
    DeclaredChecks(s, cfg, f.id, t.check, totals, upTo);
    var (bad, s0) := CheckPoisoned(s, cfg, f.id, t.check);
    DeclaredPrunes(s0, cfg, t.admit, totals, upTo);
    var anew := Transfer(FreshBuffer(f.total), t.admit);
    DeclaredStores(s0, f.id, anew, totals, upTo);
    DeclaredStores(Prune(s0, cfg, t.admit), f.id, anew, totals, upTo);
    if f.id in s0.cache {
      DeclaredStores(s0, f.id, Transfer(s0.cache[f.id].buffer, t.admit), totals, upTo);
    }
  }

  lemma TimesExtend(p: map<nat, int>, id: nat, now: int, upTo: int, victim: nat)
    requires DistinctTimes(p) && PastTimes(p, upTo) && upTo < now
    ensures DistinctTimes(p[id := now]) && PastTimes(p[id := now], now)
    ensures DistinctTimes(p - {victim}) && PastTimes(p - {victim}, upTo)
  {
  }

  lemma DeclaredDrops(s: State, cfg: Config, id: nat, now: int, totals: nat -> int, upTo: int)
    requires Declared(s, totals, upTo)
    ensures Declared(BeforePoison(s, cfg, id, now), totals, upTo)
  {
    DeclaredPrunes(s.(cache := s.cache - {id}), cfg, now, totals, upTo);
  }

  lemma DeclaredPoisons(s: State, cfg: Config, id: nat, now: int, victim: nat, totals: nat -> int, upTo: int)
    requires Declared(s, totals, upTo) && upTo < now
    ensures Declared(Poison(s, cfg, id, now, victim), totals, now)
  {
    DeclaredDrops(s, cfg, id, now, totals, upTo);
    var p := BeforePoison(s, cfg, id, now).poisoned;
    TimesExtend(p, id, now, upTo, victim);
    TimesExtend(p - {victim}, id, now, upTo, victim);
  }

  lemma DeclaredConcludes(s: State, cfg: Config, f: Frame, t: Clock, victim: nat, totals: nat -> int, upTo: int)
    requires f.id in s.cache && GoodBuffer(s.cache[f.id].buffer) && Declared(s, totals, upTo) && upTo < t.reject
    ensures Declared(Conclude(s, cfg, f, t, victim).1, totals, t.reject)
  {
    ReceiveKeeps(s.cache[f.id].buffer, f);
    if Receive(s.cache[f.id].buffer, f).0.Rejected? {
      DeclaredPoisons(s, cfg, f.id, t.reject, victim, totals, upTo);
    } else {
      DeclaredStores(s, f.id, s.cache[f.id].(buffer := Receive(s.cache[f.id].buffer, f).1), totals, upTo);
    }
  }

  lemma DeclaredKept(s: State, cfg: Config, e: Shared, totals: nat -> int, upTo: int)
    requires Inv(s, cfg) && Declared(s, totals, upTo) && upTo < e.host.now
    requires e.host.Arrive? ==> e.host.frame.total == totals(e.host.frame.id)
    ensures Declared(Step(s, cfg, e.Guest()), totals, e.host.now)
  {
    match e.host
    case Cleanup(now) => DeclaredPrunes(s, cfg, now, totals, upTo);
    case Arrive(f, now, _) =>
      var t := Clock(now, now, now);
      DeclaredAdmits(s, cfg, f, t, totals, upTo);
      AdmittingKeeps(s, cfg, f, t);
      var (adm, s1) := Admitting(s, cfg, f, t);
      if adm.Admitted? {
        DeclaredConcludes(s1, cfg, f, t, e.guestVictim, totals, upTo);
      }
  }

  lemma {:induction false} DeclaredRunsAgree(s: State, r: Registry, cfg: Config, es: seq<Shared>, totals: nat -> int, from: int)
    requires Linked(s, r) && Inv(s, cfg) && Declared(s, totals, from)
    requires LegalShared(s, r, cfg, es) && WellDeclared(es, totals, from)
    ensures FairRun(s, r, cfg, es)
    decreases |es|
  {
    if es != [] {
      var e := es[0];
      StepKeeps(s, cfg, e.Guest());
      DeclaredKept(s, cfg, e, totals, from);
      match e.host {
        case Arrive(f, now, w) => SidesAgree(s, r, cfg, f, now, e.guestVictim, w);
        case Cleanup(now) => LinkedPrune(s, r, cfg, now);
      }
      DeclaredRunsAgree(Step(s, cfg, e.Guest()), HostStep(r, cfg, e.host), cfg, es[1..], totals, e.host.now);
    }
  }

  /** Two idle reassemblers fed the same frames, each id with one declared total
      and each event at a later time, agree throughout. */
  lemma IdleSidesAgree(cfg: Config, es: seq<Shared>, totals: nat -> int, from: int)
    requires WellDeclared(es, totals, from) && LegalShared(State(map[], map[]), Registry(map[], map[]), cfg, es)
    ensures AgreeOn(State(map[], map[]), Registry(map[], map[]), cfg, es)
  {
    DeclaredRunsAgree(State(map[], map[]), Registry(map[], map[]), cfg, es, totals, from);
    RunsAgree(State(map[], map[]), Registry(map[], map[]), cfg, es);
  }
}
