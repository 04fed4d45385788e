/** Any number of goroutines inside HandleChunk, each able to pause between its
    atomic sections, with sweeps, rejections and total-mismatch resets running
    meanwhile. Buffers live in a heap of their own: a goroutine keeps its pointer
    after the cache has let go of it. */
module ChunkInterleaving {
  import opened Segments
  import opened ChunkProtocol
  import opened ChunkInvariants

  datatype Pc =
    | Entered(f: Frame)              // before IsPoisoned
    | Checked(f: Frame)              // before GetChunkBuffer
    | Holding(f: Frame, ref: nat)    // between the two mutexes
    | Rejecting(id: nat)             // before PoisonTransfer
    | Completed(f: Frame, ref: nat)  // dispatch claimed, before RemoveChunkBuffer
    | Delivering(f: Frame, ref: nat) // reads buf.Data outside any lock

  datatype Slot = Slot(ref: nat, lastAccess: int)
  datatype Write = Write(offset: nat, bytes: seq<byte>) {
    ghost predicate Hits(k: int) { offset <= k < offset + |bytes| }
  }
  datatype Delivery = Delivery(ref: nat, payload: seq<byte>, msgType: nat)

  /** writes[r] is the history of copies into heap[r]; a goroutine absent from
      pcs is idle. */
  datatype Sys = Sys(heap: seq<Buffer>, writes: seq<seq<Write>>, cache: map<nat, Slot>,
                     poisoned: map<nat, int>, pcs: map<nat, Pc>, log: seq<Delivery>)

  datatype Action =
    | Call(g: nat, f: Frame)
    | Check(g: nat, now: int)
    | Open(g: nat, now: int)
    | Section(g: nat)
    | Reject(g: nat, now: int, victim: nat)
    | Remove(g: nat)
    | Deliver(g: nat)
    | Sweeping(now: int)

  /** What the cache and poison set look like to ChunkProtocol. */
  function View(y: Sys): State {
    State(map id | id in y.cache && y.cache[id].ref < |y.heap| ::
            Transfer(y.heap[y.cache[id].ref], y.cache[id].lastAccess),
          y.poisoned)
  }

  function Restrict(cache: map<nat, Slot>, keys: set<nat>): map<nat, Slot> {
    map id | id in cache && id in keys :: cache[id]
  }

  /** Carry a change of the protocol state back to the slots. */
  function Keep(y: Sys, s: State): Sys {
    y.(cache := Restrict(y.cache, s.cache.Keys), poisoned := s.poisoned)
  }

  ghost predicate Enabled(y: Sys, cfg: Config, a: Action) {
    match a
    case Call(g, f) => g !in y.pcs
    case Check(g, _) => g in y.pcs && y.pcs[g].Entered?
    case Open(g, _) => g in y.pcs && y.pcs[g].Checked?
    case Section(g) => g in y.pcs && y.pcs[g].Holding? && y.pcs[g].ref < |y.heap| == |y.writes|
    case Reject(g, now, victim) =>
      g in y.pcs && y.pcs[g].Rejecting? && VictimOk(View(y), cfg, y.pcs[g].id, now, victim)
    case Remove(g) => g in y.pcs && y.pcs[g].Completed?
    case Deliver(g) => g in y.pcs && y.pcs[g].Delivering? && y.pcs[g].ref < |y.heap|
    case Sweeping(_) => true
  }

  ghost function DoOpen(y: Sys, cfg: Config, g: nat, f: Frame, now: int): Sys {
    var (adm, s1) := Admit(View(y), cfg, f.id, f.total, now);
    var y1 := Keep(y, s1);
    if adm.Denied? then y1.(pcs := y.pcs - {g})
    else if f.id in y.cache && y.cache[f.id].ref < |y.heap| && y.heap[y.cache[f.id].ref].total == f.total then
      var ref := y.cache[f.id].ref;
      y1.(cache := y1.cache[f.id := Slot(ref, now)], pcs := y.pcs[g := Holding(f, ref)])
    else
      var ref := |y.heap|;
      y1.(heap := y.heap + [FreshBuffer(f.total)], writes := y.writes + [[]],
          cache := y1.cache[f.id := Slot(ref, now)], pcs := y.pcs[g := Holding(f, ref)])
  }

  ghost function DoSection(y: Sys, g: nat, f: Frame, ref: nat): Sys
    requires ref < |y.heap| == |y.writes|
  {
    var (got, b) := Receive(y.heap[ref], f);
    var copied := got.Stored? && Verdict(y.heap[ref].segments, f.Range()) == New;
    var pcs := match got
      case Rejected(_) => y.pcs[g := Rejecting(f.id)]
      case Stored(complete) => if complete then y.pcs[g := Completed(f, ref)] else y.pcs - {g};
    y.(heap := y.heap[ref := b], pcs := pcs,
       writes := if copied then y.writes[ref := y.writes[ref] + [Write(f.offset, f.data)]] else y.writes)
  }

  ghost function Do(y: Sys, cfg: Config, a: Action): Sys
    requires Enabled(y, cfg, a)
  {
    match a
    case Call(g, f) => y.(pcs := y.pcs[g := Entered(f)])
    case Check(g, now) =>
      var f := y.pcs[g].f;
      var (bad, s1) := CheckPoisoned(View(y), cfg, f.id, now);
      y.(poisoned := s1.poisoned, pcs := if bad then y.pcs - {g} else y.pcs[g := Checked(f)])
    case Open(g, now) => DoOpen(y, cfg, g, y.pcs[g].f, now)
    case Section(g) => DoSection(y, g, y.pcs[g].f, y.pcs[g].ref)
    case Reject(g, now, victim) =>
      Keep(y, Poison(View(y), cfg, y.pcs[g].id, now, victim)).(pcs := y.pcs - {g})
    case Remove(g) =>
      y.(cache := y.cache - {y.pcs[g].f.id}, pcs := y.pcs[g := Delivering(y.pcs[g].f, y.pcs[g].ref)])
    case Deliver(g) =>
      var d := Delivery(y.pcs[g].ref, y.heap[y.pcs[g].ref].data, y.pcs[g].f.msgType);
      y.(log := y.log + [d], pcs := y.pcs - {g})
    case Sweeping(now) => Keep(y, Prune(View(y), cfg, now))
  }

  // ----- the invariant

  function Hits(ws: seq<Write>, k: int): nat {
    if ws == [] then 0
    else Hits(ws[..|ws| - 1], k) + if ws[|ws| - 1].offset <= k < ws[|ws| - 1].offset + |ws[|ws| - 1].bytes| then 1 else 0
  }

  /** Byte k of data is what some copy put there. */
  ghost predicate Wrote(ws: seq<Write>, data: seq<byte>, k: nat)
    requires k < |data|
  {
    exists i :: 0 <= i < |ws| && ws[i].Hits(k) && data[k] == ws[i].bytes[k - ws[i].offset]
  }

  /** A claimed byte was copied exactly once, an unclaimed one never. */
  ghost predicate Matches(b: Buffer, ws: seq<Write>) {
    && |b.data| == b.total
    && (forall k :: 0 <= k < b.total ==> Hits(ws, k) == if Covers(b.segments, k) then 1 else 0)
    && (forall k :: 0 <= k < b.total && Covers(b.segments, k) ==> Wrote(ws, b.data, k))
  }

  ghost predicate Sound(y: Sys) {
    && |y.heap| == |y.writes|
    && (forall r :: 0 <= r < |y.heap| ==>
          && GoodBuffer(y.heap[r]) && Matches(y.heap[r], y.writes[r])
          && (y.heap[r].dispatched ==> y.heap[r].received == y.heap[r].total))
  }

  /** Goroutine g has claimed buffer r and not yet delivered it. */
  ghost predicate Owns(y: Sys, g: nat, r: nat) {
    g in y.pcs && (y.pcs[g].Completed? || y.pcs[g].Delivering?) && y.pcs[g].ref == r
  }

  ghost predicate Claims(y: Sys) {
    && (forall id :: id in y.cache ==> y.cache[id].ref < |y.heap|)
    && (forall g :: g in y.pcs && y.pcs[g].Holding? ==> y.pcs[g].ref < |y.heap|)
    && (forall g: nat, r: nat :: Owns(y, g, r) ==> r < |y.heap| && y.heap[r].dispatched)
    && (forall g: nat, h: nat, r: nat :: Owns(y, g, r) && Owns(y, h, r) ==> g == h)
    && (forall i :: 0 <= i < |y.log| ==>
          && y.log[i].ref < |y.heap| && y.heap[y.log[i].ref].dispatched
          && y.log[i].payload == y.heap[y.log[i].ref].data)
    && (forall i, g :: 0 <= i < |y.log| ==> !Owns(y, g, y.log[i].ref))
    && (forall i, j :: 0 <= i < j < |y.log| ==> y.log[i].ref != y.log[j].ref)
  }

  lemma SectionMatches(b: Buffer, ws: seq<Write>, f: Frame)
    requires GoodBuffer(b) && Matches(b, ws)
    requires f.offset + |f.data| <= b.total && |f.data| > 0 && Free(b.segments, f.Range())
    ensures Matches(b.(data := Splice(b.data, f.offset, f.data), segments := Record(b.segments, f.Range())),
                    ws + [Write(f.offset, f.data)])
  {
    RecordNew(b.segments, f.Range(), b.total);
    var w := Write(f.offset, f.data);
    var ws', segs', data' := ws + [w], Record(b.segments, f.Range()), Splice(b.data, f.offset, f.data);
    assert ws'[..|ws|] == ws;
    forall k | 0 <= k < b.total && Covers(segs', k) ensures Wrote(ws', data', k) {
      if f.Range().Has(k) {
        assert ws'[|ws|].Hits(k);
      } else {
        var i :| 0 <= i < |ws| && ws[i].Hits(k) && b.data[k] == ws[i].bytes[k - ws[i].offset];
        assert ws'[i].Hits(k);
      }
    }
  }

  /** A buffer whose dispatch has been claimed is never written again, so the
      consumer's unlocked read cannot be torn. */
  lemma ClaimedIsFrozen(b: Buffer, f: Frame)
    requires GoodBuffer(b) && b.dispatched && b.received == b.total
    ensures Receive(b, f).1 == b
    ensures Receive(b, f).0 != Stored(true)
    ensures f.offset + |f.data| <= |b.data| && |f.data| > 0 ==> Verdict(b.segments, f.Range()) != New
  {
    CompleteIffCovered(b.segments, b.total);
    if f.offset + |f.data| <= |b.data| && |f.data| > 0 {
      assert f.Range().Has(f.offset);
      assert Covers(b.segments, f.offset);
    }
  }

  lemma SectionSound(y: Sys, g: nat, f: Frame, ref: nat)
    requires Sound(y) && ref < |y.heap|
    ensures Sound(DoSection(y, g, f, ref))
    ensures forall r :: 0 <= r < |y.heap| && y.heap[r].dispatched ==>
      DoSection(y, g, f, ref).heap[r] == y.heap[r]
  {
    var b := y.heap[ref];
    ReceiveKeeps(b, f);
    var (got, b') := Receive(b, f);
    if b.dispatched {
      ClaimedIsFrozen(b, f);
    }
    if f.offset + |f.data| <= |b.data| && |f.data| > 0 && Verdict(b.segments, f.Range()) == New {
      SectionMatches(b, y.writes[ref], f);
    }
    assert Matches(b', DoSection(y, g, f, ref).writes[ref]);
  }

  lemma FreshSound(total: nat)
    requires total > 0
    ensures GoodBuffer(FreshBuffer(total)) && Matches(FreshBuffer(total), [])
  {
    FreshIsUnfinished(total);
    assert forall k :: !Covers(FreshBuffer(total).segments, k);
  }

  lemma OpenSound(y: Sys, cfg: Config, g: nat, f: Frame, now: int)
    requires Sound(y)
    ensures Sound(DoOpen(y, cfg, g, f, now)) && y.heap <= DoOpen(y, cfg, g, f, now).heap
  {
    if f.total > 0 {
      FreshSound(f.total);
    }
  }

  /** Each atomic section keeps every buffer sound and leaves the ones whose
      dispatch has been claimed untouched. */
  lemma DoSound(y: Sys, cfg: Config, a: Action)
    requires Sound(y) && Enabled(y, cfg, a)
    ensures Sound(Do(y, cfg, a))
    ensures |y.heap| <= |Do(y, cfg, a).heap|
    ensures forall r :: 0 <= r < |y.heap| && y.heap[r].dispatched ==> Do(y, cfg, a).heap[r] == y.heap[r]
  {
    match a
    case Open(g, now) => OpenSound(y, cfg, g, y.pcs[g].f, now);
    case Section(g) => SectionSound(y, g, y.pcs[g].f, y.pcs[g].ref);
    case _ =>
  }

  ghost predicate InRange(y: Sys) {
    && (forall id :: id in y.cache ==> y.cache[id].ref < |y.heap|)
    && (forall g :: g in y.pcs && y.pcs[g].Holding? ==> y.pcs[g].ref < |y.heap|)
  }

  /** Claims survive any step that grants none and delivers nothing. */
  lemma ClaimsKept(y: Sys, y': Sys)
    requires Claims(y) && InRange(y') && y'.log == y.log && |y.heap| <= |y'.heap|
    requires forall r :: 0 <= r < |y.heap| && y.heap[r].dispatched ==> y'.heap[r] == y.heap[r]
    requires forall g: nat, r: nat :: Owns(y', g, r) ==> Owns(y, g, r)
    ensures Claims(y')
  {
  }

  lemma SectionClaims(y: Sys, g: nat)
    requires Sound(y) && Claims(y) && g in y.pcs && y.pcs[g].Holding? && y.pcs[g].ref < |y.heap|
    ensures Claims(DoSection(y, g, y.pcs[g].f, y.pcs[g].ref))
  {
    var f, ref := y.pcs[g].f, y.pcs[g].ref;
    var y' := DoSection(y, g, f, ref);
    SectionSound(y, g, f, ref);
    ReceiveKeeps(y.heap[ref], f);
    if Receive(y.heap[ref], f).0 == Stored(true) {
      assert !y.heap[ref].dispatched && y'.heap[ref].dispatched;
      assert forall h: nat, r: nat :: Owns(y', h, r) <==> Owns(y, h, r) || (h == g && r == ref);
    } else {
      assert forall h: nat, r: nat :: Owns(y', h, r) ==> Owns(y, h, r);
      ClaimsKept(y, y');
    }
  }

  lemma DeliverClaims(y: Sys, cfg: Config, g: nat)
    requires Claims(y) && Enabled(y, cfg, Deliver(g))
    ensures Claims(Do(y, cfg, Deliver(g)))
  {
    var y' := Do(y, cfg, Deliver(g));
    assert Owns(y, g, y.pcs[g].ref);
    assert forall h: nat, r: nat :: Owns(y', h, r) <==> Owns(y, h, r) && h != g;
  }

  lemma DoClaims(y: Sys, cfg: Config, a: Action)
    requires Sound(y) && Claims(y) && Enabled(y, cfg, a)
    ensures Claims(Do(y, cfg, a))
  {
    DoSound(y, cfg, a);
    match a
    case Section(g) => SectionClaims(y, g);
    case Deliver(g) => DeliverClaims(y, cfg, g);
    case Open(g, now) => OpenClaims(y, cfg, g, now);
    case _ =>
      var y' := Do(y, cfg, a);
      assert forall h: nat, r: nat :: Owns(y', h, r) ==> Owns(y, h, r);
      ClaimsKept(y, y');
  }

  lemma OpenClaims(y: Sys, cfg: Config, g: nat, now: int)
    requires Sound(y) && Claims(y) && Enabled(y, cfg, Open(g, now))
    ensures Claims(Do(y, cfg, Open(g, now)))
  {
    DoSound(y, cfg, Open(g, now));
    var y' := Do(y, cfg, Open(g, now));
    OpenGrantsNothing(y, cfg, g, y.pcs[g].f, now);
    ClaimsKept(y, y');
  }

  lemma OpenGrantsNothing(y: Sys, cfg: Config, g: nat, f: Frame, now: int)
    requires InRange(y)
    ensures var y' := DoOpen(y, cfg, g, f, now);
      InRange(y') && y'.log == y.log && forall h: nat, r: nat :: Owns(y', h, r) ==> Owns(y, h, r)
  {
  }

  ghost predicate ValidRun(y: Sys, cfg: Config, acts: seq<Action>)
    decreases |acts|
  {
    acts == [] || (Enabled(y, cfg, acts[0]) && ValidRun(Do(y, cfg, acts[0]), cfg, acts[1..]))
  }

  ghost function After(y: Sys, cfg: Config, acts: seq<Action>): Sys
    requires ValidRun(y, cfg, acts)
    decreases |acts|
  {
    if acts == [] then y else After(Do(y, cfg, acts[0]), cfg, acts[1..])
  }

  /** A sweep among the sections is the protocol's sweep, and touches no buffer. */
  lemma SweepIsAtomic(y: Sys, cfg: Config, now: int)
    requires InRange(y)
    ensures var y' := Do(y, cfg, Sweeping(now));
      View(y') == Prune(View(y), cfg, now) && y'.heap == y.heap && y'.pcs == y.pcs && y'.log == y.log
  {
    var v, p := View(Do(y, cfg, Sweeping(now))), Prune(View(y), cfg, now);
    assert forall id :: id in v.cache <==> id in p.cache;
    assert v.cache.Keys == p.cache.Keys;
  }

  const START := Sys([], [], map[], map[], map[], [])

  lemma {:induction false} RunSound(y: Sys, cfg: Config, acts: seq<Action>)
    requires Sound(y) && Claims(y) && ValidRun(y, cfg, acts)
    ensures Sound(After(y, cfg, acts)) && Claims(After(y, cfg, acts))
    decreases |acts|
  {
    if acts != [] {
      DoSound(y, cfg, acts[0]);
      DoClaims(y, cfg, acts[0]);
      RunSound(Do(y, cfg, acts[0]), cfg, acts[1..]);
    }
  }

  /** Whatever the interleaving, a delivered payload is the whole of its buffer
      with every byte copied in exactly once, and no buffer is delivered twice. */
  lemma NoTornPayload(cfg: Config, acts: seq<Action>)
    requires ValidRun(START, cfg, acts)
    ensures var y := After(START, cfg, acts);
      && |y.heap| == |y.writes|
      && (forall i :: 0 <= i < |y.log| ==>
            var d := y.log[i];
            && d.ref < |y.heap| && |d.payload| == y.heap[d.ref].total
            && forall k :: 0 <= k < |d.payload| ==> Hits(y.writes[d.ref], k) == 1 && Wrote(y.writes[d.ref], d.payload, k))
      && (forall i, j :: 0 <= i < j < |y.log| ==> y.log[i].ref != y.log[j].ref)
  {
    RunSound(START, cfg, acts);
    var y := After(START, cfg, acts);
    forall i | 0 <= i < |y.log|
      ensures var d := y.log[i];
        && |d.payload| == y.heap[d.ref].total
        && forall k :: 0 <= k < |d.payload| ==> Hits(y.writes[d.ref], k) == 1 && Wrote(y.writes[d.ref], d.payload, k)
    {
      var b := y.heap[y.log[i].ref];
      CompleteIffCovered(b.segments, b.total);
    }
  }

  // ----- a goroutine that is not interrupted runs ChunkProtocol.HandleChunk

  /** No two ids share a buffer. */
  ghost predicate Distinct(y: Sys) {
    && InRange(y)
    && forall i, j :: i in y.cache && j in y.cache && i != j ==> y.cache[i].ref != y.cache[j].ref
  }

  lemma DoDistinct(y: Sys, cfg: Config, a: Action)
    requires Distinct(y) && Enabled(y, cfg, a)
    ensures Distinct(Do(y, cfg, a))
  {
    match a
    case Open(g, now) => OpenDistinct(y, cfg, g, y.pcs[g].f, now);
    case _ =>
  }

  lemma {:induction false} RunDistinct(y: Sys, cfg: Config, acts: seq<Action>)
    requires Distinct(y) && ValidRun(y, cfg, acts)
    ensures Distinct(After(y, cfg, acts))
    decreases |acts|
  {
    if acts != [] {
      DoDistinct(y, cfg, acts[0]);
      RunDistinct(Do(y, cfg, acts[0]), cfg, acts[1..]);
    }
  }

  ghost predicate SubState(s: State, t: State) {
    && (forall id :: id in s.cache ==> id in t.cache && s.cache[id] == t.cache[id])
  }

  lemma KeepView(y: Sys, s: State)
    requires InRange(y) && SubState(s, View(y))
    ensures View(Keep(y, s)) == s
  {
    assert View(Keep(y, s)).cache == s.cache;
  }

  /** Keeping what s keeps, then putting id on slot (ref, now). */
  lemma SlotView(y: Sys, y1: Sys, s: State, id: nat, ref: nat, now: int)
    requires InRange(y) && SubState(s, View(y)) && y.heap <= y1.heap && ref < |y1.heap|
    requires y1.cache == Restrict(y.cache, s.cache.Keys)[id := Slot(ref, now)] && y1.poisoned == s.poisoned
    ensures View(y1) == s.(cache := s.cache[id := Transfer(y1.heap[ref], now)])
  {
    assert View(y1).cache == s.cache[id := Transfer(y1.heap[ref], now)];
  }

  lemma RestrictInsert(cache: map<nat, Slot>, keys: set<nat>, id: nat, slot: Slot)
    ensures Restrict(cache, keys + {id})[id := slot] == Restrict(cache, keys)[id := slot]
  {
  }

  ghost predicate SlotsDistinct(cache: map<nat, Slot>, bound: nat) {
    && (forall id :: id in cache ==> cache[id].ref < bound)
    && forall i, j :: i in cache && j in cache && i != j ==> cache[i].ref != cache[j].ref
  }

  lemma PutDistinct(cache: map<nat, Slot>, keys: set<nat>, id: nat, slot: Slot, bound: nat, bound': nat)
    requires SlotsDistinct(cache, bound) && bound <= bound' && slot.ref < bound'
    requires forall i :: i in cache && i != id ==> cache[i].ref != slot.ref
    ensures SlotsDistinct(Restrict(cache, keys)[id := slot], bound')
  {
  }

  /** GetChunkBuffer on slots, when it admits: which buffer the id ends up on. */
  lemma OpenAdmits(y: Sys, cfg: Config, g: nat, f: Frame, now: int) returns (s0: State, ref: nat)
    requires Distinct(y) && Admit(View(y), cfg, f.id, f.total, now).0.Admitted?
    ensures SubState(s0, View(y)) && ref < |DoOpen(y, cfg, g, f, now).heap|
    ensures DoOpen(y, cfg, g, f, now).cache == Restrict(y.cache, s0.cache.Keys)[f.id := Slot(ref, now)]
    ensures forall i :: i in y.cache && i != f.id ==> y.cache[i].ref != ref
    ensures y.heap <= DoOpen(y, cfg, g, f, now).heap
    ensures Admit(View(y), cfg, f.id, f.total, now).1
            == s0.(cache := s0.cache[f.id := Transfer(DoOpen(y, cfg, g, f, now).heap[ref], now)])
  {
    var s := View(y);
    s0 := if f.id in s.cache || |s.cache| < cfg.MaxTransfers() then s else Prune(s, cfg, now);
    var reuse := f.id in y.cache && y.heap[y.cache[f.id].ref].total == f.total;
    ref := if reuse then y.cache[f.id].ref else |y.heap|;
    var s1 := Admit(s, cfg, f.id, f.total, now).1;
    assert s1.cache.Keys == s0.cache.Keys + {f.id};
    RestrictInsert(y.cache, s0.cache.Keys, f.id, Slot(ref, now));
  }

  lemma SoloOpen(y: Sys, cfg: Config, g: nat, f: Frame, now: int)
    requires Distinct(y)
    ensures var (adm, s1) := Admit(View(y), cfg, f.id, f.total, now); var y1 := DoOpen(y, cfg, g, f, now);
      && View(y1) == s1
      && (adm.Denied? ==> y1.pcs == y.pcs - {g} && y1.log == y.log)
  {
    var (adm, s1) := Admit(View(y), cfg, f.id, f.total, now);
    var y1 := DoOpen(y, cfg, g, f, now);
    if adm.Denied? {
      KeepView(y, s1);
    } else {
      var s0, ref := OpenAdmits(y, cfg, g, f, now);
      SlotView(y, y1, s0, f.id, ref, now);
    }
  }

  lemma OpenDistinct(y: Sys, cfg: Config, g: nat, f: Frame, now: int)
    requires Distinct(y)
    ensures Distinct(DoOpen(y, cfg, g, f, now))
  {
    if Admit(View(y), cfg, f.id, f.total, now).0.Admitted? {
      var s0, ref := OpenAdmits(y, cfg, g, f, now);
      var y1 := DoOpen(y, cfg, g, f, now);
      PutDistinct(y.cache, s0.cache.Keys, f.id, Slot(ref, now), |y.heap|, |y1.heap|);
      assert SlotsDistinct(y1.cache, |y1.heap|);
    }
  }

  lemma SoloAdmitted(y: Sys, cfg: Config, g: nat, f: Frame, now: int)
    requires Distinct(y) && |y.heap| == |y.writes| && Admit(View(y), cfg, f.id, f.total, now).0.Admitted?
    requires forall h :: h in y.pcs && h != g ==> !y.pcs[h].Holding? || y.pcs[h].ref < |y.heap|
    ensures var y1 := DoOpen(y, cfg, g, f, now);
      && Distinct(y1) && |y1.heap| == |y1.writes| && y1.log == y.log
      && g in y1.pcs && f.id in y1.cache && y1.pcs[g] == Holding(f, y1.cache[f.id].ref)
  {
    var s0, ref := OpenAdmits(y, cfg, g, f, now);
    var y1 := DoOpen(y, cfg, g, f, now);
    PutDistinct(y.cache, s0.cache.Keys, f.id, Slot(ref, now), |y.heap|, |y1.heap|);
    assert SlotsDistinct(y1.cache, |y1.heap|);
  }

  lemma SoloSection(y: Sys, g: nat, f: Frame)
    requires Distinct(y) && f.id in y.cache && |y.heap| == |y.writes|
    ensures var ref := y.cache[f.id].ref; var s := View(y);
      View(DoSection(y, g, f, ref))
      == s.(cache := s.cache[f.id := s.cache[f.id].(buffer := Receive(y.heap[ref], f).1)])
  {
    var ref, s := y.cache[f.id].ref, View(y);
    var y1 := DoSection(y, g, f, ref);
    assert View(y1).cache == s.cache[f.id := s.cache[f.id].(buffer := Receive(y.heap[ref], f).1)];
  }

  ghost predicate Leads(y: Sys, cfg: Config, acts: seq<Action>, y': Sys) {
    ValidRun(y, cfg, acts) && After(y, cfg, acts) == y'
  }

  lemma Then(y: Sys, cfg: Config, a: Action, rest: seq<Action>, y': Sys)
    requires Enabled(y, cfg, a) && Leads(Do(y, cfg, a), cfg, rest, y')
    ensures Leads(y, cfg, [a] + rest, y')
  {
    assert ([a] + rest)[1..] == rest;
  }

  /** Same protocol state, and the delivery out says was made. */
  ghost predicate Concluded(y: Sys, y': Sys, out: Outcome, s': State) {
    && View(y') == s'
    && match out
       case Dispatched(p, m) => exists ref :: y'.log == y.log + [Delivery(ref, p, m)]
       case _ => y'.log == y.log
  }

  lemma SoloReject(y: Sys, cfg: Config, g: nat, id: nat, now: int, victim: nat) returns (y': Sys)
    requires InRange(y) && g in y.pcs && y.pcs[g] == Rejecting(id)
    requires VictimOk(View(y), cfg, id, now, victim)
    ensures Leads(y, cfg, [Reject(g, now, victim)], y')
    ensures View(y') == Poison(View(y), cfg, id, now, victim) && y'.log == y.log
  {
    var s1 := Poison(View(y), cfg, id, now, victim);
    KeepView(y, s1);
    y' := Do(y, cfg, Reject(g, now, victim));
    assert View(y') == View(Keep(y, s1));
    Then(y, cfg, Reject(g, now, victim), [], y');
  }

  lemma SoloDeliver(y: Sys, cfg: Config, g: nat, f: Frame, ref: nat) returns (y': Sys)
    requires InRange(y) && g in y.pcs && y.pcs[g] == Completed(f, ref) && ref < |y.heap|
    ensures Leads(y, cfg, [Remove(g), Deliver(g)], y')
    ensures View(y') == View(y).(cache := View(y).cache - {f.id})
    ensures y'.log == y.log + [Delivery(ref, y.heap[ref].data, f.msgType)]
  {
    var y2 := Do(y, cfg, Remove(g));
    y' := Do(y2, cfg, Deliver(g));
    assert View(y').cache == View(y).cache - {f.id};
    Then(y2, cfg, Deliver(g), [], y');
    Then(y, cfg, Remove(g), [Deliver(g)], y');
  }

  /** What the section under the mutex leaves to do. */
  lemma SectionLeaves(y: Sys, cfg: Config, g: nat, f: Frame) returns (y1: Sys)
    requires Distinct(y) && |y.heap| == |y.writes| && f.id in y.cache
    requires g in y.pcs && y.pcs[g] == Holding(f, y.cache[f.id].ref)
    ensures Enabled(y, cfg, Section(g)) && y1 == Do(y, cfg, Section(g))
    ensures InRange(y1) && y1.log == y.log
    ensures var s, ref := View(y), y.cache[f.id].ref; var (got, b) := Receive(s.cache[f.id].buffer, f);
      && View(y1) == s.(cache := s.cache[f.id := s.cache[f.id].(buffer := b)])
      && (got.Rejected? ==> View(y1) == s && g in y1.pcs && y1.pcs[g] == Rejecting(f.id))
      && (got == Stored(true) ==>
            ref < |y1.heap| && y1.heap[ref] == b && g in y1.pcs && y1.pcs[g] == Completed(f, ref))
  {
    SoloSection(y, g, f);
    y1 := Do(y, cfg, Section(g));
    var s := View(y);
    assert s.cache[f.id := s.cache[f.id]] == s.cache;
  }

  lemma SoloConclude(y: Sys, cfg: Config, g: nat, f: Frame, t: Clock, victim: nat) returns (acts: seq<Action>, y': Sys)
    requires Distinct(y) && |y.heap| == |y.writes| && f.id in y.cache
    requires g in y.pcs && y.pcs[g] == Holding(f, y.cache[f.id].ref)
    requires VictimOk(View(y), cfg, f.id, t.reject, victim)
    ensures Leads(y, cfg, acts, y')
    ensures var (out, s') := Conclude(View(y), cfg, f, t, victim); Concluded(y, y', out, s')
  {
    var s := View(y);
    var y1 := SectionLeaves(y, cfg, g, f);
    var tail := [];
    tail, y' := SoloTail(s, y1, cfg, g, f, t, victim, y.cache[f.id].ref);
    Then(y, cfg, Section(g), tail, y');
    acts := [Section(g)] + tail;
  }

  lemma SoloTail(s: State, y1: Sys, cfg: Config, g: nat, f: Frame, t: Clock, victim: nat, ref: nat)
      returns (tail: seq<Action>, y': Sys)
    requires f.id in s.cache && InRange(y1) && VictimOk(s, cfg, f.id, t.reject, victim)
    requires var (got, b) := Receive(s.cache[f.id].buffer, f);
      && View(y1) == s.(cache := s.cache[f.id := s.cache[f.id].(buffer := b)])
      && (got.Rejected? ==> View(y1) == s && g in y1.pcs && y1.pcs[g] == Rejecting(f.id))
      && (got == Stored(true) ==>
            ref < |y1.heap| && y1.heap[ref] == b && g in y1.pcs && y1.pcs[g] == Completed(f, ref))
    ensures Leads(y1, cfg, tail, y')
    ensures var (out, s') := Conclude(s, cfg, f, t, victim); Concluded(y1, y', out, s')
  {
    var (got, b) := Receive(s.cache[f.id].buffer, f);
    if got.Rejected? {
      y' := SoloReject(y1, cfg, g, f.id, t.reject, victim);
      tail := [Reject(g, t.reject, victim)];
    } else if got.complete {
      y' := SoloDeliver(y1, cfg, g, f, ref);
      tail := [Remove(g), Deliver(g)];
      UpdateRemove(s.cache, f.id, s.cache[f.id].(buffer := b));
    } else {
      y' := y1;
      tail := [];
    }
  }

  lemma UpdateRemove(m: map<nat, Transfer>, k: nat, v: Transfer)
    ensures m[k := v] - {k} == m - {k}
  {
  }

  lemma SoloAfterCheck(y: Sys, cfg: Config, g: nat, f: Frame, t: Clock, victim: nat)
      returns (acts: seq<Action>, y': Sys)
    requires Distinct(y) && |y.heap| == |y.writes| && g in y.pcs && y.pcs[g] == Checked(f)
    requires VictimOk(Admit(View(y), cfg, f.id, f.total, t.admit).1, cfg, f.id, t.reject, victim)
    ensures Leads(y, cfg, acts, y')
    ensures var (adm, s1) := Admit(View(y), cfg, f.id, f.total, t.admit);
      var (out, s') := if adm.Denied? then (Refused(adm.reason), s1) else Conclude(s1, cfg, f, t, victim);
      Concluded(y, y', out, s')
  {
    SoloOpen(y, cfg, g, f, t.admit);
    var y1 := Do(y, cfg, Open(g, t.admit));
    var tail: seq<Action> := [];
    y' := y1;
    if Admit(View(y), cfg, f.id, f.total, t.admit).0.Admitted? {
      SoloAdmitted(y, cfg, g, f, t.admit);
      tail, y' := SoloConclude(y1, cfg, g, f, t, victim);
    }
    Then(y, cfg, Open(g, t.admit), tail, y');
    acts := [Open(g, t.admit)] + tail;
  }

  /** Run without interruption, the sections compose to the atomic step: the
      invariants and the round trip hold of the code's own sections. */
  lemma SoloIsAtomic(y: Sys, cfg: Config, g: nat, f: Frame, t: Clock, victim: nat)
      returns (acts: seq<Action>, y': Sys)
    requires Distinct(y) && |y.heap| == |y.writes| && g !in y.pcs && Legal(View(y), cfg, f, t, victim)
    ensures Leads(y, cfg, acts, y')
    ensures var (out, s') := HandleChunk(View(y), cfg, f, t, victim); Concluded(y, y', out, s')
  {
    var y1 := Do(y, cfg, Call(g, f));
    assert View(y1) == View(y);
    var y2 := Do(y1, cfg, Check(g, t.check));
    var (bad, s2) := CheckPoisoned(View(y), cfg, f.id, t.check);
    assert View(y2).cache == View(y).cache && View(y2) == s2;
    var rest: seq<Action> := [];
    y' := y2;
    if !bad {
      rest, y' := SoloAfterCheck(y2, cfg, g, f, t, victim);
    }
    Then(y1, cfg, Check(g, t.check), rest, y');
    Then(y, cfg, Call(g, f), [Check(g, t.check)] + rest, y');
    acts := [Call(g, f)] + ([Check(g, t.check)] + rest);
  }
}
