/** The host-to-guest reassembler as atomic steps over values: the poison check,
    the admission of a transfer, the section under a buffer's own mutex, and the
    rejection of a transfer. Time is an argument of every step. Where the source
    iterates a map to pick the oldest poison entry, `victim` is that choice. */
module ChunkProtocol {
  import opened Segments

  newtype byte = x: int | 0 <= x < 256
  type uint32 = x: int | 0 <= x < 0x1_0000_0000

  const DEFAULT_MAX_CHUNK_BUFFER_BYTES := 0x1000_0000
  const DEFAULT_CHUNK_BUFFER_TTL := 60_000_000_000
  const DEFAULT_MAX_CONCURRENT_TRANSFERS := 1024
  const DEFAULT_MAX_POISONED_TRANSFERS := 1024

  datatype Config = Config(MaxChunkBufferBytes: int, ChunkBufferTTL: int,
                           MaxConcurrentTransfers: int, MaxPoisonedTransfers: int)
  {
    function MaxBytes(): (n: nat)
      ensures n > 0
    {
      if MaxChunkBufferBytes <= 0 then DEFAULT_MAX_CHUNK_BUFFER_BYTES else MaxChunkBufferBytes
    }
    function Ttl(): (n: nat)
      ensures n > 0
    {
      if ChunkBufferTTL > 0 then ChunkBufferTTL else DEFAULT_CHUNK_BUFFER_TTL
    }
    function MaxTransfers(): (n: nat)
      ensures n > 0
    {
      if MaxConcurrentTransfers > 0 then MaxConcurrentTransfers else DEFAULT_MAX_CONCURRENT_TRANSFERS
    }
    function MaxPoisoned(): (n: nat)
      ensures n > 0
    {
      if MaxPoisonedTransfers > 0 then MaxPoisonedTransfers else DEFAULT_MAX_POISONED_TRANSFERS
    }
  }

  datatype Frame = Frame(id: nat, total: uint32, offset: uint32, data: seq<byte>, msgType: nat) {
    function Range(): Segment { Segment(offset, |data|) }
  }

  /** A reassembly buffer. */
  datatype Buffer = Buffer(data: seq<byte>, total: nat, received: nat,
                           segments: seq<Segment>, dispatched: bool)

  /** A resident transfer is its buffer and the time of its last admission. */
  datatype Transfer = Transfer(buffer: Buffer, lastAccess: int)

  datatype State = State(cache: map<nat, Transfer>, poisoned: map<nat, int>)

  datatype Reason = Poisoned | TotalNonPositive | TotalTooLarge | TooManyTransfers
                  | OutOfBounds | ZeroLength | Overlapping
  {
    /** Resource refusals do not poison an id; framing faults do. */
    predicate Violation() { OutOfBounds? || ZeroLength? || Overlapping? }
  }

  datatype Received = Rejected(reason: Reason) | Stored(complete: bool)
  datatype Outcome = Refused(reason: Reason) | Acked | Dispatched(payload: seq<byte>, msgType: nat)

  function FreshBuffer(total: nat): Buffer {
    Buffer(seq(total, _ => 0 as byte), total, 0, [], false)
  }

  function Splice(d: seq<byte>, offset: nat, bytes: seq<byte>): (r: seq<byte>)
    requires offset + |bytes| <= |d|
    ensures |r| == |d|
    ensures forall k :: 0 <= k < |d| ==>
      r[k] == if offset <= k < offset + |bytes| then bytes[k - offset] else d[k]
  {
    d[..offset] + bytes + d[offset + |bytes|..]
  }

  /** The section of HandleChunk under the buffer's mutex. */
  ghost function Receive(b: Buffer, f: Frame): (Received, Buffer) {
    if f.offset + |f.data| > |b.data| then (Rejected(OutOfBounds), b)
    else if |f.data| == 0 then (Rejected(ZeroLength), b)
    else
      var claim := Verdict(b.segments, f.Range());
      if claim == Overlap then (Rejected(Overlapping), b)
      else
        var b1 := if claim == New then
                    b.(data := Splice(b.data, f.offset, f.data),
                       received := b.received + |f.data|,
                       segments := Record(b.segments, f.Range()))
                  else b;
        if b1.received == b1.total && !b1.dispatched
        then (Stored(true), b1.(dispatched := true))
        else (Stored(false), b1)
  }

  function Prune(s: State, cfg: Config, now: int): State {
    State(map id | id in s.cache && now - s.cache[id].lastAccess <= cfg.Ttl() :: s.cache[id],
          map id | id in s.poisoned && now - s.poisoned[id] <= cfg.Ttl() :: s.poisoned[id])
  }

  /** IsPoisoned: an expired entry is dropped on the way. */
  function CheckPoisoned(s: State, cfg: Config, id: nat, now: int): (bool, State) {
    if id !in s.poisoned then (false, s)
    else if now - s.poisoned[id] > cfg.Ttl() then (false, s.(poisoned := s.poisoned - {id}))
    else (true, s)
  }

  datatype Admission = Admitted | Denied(reason: Reason)

  /** GetChunkBuffer. A declared total that differs from the resident one
      replaces the buffer in place and is not held against the transfer bound. */
  function Admit(s: State, cfg: Config, id: nat, total: nat, now: int): (r: (Admission, State))
    ensures r.0.Admitted? ==> id in r.1.cache
    ensures r.0.Denied? ==> !r.0.reason.Poisoned? && !r.0.reason.Violation()
  {
    if total == 0 then (Denied(TotalNonPositive), s)
    else if total > cfg.MaxBytes() then (Denied(TotalTooLarge), s)
    else if id in s.cache then
      var b := if s.cache[id].buffer.total == total then s.cache[id].buffer else FreshBuffer(total);
      (Admitted, s.(cache := s.cache[id := Transfer(b, now)]))
    else
      var s1 := if |s.cache| >= cfg.MaxTransfers() then Prune(s, cfg, now) else s;
      if |s1.cache| >= cfg.MaxTransfers() then (Denied(TooManyTransfers), s1)
      else (Admitted, s1.(cache := s1.cache[id := Transfer(FreshBuffer(total), now)]))
  }

  /** PoisonTransfer up to its eviction: drop the transfer and, at the bound,
      prune. */
  function BeforePoison(s: State, cfg: Config, id: nat, now: int): State {
    var s0 := s.(cache := s.cache - {id});
    if |s0.poisoned| >= cfg.MaxPoisoned() then Prune(s0, cfg, now) else s0
  }

  predicate Evicts(s: State, cfg: Config, id: nat, now: int) {
    |BeforePoison(s, cfg, id, now).poisoned| >= cfg.MaxPoisoned()
  }

  predicate IsOldest(poisoned: map<nat, int>, id: nat) {
    id in poisoned && forall other :: other in poisoned ==> poisoned[id] <= poisoned[other]
  }

  /** Which entry map iteration may hand to the eviction. */
  predicate VictimOk(s: State, cfg: Config, id: nat, now: int, victim: nat) {
    Evicts(s, cfg, id, now) ==> IsOldest(BeforePoison(s, cfg, id, now).poisoned, victim)
  }

  function Poison(s: State, cfg: Config, id: nat, now: int, victim: nat): State {
    var s1 := BeforePoison(s, cfg, id, now);
    var p := if |s1.poisoned| >= cfg.MaxPoisoned() then s1.poisoned - {victim} else s1.poisoned;
    s1.(poisoned := p[id := now])
  }

  /** The clock readings one HandleChunk makes. */
  datatype Clock = Clock(check: int, admit: int, reject: int)

  /** State after the poison check and the admission, when both let f through. */
  function Admitting(s: State, cfg: Config, f: Frame, t: Clock): (r: (Admission, State))
    ensures r.0.Admitted? ==> f.id in r.1.cache
  {
    var (bad, s1) := CheckPoisoned(s, cfg, f.id, t.check);
    if bad then (Denied(Poisoned), s1) else Admit(s1, cfg, f.id, f.total, t.admit)
  }

  ghost predicate Legal(s: State, cfg: Config, f: Frame, t: Clock, victim: nat) {
    VictimOk(Admitting(s, cfg, f, t).1, cfg, f.id, t.reject, victim)
  }

  /** HandleChunk after admission: the mutex section and what follows it. */
  ghost function Conclude(s: State, cfg: Config, f: Frame, t: Clock, victim: nat): (Outcome, State)
    requires f.id in s.cache
  {
    var tr := s.cache[f.id];
    var (got, b) := Receive(tr.buffer, f);
    match got
    case Rejected(reason) => (Refused(reason), Poison(s, cfg, f.id, t.reject, victim))
    case Stored(complete) =>
      if complete then (Dispatched(b.data, f.msgType), s.(cache := s.cache - {f.id}))
      else (Acked, s.(cache := s.cache[f.id := tr.(buffer := b)]))
  }

  /** HandleChunk with no other goroutine between its sections. */
  ghost function HandleChunk(s: State, cfg: Config, f: Frame, t: Clock, victim: nat): (Outcome, State) {
    var (adm, s1) := Admitting(s, cfg, f, t);
    if adm.Denied? then (Refused(adm.reason), s1) else Conclude(s1, cfg, f, t, victim)
  }

  datatype Event = Chunk(frame: Frame, clock: Clock, victim: nat) | Sweep(now: int)

  ghost predicate LegalEvent(s: State, cfg: Config, e: Event) {
    e.Chunk? ==> Legal(s, cfg, e.frame, e.clock, e.victim)
  }

  ghost function Step(s: State, cfg: Config, e: Event): State {
    match e
    case Chunk(f, t, victim) => HandleChunk(s, cfg, f, t, victim).1
    case Sweep(now) => Prune(s, cfg, now)
  }

  ghost function Run(s: State, cfg: Config, es: seq<Event>): State
    decreases |es|
  {
    if es == [] then s else Run(Step(s, cfg, es[0]), cfg, es[1..])
  }

  ghost predicate LegalRun(s: State, cfg: Config, es: seq<Event>)
    decreases |es|
  {
    es == [] || (LegalEvent(s, cfg, es[0]) && LegalRun(Step(s, cfg, es[0]), cfg, es[1..]))
  }
}
