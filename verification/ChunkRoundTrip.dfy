/** The frames of one payload, in any order, with any number of exact repeats
    and interleaved with arbitrary traffic on other ids, put that payload back
    together exactly once. */
module ChunkRoundTrip {
  import opened Segments
  import opened ChunkProtocol
  import opened ChunkInvariants
  import opened ChunkSender

  ghost predicate Apart(a: Segment, b: Segment) {
    a.End() <= b.Offset || b.End() <= a.Offset
  }

  ghost predicate Piece(f: Frame, job: Job) {
    && f.id == job.id && f.total == |job.payload| && f.msgType == job.msgType
    && |f.data| > 0 && f.Range().End() <= |job.payload|
    && f.data == job.payload[f.offset..f.Range().End()]
  }

  /** The ranges a list of frames carries. */
  ghost function Ranges(fs: seq<Frame>): set<Segment> { set f | f in fs :: f.Range() }

  ghost predicate Reaches(ranges: set<Segment>, k: int) {
    exists seg :: seg in ranges && seg.Has(k)
  }

  /** A tiling's frames all carry the job, keep apart, and miss no byte. */
  lemma {:induction false} TilesPartition(fs: seq<Frame>, job: Job, from: nat)
    requires Tiles(fs, job, from)
    ensures forall f :: f in fs ==> Piece(f, job) && from <= f.offset
    ensures forall p, q :: p in Ranges(fs) && q in Ranges(fs) && p != q ==> Apart(p, q)
    ensures forall k :: from <= k < |job.payload| ==> Reaches(Ranges(fs), k)
  {
    if fs != [] {
      var rest := fs[1..];
      var next := from + |fs[0].data|;
      TilesPartition(rest, job, next);
      assert Ranges(fs) == Ranges(rest) + {fs[0].Range()};
      forall k | from <= k < |job.payload| ensures Reaches(Ranges(fs), k) {
        if k < next {
          assert fs[0].Range() in Ranges(fs) && fs[0].Range().Has(k);
        } else {
          assert Reaches(Ranges(rest), k);
          var seg :| seg in Ranges(rest) && seg.Has(k);
          assert seg in Ranges(fs);
        }
      }
    }
  }

  /** b holds exactly the ranges of seen, with the payload's own bytes. */
  ghost predicate Holds(b: Buffer, job: Job, seen: set<Segment>) {
    && Unfinished(b) && b.total == |job.payload|
    && (forall seg :: seg in b.segments <==> seg in seen)
    && Faithful(b, job)
  }

  ghost predicate Faithful(b: Buffer, job: Job) {
    |b.data| == |job.payload| &&
    forall k :: 0 <= k < |b.data| && Covers(b.segments, k) ==> b.data[k] == job.payload[k]
  }

  lemma UnseenIsFree(b: Buffer, fs: seq<Frame>, job: Job, seen: set<Segment>, f: Frame)
    requires Tiles(fs, job, 0) && Holds(b, job, seen) && seen <= Ranges(fs) && f in fs && f.Range() !in seen
    ensures Free(b.segments, f.Range())
  {
    TilesPartition(fs, job, 0);
    forall k | f.Range().Has(k) ensures !Covers(b.segments, k) {
      forall i | 0 <= i < |b.segments| ensures !b.segments[i].Has(k) {
        assert b.segments[i] in seen;
        assert Apart(f.Range(), b.segments[i]);
      }
    }
  }

  /** Every byte is claimed once the last missing range is in, not before. */
  lemma CoveredIffAll(segs: seq<Segment>, fs: seq<Frame>, job: Job, seen: set<Segment>)
    requires Tiles(fs, job, 0) && seen <= Ranges(fs)
    requires forall seg :: seg in segs <==> seg in seen
    ensures (forall k :: 0 <= k < |job.payload| ==> Covers(segs, k)) <==> seen == Ranges(fs)
  {
    TilesPartition(fs, job, 0);
    if seen == Ranges(fs) {
      forall k | 0 <= k < |job.payload| ensures Covers(segs, k) {
        assert Reaches(Ranges(fs), k);
        var seg :| seg in Ranges(fs) && seg.Has(k);
        assert seg in segs;
      }
    } else {
      var seg :| seg in Ranges(fs) && seg !in seen;
      forall i | 0 <= i < |segs| ensures !segs[i].Has(seg.Offset) {
        assert segs[i] in seen;
        assert Apart(segs[i], seg);
      }
      assert !Covers(segs, seg.Offset);
    }
  }

  lemma FaithfulNew(b: Buffer, job: Job, f: Frame)
    requires GoodBuffer(b) && Faithful(b, job) && Piece(f, job) && Free(b.segments, f.Range())
    ensures Faithful(b.(data := Splice(b.data, f.offset, f.data), segments := Record(b.segments, f.Range())), job)
  {
    RecordNew(b.segments, f.Range(), b.total);
  }

  /** A retransmit under the mutex: nothing moves, nothing completes. */
  lemma ReceiveAgain(b: Buffer, fs: seq<Frame>, job: Job, seen: set<Segment>, f: Frame)
    requires Tiles(fs, job, 0) && Holds(b, job, seen) && seen <= Ranges(fs) && f in fs && f.Range() in seen
    ensures Receive(b, f) == (Stored(false), b) && seen != Ranges(fs)
  {
    TilesPartition(fs, job, 0);
    CoveredIffAll(b.segments, fs, job, seen);
    CompleteIffCovered(b.segments, b.total);
  }

  /** A range not seen before is claimed; it completes iff it was the last. */
  lemma ReceiveNew(b: Buffer, fs: seq<Frame>, job: Job, seen: set<Segment>, f: Frame)
    requires Tiles(fs, job, 0) && Holds(b, job, seen) && seen <= Ranges(fs) && f in fs && f.Range() !in seen
    ensures var (got, b') := Receive(b, f); var now := seen + {f.Range()};
      && got == Stored(now == Ranges(fs)) && Faithful(b', job)
      && (forall seg :: seg in b'.segments <==> seg in now)
      && (now == Ranges(fs) ==> forall k :: 0 <= k < b.total ==> Covers(b'.segments, k))
  {
    TilesPartition(fs, job, 0);
    UnseenIsFree(b, fs, job, seen, f);
    FaithfulNew(b, job, f);
    RecordHas(b.segments, f.Range());
    RecordNew(b.segments, f.Range(), b.total);
    CoveredIffAll(Record(b.segments, f.Range()), fs, job, seen + {f.Range()});
    CompleteIffCovered(Record(b.segments, f.Range()), b.total);
  }

  /** One frame of the job under the mutex. */
  lemma ReceiveFrame(b: Buffer, fs: seq<Frame>, job: Job, seen: set<Segment>, f: Frame)
    requires Tiles(fs, job, 0) && Holds(b, job, seen) && seen <= Ranges(fs) && f in fs
    ensures var (got, b') := Receive(b, f); var now := seen + {f.Range()};
      && got == Stored(now == Ranges(fs))
      && (now == Ranges(fs) ==> b'.data == job.payload)
      && (now != Ranges(fs) ==> Holds(b', job, now))
  {
    ReceiveKeeps(b, f);
    if f.Range() in seen {
      ReceiveAgain(b, fs, job, seen, f);
      assert seen + {f.Range()} == seen;
    } else {
      ReceiveNew(b, fs, job, seen, f);
    }
  }

  /** Where a job stands: seen is what has arrived of it. */
  ghost predicate Progress(s: State, cfg: Config, job: Job, seen: set<Segment>) {
    && Inv(s, cfg) && job.id !in s.poisoned
    && if seen == {} then job.id !in s.cache
       else job.id in s.cache && Holds(s.cache[job.id].buffer, job, seen)
  }

  /** Other traffic may run, provided it does not let the job's transfer go
      stale before a prune; its first frame needs room under the bound. */
  ghost predicate Tolerates(s: State, cfg: Config, job: Job, fs: seq<Frame>, e: Event) {
    match e
    case Sweep(now) => FreshAt(s, cfg, job.id, now)
    case Chunk(f, t, _) =>
      if f.id == job.id then
        f in fs && (f.id in s.cache || HasRoom(s, cfg, t.admit))
      else
        FreshAt(s, cfg, job.id, t.admit) && FreshAt(s, cfg, job.id, t.reject)
  }

  ghost predicate FreshAt(s: State, cfg: Config, id: nat, now: int) {
    id in s.cache ==> now - s.cache[id].lastAccess <= cfg.Ttl()
  }

  ghost predicate HasRoom(s: State, cfg: Config, now: int) {
    |s.cache| < cfg.MaxTransfers() || |Prune(s, cfg, now).cache| < cfg.MaxTransfers()
  }

  ghost function Arrived(seen: set<Segment>, job: Job, e: Event): set<Segment> {
    if e.Chunk? && e.frame.id == job.id then seen + {e.frame.Range()} else seen
  }

  lemma OthersLeaveItAlone(s: State, cfg: Config, job: Job, fs: seq<Frame>, seen: set<Segment>, e: Event)
    requires Progress(s, cfg, job, seen) && LegalEvent(s, cfg, e) && Tolerates(s, cfg, job, fs, e)
    requires !(e.Chunk? && e.frame.id == job.id)
    ensures Progress(Step(s, cfg, e), cfg, job, seen)
  {
    StepKeeps(s, cfg, e);
    if e.Chunk? {
      AdmittingElsewhere(s, cfg, e.frame, e.clock, job.id);
      var (adm, s1) := Admitting(s, cfg, e.frame, e.clock);
      if adm.Admitted? {
        ConcludeElsewhere(s1, cfg, e.frame, e.clock, e.victim, job.id);
      }
    }
  }

  lemma AdmittingElsewhere(s: State, cfg: Config, f: Frame, t: Clock, id: nat)
    requires f.id != id && id !in s.poisoned && FreshAt(s, cfg, id, t.admit)
    ensures var s1 := Admitting(s, cfg, f, t).1;
      && id !in s1.poisoned
      && (id in s1.cache <==> id in s.cache)
      && (id in s.cache ==> s1.cache[id] == s.cache[id])
  {
  }

  lemma ConcludeElsewhere(s: State, cfg: Config, f: Frame, t: Clock, victim: nat, id: nat)
    requires f.id in s.cache && f.id != id && id !in s.poisoned && FreshAt(s, cfg, id, t.reject)
    ensures var s' := Conclude(s, cfg, f, t, victim).1;
      && id !in s'.poisoned
      && (id in s'.cache <==> id in s.cache)
      && (id in s.cache ==> s'.cache[id] == s.cache[id])
  {
  }

  lemma FirstFrameOpens(s: State, cfg: Config, job: Job, fs: seq<Frame>, seen: set<Segment>, f: Frame, t: Clock)
    requires Tiles(fs, job, 0) && f in fs && |job.payload| <= cfg.MaxBytes()
    requires Progress(s, cfg, job, seen) && (f.id in s.cache || HasRoom(s, cfg, t.admit))
    ensures var (adm, s1) := Admitting(s, cfg, f, t);
      && adm.Admitted? && Inv(s1, cfg) && job.id !in s1.poisoned && job.id in s1.cache
      && Holds(s1.cache[job.id].buffer, job, seen)
  {
    TilesPartition(fs, job, 0);
    AdmittingKeeps(s, cfg, f, t);
    AdmittingEffect(s, cfg, f, t);
    FreshIsUnfinished(f.total);
    assert forall k :: !Covers(FreshBuffer(f.total).segments, k);
  }

  /** One frame of the job: acknowledged while ranges are missing; the one that
      brings the last missing range dispatches the payload and closes the id. */
  lemma FrameArrives(s: State, cfg: Config, job: Job, fs: seq<Frame>, seen: set<Segment>,
                     f: Frame, t: Clock, victim: nat)
    requires Tiles(fs, job, 0) && f in fs && |job.payload| <= cfg.MaxBytes()
    requires Progress(s, cfg, job, seen) && seen <= Ranges(fs) && Legal(s, cfg, f, t, victim)
    requires f.id in s.cache || HasRoom(s, cfg, t.admit)
    ensures var (out, s') := HandleChunk(s, cfg, f, t, victim); var now := seen + {f.Range()};
      && (now == Ranges(fs) ==>
            out == Dispatched(job.payload, job.msgType) && Progress(s', cfg, job, {}))
      && (now != Ranges(fs) ==> out == Acked && Progress(s', cfg, job, now))
  {
    TilesPartition(fs, job, 0);
    HandleChunkKeeps(s, cfg, f, t, victim);
    FirstFrameOpens(s, cfg, job, fs, seen, f, t);
    var s1 := Admitting(s, cfg, f, t).1;
    ReceiveFrame(s1.cache[job.id].buffer, fs, job, seen, f);
  }

  ghost predicate ToleratesRun(s: State, cfg: Config, job: Job, fs: seq<Frame>, es: seq<Event>)
    decreases |es|
  {
    es == [] || (Tolerates(s, cfg, job, fs, es[0]) && ToleratesRun(Step(s, cfg, es[0]), cfg, job, fs, es[1..]))
  }

  ghost function ArrivedRun(seen: set<Segment>, job: Job, es: seq<Event>): set<Segment>
    decreases |es|
  {
    if es == [] then seen else ArrivedRun(Arrived(seen, job, es[0]), job, es[1..])
  }

  /** The answers given on one id. */
  ghost function Answers(s: State, cfg: Config, es: seq<Event>, id: nat): seq<Outcome>
    decreases |es|
  {
    if es == [] then []
    else
      (if es[0].Chunk? && es[0].frame.id == id
       then [HandleChunk(s, cfg, es[0].frame, es[0].clock, es[0].victim).0] else [])
      + Answers(Step(s, cfg, es[0]), cfg, es[1..], id)
  }

  lemma {:induction false} ArrivedGrows(seen: set<Segment>, job: Job, es: seq<Event>)
    ensures seen <= ArrivedRun(seen, job, es)
    decreases |es|
  {
    if es != [] {
      ArrivedGrows(Arrived(seen, job, es[0]), job, es[1..]);
    }
  }

  /** One event of such a run. */
  lemma PartialStep(s: State, cfg: Config, job: Job, fs: seq<Frame>, seen: set<Segment>, e: Event)
    requires Tiles(fs, job, 0) && |job.payload| <= cfg.MaxBytes()
    requires Progress(s, cfg, job, seen) && seen <= Ranges(fs)
    requires LegalEvent(s, cfg, e) && Tolerates(s, cfg, job, fs, e) && Arrived(seen, job, e) < Ranges(fs)
    ensures Progress(Step(s, cfg, e), cfg, job, Arrived(seen, job, e))
    ensures e.Chunk? && e.frame.id == job.id ==> HandleChunk(s, cfg, e.frame, e.clock, e.victim).0 == Acked
  {
    if e.Chunk? && e.frame.id == job.id {
      FrameArrives(s, cfg, job, fs, seen, e.frame, e.clock, e.victim);
    } else {
      OthersLeaveItAlone(s, cfg, job, fs, seen, e);
    }
  }

  lemma AnswersAcked(s: State, cfg: Config, es: seq<Event>, id: nat)
    requires es != []
    requires es[0].Chunk? && es[0].frame.id == id ==>
      HandleChunk(s, cfg, es[0].frame, es[0].clock, es[0].victim).0 == Acked
    requires forall out :: out in Answers(Step(s, cfg, es[0]), cfg, es[1..], id) ==> out == Acked
    ensures forall out :: out in Answers(s, cfg, es, id) ==> out == Acked
  {
    var rest := Answers(Step(s, cfg, es[0]), cfg, es[1..], id);
    assert Answers(s, cfg, es, id) == rest || Answers(s, cfg, es, id) == [Acked] + rest;
  }

  /** While a range is missing every frame of the job is acknowledged, nothing
      is dispatched for it, and its partial state is exactly what arrived. */
  lemma {:induction false} PartialRun(s: State, cfg: Config, job: Job, fs: seq<Frame>, seen: set<Segment>, es: seq<Event>)
    requires Tiles(fs, job, 0) && |job.payload| <= cfg.MaxBytes()
    requires Progress(s, cfg, job, seen) && seen <= Ranges(fs)
    requires LegalRun(s, cfg, es) && ToleratesRun(s, cfg, job, fs, es)
    requires ArrivedRun(seen, job, es) < Ranges(fs)
    ensures Progress(Run(s, cfg, es), cfg, job, ArrivedRun(seen, job, es))
    ensures forall out :: out in Answers(s, cfg, es, job.id) ==> out == Acked
    decreases |es|
  {
    if es != [] {
      var e := es[0];
      var now := Arrived(seen, job, e);
      ArrivedGrows(now, job, es[1..]);
      PartialStep(s, cfg, job, fs, seen, e);
      PartialRun(Step(s, cfg, e), cfg, job, fs, now, es[1..]);
      AnswersAcked(s, cfg, es, job.id);
    }
  }

  /** The round trip: what the split loop emits, however it is reordered and
      repeated on the way, is dispatched exactly when the last missing frame
      arrives, as the original payload under the original message type. The id is
      then open again, so at-most-once holds of a buffer and not of an id. */
  lemma RoundTrip(s: State, cfg: Config, job: Job, cs: nat, es: seq<Event>, last: Event)
    requires 0 < cs && 0 < |job.payload| <= cfg.MaxBytes() && |job.payload| < 0x1_0000_0000
    requires Inv(s, cfg) && job.id !in s.cache && job.id !in s.poisoned
    requires LegalRun(s, cfg, es) && ToleratesRun(s, cfg, job, Frames(job, 0, cs), es)
    requires ArrivedRun({}, job, es) < Ranges(Frames(job, 0, cs))
    requires var s1 := Run(s, cfg, es);
      LegalEvent(s1, cfg, last) && Tolerates(s1, cfg, job, Frames(job, 0, cs), last)
    requires last.Chunk? && last.frame.id == job.id
    requires Arrived(ArrivedRun({}, job, es), job, last) == Ranges(Frames(job, 0, cs))
    ensures forall out :: out in Answers(s, cfg, es, job.id) ==> out == Acked
    ensures HandleChunk(Run(s, cfg, es), cfg, last.frame, last.clock, last.victim).0
            == Dispatched(job.payload, job.msgType)
    ensures Progress(Step(Run(s, cfg, es), cfg, last), cfg, job, {})
  {
    var fs := Frames(job, 0, cs);
    FramesTile(job, 0, cs);
    PartialRun(s, cfg, job, fs, {}, es);
    FrameArrives(Run(s, cfg, es), cfg, job, fs, ArrivedRun({}, job, es), last.frame, last.clock, last.victim);
  }

  // ----- the plain case: the frames as they are sent, on one fixed clock

  function Chunks(fs: seq<Frame>, now: int): (es: seq<Event>)
    ensures |es| == |fs|
  {
    if fs == [] then [] else [Chunk(fs[0], Clock(now, now, now), 0)] + Chunks(fs[1..], now)
  }

  lemma {:induction false} TilesAscend(fs: seq<Frame>, job: Job, from: nat)
    requires Tiles(fs, job, from)
    ensures forall i, j :: 0 <= i < j < |fs| ==> fs[i].offset < fs[j].offset
  {
    if fs != [] {
      var next := from + |fs[0].data|;
      TilesAscend(fs[1..], job, next);
      TilesPartition(fs[1..], job, next);
      forall i, j | 0 <= i < j < |fs| ensures fs[i].offset < fs[j].offset {
        assert fs[j] == fs[1..][j - 1] && fs[j] in fs[1..];
        if i > 0 { assert fs[i] == fs[1..][i - 1]; }
      }
    }
  }

  /** The ranges of the first k frames, and what the next one adds. */
  lemma RangesUpTo(fs: seq<Frame>, job: Job, k: nat)
    requires Tiles(fs, job, 0) && k < |fs|
    ensures Ranges(fs[..k + 1]) == Ranges(fs[..k]) + {fs[k].Range()}
    ensures Ranges(fs[..k + 1]) <= Ranges(fs)
    ensures Ranges(fs[..k + 1]) == Ranges(fs) <==> k + 1 == |fs|
  {
    assert fs[..k + 1] == fs[..k] + [fs[k]];
    if k + 1 < |fs| {
      TilesAscend(fs, job, 0);
      assert fs[k + 1].Range() in Ranges(fs);
      assert forall f :: f in fs[..k + 1] ==> f.offset < fs[k + 1].offset;
      assert fs[k + 1].Range() !in Ranges(fs[..k + 1]);
    } else {
      assert fs[..k + 1] == fs;
    }
  }

  /** A chunk of the job is acknowledged, or, the last one, dispatched. */
  ghost predicate Answered(s: State, cfg: Config, e: Event, job: Job, last: bool) {
    && e.Chunk? && e.frame.id == job.id && LegalEvent(s, cfg, e)
    && var (out, s') := HandleChunk(s, cfg, e.frame, e.clock, e.victim);
    && out == (if last then Dispatched(job.payload, job.msgType) else Acked)
    && (last ==> job.id !in s'.cache)
  }

  /** Every chunk of the run is acknowledged but the last, which dispatches the
      job and closes its id. */
  ghost predicate AckedThenDispatched(s: State, cfg: Config, es: seq<Event>, job: Job)
    decreases |es|
  {
    && es != [] && Answered(s, cfg, es[0], job, |es| == 1)
    && (|es| > 1 ==> AckedThenDispatched(Step(s, cfg, es[0]), cfg, es[1..], job))
  }

  lemma NoPoisonNoVictim(s: State, cfg: Config, f: Frame, t: Clock)
    requires s.poisoned == map[]
    ensures Legal(s, cfg, f, t, 0)
  {
    var s1 := Admitting(s, cfg, f, t).1;
    assert s1.poisoned == map[];
    assert BeforePoison(s1, cfg, f.id, t.reject).poisoned == map[];
  }

  lemma InOrderStep(s: State, cfg: Config, job: Job, fs: seq<Frame>, k: nat, e: Event)
    requires Tiles(fs, job, 0) && k < |fs| && |job.payload| <= cfg.MaxBytes()
    requires Progress(s, cfg, job, Ranges(fs[..k])) && s.poisoned == map[] && (k == 0 ==> s.cache == map[])
    requires e.Chunk? && e.frame == fs[k] && e.victim == 0
    ensures Answered(s, cfg, e, job, k + 1 == |fs|) && Step(s, cfg, e).poisoned == map[]
    ensures k + 1 < |fs| ==> Progress(Step(s, cfg, e), cfg, job, Ranges(fs[..k + 1]))
  {
    var f, t := e.frame, e.clock;
    NoPoisonNoVictim(s, cfg, f, t);
    RangesUpTo(fs, job, k);
    TilesPartition(fs, job, 0);
    SeenIsResident(s, cfg, job, fs, k);
    FrameArrives(s, cfg, job, fs, Ranges(fs[..k]), f, t, 0);
    KeepsClean(s, cfg, f, t);
  }

  lemma ChunksFrom(fs: seq<Frame>, k: nat, now: int)
    requires k < |fs|
    ensures var es := Chunks(fs[k..], now);
      es[0] == Chunk(fs[k], Clock(now, now, now), 0) && es[1..] == Chunks(fs[k + 1..], now)
  {
    assert fs[k..][1..] == fs[k + 1..];
  }

  /** An idle reassembler after the first k frames. */
  ghost function StateAt(cfg: Config, fs: seq<Frame>, k: nat, now: int): State
    requires k <= |fs|
  {
    if k == 0 then State(map[], map[])
    else Step(StateAt(cfg, fs, k - 1, now), cfg, Chunk(fs[k - 1], Clock(now, now, now), 0))
  }

  /** Ready for frame k: the frames before it are in, nothing is poisoned. */
  ghost predicate Ready(s: State, cfg: Config, job: Job, fs: seq<Frame>, k: nat)
    requires k <= |fs|
  {
    Progress(s, cfg, job, Ranges(fs[..k])) && s.poisoned == map[] && (k == 0 ==> s.cache == map[])
  }

  lemma ReadyNext(s: State, cfg: Config, job: Job, fs: seq<Frame>, k: nat, now: int)
    requires Tiles(fs, job, 0) && k + 1 < |fs| && |job.payload| <= cfg.MaxBytes() && Ready(s, cfg, job, fs, k)
    ensures Ready(Step(s, cfg, Chunk(fs[k], Clock(now, now, now), 0)), cfg, job, fs, k + 1)
  {
    InOrderStep(s, cfg, job, fs, k, Chunk(fs[k], Clock(now, now, now), 0));
  }

  lemma ReadyFirst(cfg: Config, job: Job, fs: seq<Frame>)
    requires Tiles(fs, job, 0)
    ensures Ready(State(map[], map[]), cfg, job, fs, 0)
  {
    assert Ranges(fs[..0]) == {};
  }

  lemma {:induction false} ReadyAt(cfg: Config, job: Job, fs: seq<Frame>, k: nat, now: int)
    requires Tiles(fs, job, 0) && k < |fs| && |job.payload| <= cfg.MaxBytes()
    ensures Ready(StateAt(cfg, fs, k, now), cfg, job, fs, k)
  {
    if k > 0 {
      ReadyAt(cfg, job, fs, k - 1, now);
      ReadyNext(StateAt(cfg, fs, k - 1, now), cfg, job, fs, k - 1, now);
    } else {
      ReadyFirst(cfg, job, fs);
    }
  }

  lemma AnsweredAt(cfg: Config, job: Job, fs: seq<Frame>, k: nat, now: int)
    requires Tiles(fs, job, 0) && k < |fs| && |job.payload| <= cfg.MaxBytes()
    ensures Answered(StateAt(cfg, fs, k, now), cfg, Chunk(fs[k], Clock(now, now, now), 0), job, k + 1 == |fs|)
  {
    ReadyAt(cfg, job, fs, k, now);
    InOrderStep(StateAt(cfg, fs, k, now), cfg, job, fs, k, Chunk(fs[k], Clock(now, now, now), 0));
  }

  lemma {:induction false} InOrderFrom(cfg: Config, job: Job, fs: seq<Frame>, k: nat, now: int)
    requires Tiles(fs, job, 0) && k < |fs| && |job.payload| <= cfg.MaxBytes()
    ensures AckedThenDispatched(StateAt(cfg, fs, k, now), cfg, Chunks(fs[k..], now), job)
    decreases |fs| - k
  {
    ChunksFrom(fs, k, now);
    AnsweredAt(cfg, job, fs, k, now);
    if k + 1 < |fs| {
      InOrderFrom(cfg, job, fs, k + 1, now);
    }
  }

  lemma SeenIsResident(s: State, cfg: Config, job: Job, fs: seq<Frame>, k: nat)
    requires k < |fs| && Progress(s, cfg, job, Ranges(fs[..k])) && (k == 0 ==> s.cache == map[])
    ensures job.id in s.cache || |s.cache| < cfg.MaxTransfers()
  {
    if k > 0 {
      assert fs[0] in fs[..k];
      assert fs[0].Range() in Ranges(fs[..k]);
    }
  }

  lemma KeepsClean(s: State, cfg: Config, f: Frame, t: Clock)
    requires s.poisoned == map[] && !HandleChunk(s, cfg, f, t, 0).0.Refused?
    ensures HandleChunk(s, cfg, f, t, 0).1.poisoned == map[]
  {
    assert Admitting(s, cfg, f, t).1.poisoned == map[];
  }

  /** A payload that is sent whole and in order into an idle reassembler comes
      out once, with the last frame, and leaves nothing behind: the conditions of
      the round trip are met by the ordinary run. */
  lemma InOrderDelivers(cfg: Config, job: Job, cs: nat, now: int)
    requires 0 < cs && 0 < |job.payload| <= cfg.MaxBytes() && |job.payload| < 0x1_0000_0000
    ensures AckedThenDispatched(State(map[], map[]), cfg, Chunks(Frames(job, 0, cs), now), job)
  {
    var fs := Frames(job, 0, cs);
    FramesTile(job, 0, cs);
    assert fs[0..] == fs;
    InOrderFrom(cfg, job, fs, 0, now);
  }
}
