/** The round trip in the direction Sender.Send is used: its frames, whatever is
    lost, reordered or sent again on the way, put together by the host. */
module HostRoundTrip {
  import opened Segments
  import opened ChunkProtocol
  import opened ChunkInvariants
  import opened ChunkSender
  import opened ChunkRoundTrip
  import opened ChunkMirror

  /** pm holds exactly the ranges of seen, with the payload's own bytes: it is the
      twin of a buffer that does. */
  ghost predicate HostHolds(pm: PartialMessage, job: Job, seen: set<Segment>) {
    pm.finalMsgType == job.msgType && exists b :: Holds(b, job, seen) && Twin(Transfer(b, pm.lastUpdate), pm)
  }

  /** Where a job stands on the host: seen is what has arrived of it. */
  ghost predicate HostProgress(r: Registry, job: Job, seen: set<Segment>) {
    && WellSized(r.partials) && job.id !in r.poisoned
    && if seen == {} then job.id !in r.partials
       else job.id in r.partials && HostHolds(r.partials[job.id], job, seen)
  }

  ghost predicate HostFreshAt(r: Registry, cfg: Config, id: nat, now: int) {
    id in r.partials ==> now - r.partials[id].lastUpdate <= cfg.Ttl()
  }

  ghost predicate HostHasRoom(r: Registry, cfg: Config, now: int) {
    |r.partials| < cfg.MaxTransfers() || |PruneRegistry(r, cfg, now).partials| < cfg.MaxTransfers()
  }

  /** An event the job survives: one of its frames with room for it, or anything
      at all on other ids and any sweep while the job's entry is fresh. */
  ghost predicate HostTolerates(r: Registry, cfg: Config, job: Job, fs: seq<Frame>, e: HostEvent) {
    match e
    case Cleanup(now) => HostFreshAt(r, cfg, job.id, now)
    case Arrive(f, now, _) =>
      if f.id == job.id then f in fs && (f.id in r.partials || HostHasRoom(r, cfg, now))
      else HostFreshAt(r, cfg, job.id, now)
  }

  ghost function HostArrived(seen: set<Segment>, job: Job, e: HostEvent): set<Segment> {
    if e.Arrive? && e.frame.id == job.id then seen + {e.frame.Range()} else seen
  }

  // ----- traffic that is not the job's

  lemma AdmitElsewhere(r: Registry, cfg: Config, f: Frame, now: int, id: nat)
    requires f.id != id && id !in r.poisoned && HostFreshAt(r, cfg, id, now)
    ensures var r1 := AdmitPartial(r, cfg, f, now).1;
      && id !in r1.poisoned
      && (id in r1.partials <==> id in r.partials)
      && (id in r.partials ==> r1.partials[id] == r.partials[id])
  {
  }

  lemma ConcludeElsewhere(r: Registry, cfg: Config, f: Frame, now: int, victim: nat, id: nat)
    requires WellSized(r.partials) && f.id in r.partials && f.id != id
    requires id !in r.poisoned && HostFreshAt(r, cfg, id, now)
    ensures var r' := ConcludePartial(r, cfg, f, now, victim).1;
      && id !in r'.poisoned
      && (id in r'.partials <==> id in r.partials)
      && (id in r.partials ==> r'.partials[id] == r.partials[id])
  {
  }

  lemma OthersLeaveHostAlone(r: Registry, cfg: Config, job: Job, fs: seq<Frame>, seen: set<Segment>, e: HostEvent)
    requires HostProgress(r, job, seen) && HostTolerates(r, cfg, job, fs, e)
    requires !(e.Arrive? && e.frame.id == job.id)
    ensures HostProgress(HostStep(r, cfg, e), job, seen)
  {
    match e
    case Cleanup(_) =>
    case Arrive(f, now, victim) =>
      AdmitElsewhere(r, cfg, f, now, job.id);
      var (adm, r1) := AdmitPartial(r, cfg, f, now);
      if adm.Admitted? {
        ConcludeElsewhere(r1, cfg, f, now, victim, job.id);
      }
  }

  // ----- the job's own frames

  lemma HoldsTouched(pm: PartialMessage, job: Job, seen: set<Segment>, now: int)
    requires HostHolds(pm, job, seen)
    ensures HostHolds(pm.(lastUpdate := now), job, seen)
  {
    var b :| Holds(b, job, seen) && Twin(Transfer(b, pm.lastUpdate), pm);
    assert Twin(Transfer(b, now), pm.(lastUpdate := now));
  }

  lemma FreshHolds(job: Job, now: int)
    requires |job.payload| > 0
    ensures HostHolds(FreshPartial(|job.payload|, job.msgType, now), job, {})
  {
    var b := FreshBuffer(|job.payload|);
    FreshIsUnfinished(|job.payload|);
    assert forall k :: !Covers(b.segments, k);
    assert Holds(b, job, {}) && Twin(Transfer(b, now), FreshPartial(|job.payload|, job.msgType, now));
  }

  lemma HostOpens(r: Registry, cfg: Config, job: Job, fs: seq<Frame>, seen: set<Segment>, f: Frame, now: int)
    requires Tiles(fs, job, 0) && f in fs && |job.payload| <= cfg.MaxBytes()
    requires HostProgress(r, job, seen) && (f.id in r.partials || HostHasRoom(r, cfg, now))
    ensures var (adm, r1) := AdmitPartial(r, cfg, f, now);
      && adm.Admitted? && WellSized(r1.partials) && job.id !in r1.poisoned && job.id in r1.partials
      && HostHolds(r1.partials[job.id], job, seen)
  {
    TilesPartition(fs, job, 0);
    if seen == {} {
      FreshHolds(job, now);
    } else {
      HoldsTouched(r.partials[job.id], job, seen, now);
    }
  }

  /** One frame of the job put to its entry. */
  lemma HostReceives(pm: PartialMessage, fs: seq<Frame>, job: Job, seen: set<Segment>, f: Frame)
    requires Tiles(fs, job, 0) && f in fs && seen <= Ranges(fs)
    requires HostHolds(pm, job, seen) && MapDisjoint(pm.receivedSegments) && pm.totalSize == |pm.buffer|
    ensures var (got, pm') := ReceivePartial(pm, f); var now := seen + {f.Range()};
      && got == Stored(now == Ranges(fs)) && pm'.finalMsgType == job.msgType
      && (now == Ranges(fs) ==> pm'.buffer == job.payload)
      && (now != Ranges(fs) ==> HostHolds(pm', job, now))
  {
    var b :| Holds(b, job, seen) && Twin(Transfer(b, pm.lastUpdate), pm);
    ReceiveFrame(b, fs, job, seen, f);
    TwinReceive(Transfer(b, pm.lastUpdate), pm, f);
    var b', pm' := Receive(b, f).1, ReceivePartial(pm, f).1;
    assert pm'.lastUpdate == pm.lastUpdate;
    if seen + {f.Range()} != Ranges(fs) {
      assert Holds(b', job, seen + {f.Range()}) && Twin(Transfer(b', pm'.lastUpdate), pm');
    }
  }

  /** Acknowledged while ranges are missing; the frame that brings the last one
      has the payload dispatched under its type and the id closed. */
  lemma HostFrameArrives(r: Registry, cfg: Config, job: Job, fs: seq<Frame>, seen: set<Segment>,
                         f: Frame, now: int, victim: nat)
    requires Tiles(fs, job, 0) && f in fs && |job.payload| <= cfg.MaxBytes()
    requires HostProgress(r, job, seen) && seen <= Ranges(fs)
    requires f.id in r.partials || HostHasRoom(r, cfg, now)
    ensures var (out, r') := HandlePartial(r, cfg, f, now, victim); var got := seen + {f.Range()};
      && (got == Ranges(fs) ==> out == Dispatched(job.payload, job.msgType) && HostProgress(r', job, {}))
      && (got != Ranges(fs) ==> out == Acked && HostProgress(r', job, got))
  {
    TilesPartition(fs, job, 0);
    HostKeeps(r, cfg, f, now, victim);
    HostOpens(r, cfg, job, fs, seen, f, now);
    HostReceives(AdmitPartial(r, cfg, f, now).1.partials[job.id], fs, job, seen, f);
  }

  // ----- runs

  ghost function HostRun(r: Registry, cfg: Config, es: seq<HostEvent>): (r': Registry)
    requires WellSized(r.partials)
    ensures WellSized(r'.partials)
    decreases |es|
  {
    if es == [] then r else HostRun(HostStep(r, cfg, es[0]), cfg, es[1..])
  }

  ghost predicate HostToleratesRun(r: Registry, cfg: Config, job: Job, fs: seq<Frame>, es: seq<HostEvent>)
    requires WellSized(r.partials)
    decreases |es|
  {
    es == [] ||
    (HostTolerates(r, cfg, job, fs, es[0]) && HostToleratesRun(HostStep(r, cfg, es[0]), cfg, job, fs, es[1..]))
  }

  ghost function HostArrivedRun(seen: set<Segment>, job: Job, es: seq<HostEvent>): set<Segment>
    decreases |es|
  {
    if es == [] then seen else HostArrivedRun(HostArrived(seen, job, es[0]), job, es[1..])
  }

  /** Every answer the run gives on the job's id acknowledges. */
  ghost predicate AllAcked(r: Registry, cfg: Config, es: seq<HostEvent>, id: nat)
    requires WellSized(r.partials)
    decreases |es|
  {
    es == [] ||
    ((es[0].Arrive? && es[0].frame.id == id ==>
        HandlePartial(r, cfg, es[0].frame, es[0].now, es[0].victim).0 == Acked)
     && AllAcked(HostStep(r, cfg, es[0]), cfg, es[1..], id))
  }

  lemma {:induction false} HostArrivedGrows(seen: set<Segment>, job: Job, es: seq<HostEvent>)
    ensures seen <= HostArrivedRun(seen, job, es)
    decreases |es|
  {
    if es != [] {
      HostArrivedGrows(HostArrived(seen, job, es[0]), job, es[1..]);
    }
  }

  /** While a range is missing every frame of the job is acknowledged, and the
      host's entry is exactly what arrived. */
  lemma {:induction false} HostPartialRun(r: Registry, cfg: Config, job: Job, fs: seq<Frame>, seen: set<Segment>, es: seq<HostEvent>)
    requires Tiles(fs, job, 0) && |job.payload| <= cfg.MaxBytes()
    requires HostProgress(r, job, seen) && seen <= Ranges(fs)
    requires HostToleratesRun(r, cfg, job, fs, es) && HostArrivedRun(seen, job, es) < Ranges(fs)
    ensures HostProgress(HostRun(r, cfg, es), job, HostArrivedRun(seen, job, es))
    ensures AllAcked(r, cfg, es, job.id)
    decreases |es|
  {
    if es != [] {
      var e, now := es[0], HostArrived(seen, job, es[0]);
      HostArrivedGrows(now, job, es[1..]);
      if e.Arrive? && e.frame.id == job.id {
        HostFrameArrives(r, cfg, job, fs, seen, e.frame, e.now, e.victim);
      } else {
        OthersLeaveHostAlone(r, cfg, job, fs, seen, e);
      }
      HostPartialRun(HostStep(r, cfg, e), cfg, job, fs, now, es[1..]);
    }
  }

  /** The production round trip. The frames of a split reach the host in any order
      and any number of times, among arbitrary traffic on other ids: they are
      acknowledged until the last missing one arrives, and that one has the
      original payload dispatched under its type. The id is then open again. */
  lemma HostRoundTrips(r: Registry, cfg: Config, job: Job, cs: nat, es: seq<HostEvent>, last: HostEvent)
    requires 0 < cs && 0 < |job.payload| <= cfg.MaxBytes() && |job.payload| < 0x1_0000_0000
    requires HostProgress(r, job, {})
    requires HostToleratesRun(r, cfg, job, Frames(job, 0, cs), es)
    requires HostArrivedRun({}, job, es) < Ranges(Frames(job, 0, cs))
    requires HostTolerates(HostRun(r, cfg, es), cfg, job, Frames(job, 0, cs), last)
    requires last.Arrive? && last.frame.id == job.id
    requires HostArrived(HostArrivedRun({}, job, es), job, last) == Ranges(Frames(job, 0, cs))
    ensures AllAcked(r, cfg, es, job.id)
    ensures var (out, r') := HandlePartial(HostRun(r, cfg, es), cfg, last.frame, last.now, last.victim);
      out == Dispatched(job.payload, job.msgType) && HostProgress(r', job, {})
  {
    var fs := Frames(job, 0, cs);
    FramesTile(job, 0, cs);
    HostPartialRun(r, cfg, job, fs, {}, es);
    HostFrameArrives(HostRun(r, cfg, es), cfg, job, fs, HostArrivedRun({}, job, es), last.frame, last.now, last.victim);
  }

  // ----- from a successful Send to the dispatch

  lemma {:induction false} ToleratesCalls(r: Registry, cfg: Config, job: Job, calls: seq<Frame>, fs: seq<Frame>, es: seq<HostEvent>)
    requires WellSized(r.partials) && HostToleratesRun(r, cfg, job, calls, es)
    requires forall f :: f in calls ==> f in fs
    ensures HostToleratesRun(r, cfg, job, fs, es)
    decreases |es|
  {
    if es != [] {
      ToleratesCalls(HostStep(r, cfg, es[0]), cfg, job, calls, fs, es[1..]);
    }
  }

  /** The run up to its n-th event, and that event. */
  lemma {:induction false} RunUpTo(r: Registry, cfg: Config, job: Job, fs: seq<Frame>, es: seq<HostEvent>, n: nat)
    requires WellSized(r.partials) && HostToleratesRun(r, cfg, job, fs, es) && n < |es|
    ensures HostToleratesRun(r, cfg, job, fs, es[..n])
    ensures HostTolerates(HostRun(r, cfg, es[..n]), cfg, job, fs, es[n])
    decreases n
  {
    if n > 0 {
      RunUpTo(HostStep(r, cfg, es[0]), cfg, job, fs, es[1..], n - 1);
      assert es[..n][1..] == es[1..][..n - 1];
    }
  }

  /** The event that brings the last missing range. */
  lemma {:induction false} LastMissing(seen: set<Segment>, job: Job, es: seq<HostEvent>, all: set<Segment>) returns (n: nat)
    requires seen < all && HostArrivedRun(seen, job, es) == all
    ensures n < |es| && HostArrivedRun(seen, job, es[..n]) < all
    ensures HostArrived(HostArrivedRun(seen, job, es[..n]), job, es[n]) == all
    decreases |es|
  {
    var next := HostArrived(seen, job, es[0]);
    HostArrivedGrows(next, job, es[1..]);
    n := 0;
    if next != all {
      var m := LastMissing(next, job, es[1..], all);
      n := m + 1;
      assert es[..n][1..] == es[1..][..m];
    }
  }

  ghost predicate Brought(es: seq<HostEvent>, f: Frame) {
    exists i :: 0 <= i < |es| && es[i].Arrive? && es[i].frame == f
  }

  lemma {:induction false} BroughtArrives(seen: set<Segment>, job: Job, es: seq<HostEvent>, i: nat)
    requires i < |es| && es[i].Arrive? && es[i].frame.id == job.id
    ensures es[i].frame.Range() in HostArrivedRun(seen, job, es)
    decreases |es|
  {
    var next := HostArrived(seen, job, es[0]);
    if i == 0 {
      HostArrivedGrows(next, job, es[1..]);
    } else {
      BroughtArrives(next, job, es[1..], i - 1);
    }
  }

  lemma {:induction false} OnlyRanges(r: Registry, cfg: Config, seen: set<Segment>, job: Job, fs: seq<Frame>, es: seq<HostEvent>)
    requires WellSized(r.partials) && HostToleratesRun(r, cfg, job, fs, es) && seen <= Ranges(fs)
    ensures HostArrivedRun(seen, job, es) <= Ranges(fs)
    decreases |es|
  {
    if es != [] {
      OnlyRanges(HostStep(r, cfg, es[0]), cfg, HostArrived(seen, job, es[0]), job, fs, es[1..]);
    }
  }

  lemma AllArrive(r: Registry, cfg: Config, job: Job, fs: seq<Frame>, es: seq<HostEvent>)
    requires WellSized(r.partials) && HostToleratesRun(r, cfg, job, fs, es) && Tiles(fs, job, 0)
    requires forall f :: f in fs ==> Brought(es, f)
    ensures HostArrivedRun({}, job, es) == Ranges(fs)
  {
    TilesPartition(fs, job, 0);
    OnlyRanges(r, cfg, {}, job, fs, es);
    forall seg | seg in Ranges(fs) ensures seg in HostArrivedRun({}, job, es) {
      var f :| f in fs && f.Range() == seg;
      var i :| 0 <= i < |es| && es[i].Arrive? && es[i].frame == f;
      BroughtArrives({}, job, es, i);
    }
  }

  /** A Send that has succeeded, on a link whose acknowledgements are honest. Only
      its calls, acknowledged or not, reach the host on this id, in any order and
      among any other traffic, and each acknowledged frame has reached it: then
      there is an event that has the original payload dispatched, and every
      earlier frame of the transfer has been acknowledged. */
  lemma SentIsDispatched(r: Registry, cfg: Config, job: Job, cs: nat, was: seq<Frame>, calls: seq<Frame>,
                         accepts: nat -> bool, limit: nat, es: seq<HostEvent>) returns (n: nat)
    requires 0 < cs && 0 < |job.payload| <= cfg.MaxBytes() && |job.payload| < 0x1_0000_0000
    requires HostProgress(r, job, {})
    requires SentUpTo(was, calls, accepts, Frames(job, 0, cs), limit, |Frames(job, 0, cs)|, false)
    requires HostToleratesRun(r, cfg, job, calls[|was|..], es)
    requires forall f :: f in Acknowledged(calls, accepts)[|Acknowledged(was, accepts)|..] ==> Brought(es, f)
    ensures n < |es| && AllAcked(r, cfg, es[..n], job.id) && es[n].Arrive?
    ensures HandlePartial(HostRun(r, cfg, es[..n]), cfg, es[n].frame, es[n].now, es[n].victim).0
            == Dispatched(job.payload, job.msgType)
  {
    var fs := Frames(job, 0, cs);
    FramesTile(job, 0, cs);
    assert fs[..|fs|] == fs;
    assert Acknowledged(calls, accepts)[|Acknowledged(was, accepts)|..] == fs;
    ArrivalsAreFrames(was, calls, accepts, fs, limit, |fs|, false);
    ToleratesCalls(r, cfg, job, calls[|was|..], fs, es);
    AllArrive(r, cfg, job, fs, es);
    assert fs[0].Range() in Ranges(fs);
    n := LastMissing({}, job, es, Ranges(fs));
    RunUpTo(r, cfg, job, fs, es, n);
    HostRoundTrips(r, cfg, job, cs, es[..n], es[n]);
  }

  lemma OneRangeIffOneFrame(fs: seq<Frame>, job: Job, f: Frame)
    requires Tiles(fs, job, 0) && f in fs
    ensures Ranges(fs) == {f.Range()} <==> |fs| == 1
  {
    TilesAscend(fs, job, 0);
    if |fs| > 1 {
      assert fs[0].Range() in Ranges(fs) && fs[1].Range() in Ranges(fs);
    }
  }

  /** A frame of a transfer that has been dispatched, sent again because its
      acknowledgement was lost, opens the transfer anew. It is dispatched a second
      time exactly when it is the whole transfer. */
  lemma ResendReopens(r: Registry, cfg: Config, job: Job, fs: seq<Frame>, f: Frame, now: int, victim: nat)
    requires Tiles(fs, job, 0) && f in fs && |job.payload| <= cfg.MaxBytes()
    requires HostProgress(r, job, {}) && HostHasRoom(r, cfg, now)
    ensures HandlePartial(r, cfg, f, now, victim).0
            == if |fs| == 1 then Dispatched(job.payload, job.msgType) else Acked
  {
    HostFrameArrives(r, cfg, job, fs, {}, f, now, victim);
    OneRangeIffOneFrame(fs, job, f);
    assert {} + {f.Range()} == {f.Range()};
  }
}
