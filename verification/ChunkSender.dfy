/** pkg/chunk: the per-frame budget, the split loop, and the retrying send. */
module ChunkSender {
  import opened Segments
  import opened ChunkProtocol

  const SLOT_PAYLOAD_SIZE := 1024 * 1024
  const HALF_SLOT_SIZE := SLOT_PAYLOAD_SIZE / 2
  const FRAMING_OVERHEAD := 256
  const DEFAULT_CHUNK_SIZE := HALF_SLOT_SIZE - FRAMING_OVERHEAD
  const MAX_TRANSFER_BYTES := 0x1000_0000

  function Budget(bufCap: int): (budget: int)
    ensures 1 <= budget <= DEFAULT_CHUNK_SIZE
  {
    var budget := bufCap - FRAMING_OVERHEAD;
    var capped := if budget > DEFAULT_CHUNK_SIZE then DEFAULT_CHUNK_SIZE else budget;
    if capped < 1 then 1 else capped
  }

  /** capacity is what the client reports; a client that cannot report reads as
      0, which means unknown. */
  function GuestBudget(capacity: int): (budget: int)
    ensures 1 <= budget <= DEFAULT_CHUNK_SIZE
  {
    if capacity <= 0 then DEFAULT_CHUNK_SIZE else Budget(capacity)
  }

  /** A framed chunk of one budget fits its buffer exactly when the buffer is
      larger than the framing itself, and it is the largest that does, up to the
      default size; a buffer with no room still makes progress byte by byte. */
  lemma BudgetFits(bufCap: int)
    ensures Budget(bufCap) + 256 <= bufCap <==> bufCap > 256
    ensures bufCap > 256 && Budget(bufCap) + 256 < bufCap ==> Budget(bufCap) == 524_032
    ensures bufCap <= 256 ==> Budget(bufCap) == 1
  {
  }

  /** A guest frame fits the request buffer the client reports, and an unknown
      buffer is taken to be half a slot. */
  lemma GuestBudgetFits(capacity: int)
    ensures capacity > 256 ==> GuestBudget(capacity) + 256 <= capacity
    ensures capacity <= 0 ==> GuestBudget(capacity) + 256 == 524_288
    ensures capacity >= 524_288 ==> GuestBudget(capacity) == 524_032
  {
    BudgetFits(capacity);
  }

  datatype Job = Job(payload: seq<byte>, id: nat, msgType: nat)

  function Wire(n: nat): uint32 { n % 0x1_0000_0000 }

  function FrameOf(job: Job, from: nat, to: nat): Frame
    requires from <= to <= |job.payload|
  {
    Frame(job.id, Wire(|job.payload|), Wire(from), job.payload[from..to], job.msgType)
  }

  function NextOffset(offset: nat, cs: nat, total: nat): nat {
    if offset + cs > total then total else offset + cs
  }

  /** The frames of the split loop from offset on. */
  function Frames(job: Job, offset: nat, cs: nat): seq<Frame>
    requires cs > 0
    decreases |job.payload| - offset
  {
    var total := |job.payload|;
    if offset >= total then []
    else
      var end := NextOffset(offset, cs, total);
      [FrameOf(job, offset, end)] + Frames(job, end, cs)
  }

  /** fs cuts payload[from..] into consecutive nonempty pieces. */
  ghost predicate Tiles(fs: seq<Frame>, job: Job, from: nat) {
    && from <= |job.payload|
    && if fs == [] then from == |job.payload|
       else
         var f := fs[0];
         && f.id == job.id && f.total == |job.payload| && f.msgType == job.msgType
         && f.offset == from && |f.data| > 0
         && from + |f.data| <= |job.payload|
         && f.data == job.payload[from..from + |f.data|]
         && Tiles(fs[1..], job, from + |f.data|)
  }

  /** n is the ceiling of size / cs. */
  ghost predicate IsCeiling(n: nat, size: nat, cs: nat) {
    size <= n * cs && (n > 0 ==> (n - 1) * cs < size)
  }

  /** The split covers [offset, total) without gap or overlap, in nonempty
      frames of at most cs bytes, as few as that size allows. */
  lemma {:induction false} FramesTile(job: Job, offset: nat, cs: nat)
    requires 0 < cs && offset <= |job.payload| < 0x1_0000_0000
    ensures Tiles(Frames(job, offset, cs), job, offset)
    ensures IsCeiling(|Frames(job, offset, cs)|, |job.payload| - offset, cs)
    ensures forall f :: f in Frames(job, offset, cs) ==> |f.data| <= cs
    decreases |job.payload| - offset
  {
    var total := |job.payload|;
    if offset < total {
      var end := NextOffset(offset, cs, total);
      FramesTile(job, end, cs);
      var fs, rest := Frames(job, offset, cs), Frames(job, end, cs);
      assert fs[1..] == rest && fs[0] == FrameOf(job, offset, end);
      CeilingStep(|rest|, total - end, total - offset, cs);
    }
  }

  /** The frame fields are 32 bits wide: the split can be put back together
      exactly when the payload's length fits them, which the default cap on a
      transfer guarantees. */
  lemma TilesIffFits(job: Job, cs: nat)
    requires 0 < cs
    ensures Tiles(Frames(job, 0, cs), job, 0) <==> |job.payload| < 0x1_0000_0000
  {
    if |job.payload| < 0x1_0000_0000 {
      FramesTile(job, 0, cs);
    } else {
      assert Frames(job, 0, cs)[0].total < |job.payload|;
    }
  }

  lemma CeilingStep(n: nat, rest: nat, size: nat, cs: nat)
    requires cs > 0 && size > 0 && IsCeiling(n, rest, cs)
    requires rest == if size <= cs then 0 else size - cs
    ensures IsCeiling(n + 1, size, cs)
  {
    assert (n + 1) * cs == n * cs + cs;
    if n > 0 {
      assert n * cs == (n - 1) * cs + cs;
      assert (n - 1) * cs >= 0;
    }
  }

  /** The transport: every call is logged, and the k-th one succeeds when
      accepts(k) says so. */
  class Link {
    const accepts: nat -> bool
    var calls: seq<Frame>

    constructor (accepts: nat -> bool)
      ensures this.accepts == accepts && calls == []
    {
      this.accepts := accepts;
      calls := [];
    }

    method Call(f: Frame) returns (ok: bool)
      modifies this
      ensures calls == old(calls) + [f] && ok == accepts(|old(calls)|)
    {
      ok := accepts(|calls|);
      calls := calls + [f];
    }
  }

  /** The frames the transport has acknowledged, in order. A call that failed may
      have reached the receiver all the same. */
  ghost function Acknowledged(calls: seq<Frame>, accepts: nat -> bool): seq<Frame> {
    if calls == [] then []
    else
      var n := |calls| - 1;
      Acknowledged(calls[..n], accepts) + if accepts(n) then [calls[n]] else []
  }

  /** The first call from `at` on, out of the next `left`, that is accepted. */
  ghost predicate FirstAccepted(accepts: nat -> bool, at: nat, left: nat, k: nat) {
    at <= k < at + left && accepts(k) && forall i :: at <= i < k ==> !accepts(i)
  }

  ghost predicate AllRefused(accepts: nat -> bool, at: nat, left: nat) {
    forall i :: at <= i < at + left ==> !accepts(i)
  }

  /** Frames from..n are still to go and calls are numbered from `at`: frame i is
      the first all of whose calls are refused; i == n says there is none. */
  ghost predicate StopsAt(accepts: nat -> bool, at: nat, limit: nat, from: nat, n: nat, i: nat)
    decreases n - from
  {
    if from >= n then i == n
    else if AllRefused(accepts, at, limit) then i == from
    else exists k: nat :: FirstAccepted(accepts, at, limit, k) && StopsAt(accepts, k + 1, limit, from + 1, n, i)
  }

  /** The link alone decides where a send stops. */
  lemma {:induction false} StopsOnce(accepts: nat -> bool, at: nat, limit: nat, from: nat, n: nat, i: nat, j: nat)
    requires StopsAt(accepts, at, limit, from, n, i) && StopsAt(accepts, at, limit, from, n, j)
    ensures i == j
    decreases n - from
  {
    if from < n && !AllRefused(accepts, at, limit) {
      var k: nat :| FirstAccepted(accepts, at, limit, k) && StopsAt(accepts, k + 1, limit, from + 1, n, i);
      var l: nat :| FirstAccepted(accepts, at, limit, l) && StopsAt(accepts, l + 1, limit, from + 1, n, j);
      assert k == l;
      StopsOnce(accepts, k + 1, limit, from + 1, n, i, j);
    }
  }

  ghost predicate AllAre(calls: seq<Frame>, f: Frame) { forall k :: 0 <= k < |calls| ==> calls[k] == f }

  /** calls puts the frames of fs on the wire in order, each one to limit times. */
  ghost predicate Repeats(calls: seq<Frame>, fs: seq<Frame>, limit: nat)
    decreases |fs|
  {
    if fs == [] then calls == []
    else
      var n := |fs| - 1;
      exists k :: 0 <= k < |calls| && |calls| - k <= limit
                  && AllAre(calls[k..], fs[n]) && Repeats(calls[..k], fs[..n], limit)
  }

  lemma RepeatsAppend(calls: seq<Frame>, fs: seq<Frame>, limit: nat, more: seq<Frame>, f: Frame)
    requires Repeats(calls, fs, limit) && 1 <= |more| <= limit && AllAre(more, f)
    ensures Repeats(calls + more, fs + [f], limit)
  {
    var k := |calls|;
    assert (calls + more)[k..] == more && (calls + more)[..k] == calls;
    assert (fs + [f])[..|fs|] == fs;
  }

  /** Nothing but frames of fs is put on the wire, and each of them is. */
  lemma {:induction false} RepeatsHas(calls: seq<Frame>, fs: seq<Frame>, limit: nat)
    requires Repeats(calls, fs, limit)
    ensures forall f :: f in calls <==> f in fs
    decreases |fs|
  {
    if fs != [] {
      var n := |fs| - 1;
      var k :| 0 <= k < |calls| && |calls| - k <= limit
               && AllAre(calls[k..], fs[n]) && Repeats(calls[..k], fs[..n], limit);
      RepeatsHas(calls[..k], fs[..n], limit);
      assert calls == calls[..k] + calls[k..] && fs == fs[..n] + [fs[n]];
      assert calls[k..][0] == fs[n];
    }
  }

  /** Up to `limit` calls of the same frame: they stop at the first one accepted,
      and fail only when all of them are refused. */
  ghost predicate Retried(was: seq<Frame>, calls: seq<Frame>, accepts: nat -> bool, f: Frame, limit: nat, ok: bool) {
    && was < calls && AllAre(calls[|was|..], f)
    && Acknowledged(calls, accepts) == Acknowledged(was, accepts) + (if ok then [f] else [])
    && if ok then FirstAccepted(accepts, |was|, limit, |calls| - 1)
       else |calls| == |was| + limit && AllRefused(accepts, |was|, limit)
  }

  method SendWithRetry(link: Link, f: Frame, attempts: int) returns (ok: bool)
    modifies link
    ensures Retried(old(link.calls), link.calls, link.accepts, f, if attempts < 1 then 1 else attempts, ok)
  {
    ok := false;
    for i := 0 to if attempts < 1 then 1 else attempts
      invariant old(link.calls) <= link.calls && |link.calls| == |old(link.calls)| + i
      invariant AllRefused(link.accepts, |old(link.calls)|, i)
      invariant Acknowledged(link.calls, link.accepts) == Acknowledged(old(link.calls), link.accepts)
      invariant AllAre(link.calls[|old(link.calls)|..], f)
    {
      ghost var before := link.calls;
      ok := link.Call(f);
      assert link.calls[..|before|] == before;
      if ok {
        return true;
      }
    }
    return false;
  }

  /** So it succeeds exactly when one of those calls would be accepted. */
  lemma RetriedIff(was: seq<Frame>, calls: seq<Frame>, accepts: nat -> bool, f: Frame, limit: nat, ok: bool)
    requires Retried(was, calls, accepts, f, limit, ok)
    ensures ok <==> exists k :: |was| <= k < |was| + limit && accepts(k)
    ensures 1 <= |calls| - |was| <= limit
  {
    if ok {
      assert accepts(|calls| - 1);
    }
  }

  datatype SendResult = Sent | TooLarge | Failed(offset: nat)

  /** What a send has done to the link: the first `tried` frames of the split have
      gone out, each one to limit times, all acknowledged but a failing last one. */
  ghost predicate SentUpTo(was: seq<Frame>, calls: seq<Frame>, accepts: nat -> bool, fs: seq<Frame>,
                           limit: nat, tried: nat, failed: bool) {
    && tried <= |fs| && (failed ==> tried > 0)
    && was <= calls && Repeats(calls[|was|..], fs[..tried], limit)
    && Acknowledged(calls, accepts) == Acknowledged(was, accepts) + fs[..if failed then tried - 1 else tried]
  }

  lemma SentNext(was: seq<Frame>, calls: seq<Frame>, calls': seq<Frame>, accepts: nat -> bool, fs: seq<Frame>,
                 limit: nat, tried: nat, ok: bool)
    requires SentUpTo(was, calls, accepts, fs, limit, tried, false) && tried < |fs|
    requires calls <= calls' && 1 <= |calls'| - |calls| <= limit && AllAre(calls'[|calls|..], fs[tried])
    requires Acknowledged(calls', accepts) == Acknowledged(calls, accepts) + if ok then [fs[tried]] else []
    ensures SentUpTo(was, calls', accepts, fs, limit, tried + 1, !ok)
  {
    RepeatsAppend(calls[|was|..], fs[..tried], limit, calls'[|calls|..], fs[tried]);
    assert calls'[|was|..] == calls[|was|..] + calls'[|calls|..];
    assert fs[..tried + 1] == fs[..tried] + [fs[tried]];
    assert Acknowledged(was, accepts) + fs[..tried] + [fs[tried]] == Acknowledged(was, accepts) + fs[..tried + 1];
  }

  /** Frame `tried` starts at `offset`: the split from there is what is left. */
  ghost predicate LeftAt(fs: seq<Frame>, tried: nat, job: Job, offset: nat, cs: nat)
    requires cs > 0
  {
    && tried <= |fs| && fs[tried..] == Frames(job, offset, cs)
    && (offset < |job.payload| ==> offset == tried * cs)
  }

  lemma LeftNext(fs: seq<Frame>, tried: nat, job: Job, offset: nat, cs: nat)
    requires cs > 0 && offset < |job.payload| && LeftAt(fs, tried, job, offset, cs)
    ensures tried < |fs| && fs[tried] == FrameOf(job, offset, NextOffset(offset, cs, |job.payload|))
    ensures LeftAt(fs, tried + 1, job, NextOffset(offset, cs, |job.payload|), cs)
  {
    assert fs[tried..][0] == fs[tried] && fs[tried..][1..] == fs[tried + 1..];
    assert (tried + 1) * cs == tried * cs + cs;
  }

  /** Where the rest of a send stops is where the send does. */
  ghost predicate StopsBehind(accepts: nat -> bool, first: nat, at: nat, limit: nat, tried: nat, n: nat) {
    forall i :: StopsAt(accepts, at, limit, tried, n, i) ==> StopsAt(accepts, first, limit, 0, n, i)
  }

  lemma StopsLater(accepts: nat -> bool, first: nat, at: nat, k: nat, limit: nat, tried: nat, n: nat)
    requires tried < n && StopsBehind(accepts, first, at, limit, tried, n) && FirstAccepted(accepts, at, limit, k)
    ensures StopsBehind(accepts, first, k + 1, limit, tried + 1, n)
  {
    forall i | StopsAt(accepts, k + 1, limit, tried + 1, n, i) ensures StopsAt(accepts, first, limit, 0, n, i) {
      assert StopsAt(accepts, at, limit, tried, n, i);
    }
  }

  /** A send under way: `tried` frames have gone out, the next starts at offset. */
  ghost predicate Sending(was: seq<Frame>, calls: seq<Frame>, accepts: nat -> bool, job: Job, cs: nat, limit: nat,
                          tried: nat, offset: nat)
    requires cs > 0
  {
    var fs := Frames(job, 0, cs);
    && SentUpTo(was, calls, accepts, fs, limit, tried, false)
    && LeftAt(fs, tried, job, offset, cs)
    && StopsBehind(accepts, |was|, |calls|, limit, tried, |fs|)
  }

  /** A send that has ended: it stops at the first frame all of whose calls the
      link refuses, and succeeds exactly when there is none. */
  ghost predicate SendEnds(was: seq<Frame>, calls: seq<Frame>, accepts: nat -> bool, job: Job, cs: nat, limit: nat,
                           r: SendResult, tried: nat)
    requires cs > 0
  {
    var fs := Frames(job, 0, cs);
    match r
    case TooLarge => calls == was
    case Sent =>
      && tried == |fs| && SentUpTo(was, calls, accepts, fs, limit, tried, false)
      && StopsAt(accepts, |was|, limit, 0, |fs|, |fs|)
    case Failed(offset) =>
      && tried > 0 && SentUpTo(was, calls, accepts, fs, limit, tried, true)
      && StopsAt(accepts, |was|, limit, 0, |fs|, tried - 1)
      && offset == (tried - 1) * cs < |job.payload| && LeftAt(fs, tried - 1, job, offset, cs)
  }

  lemma SendingNext(was: seq<Frame>, calls: seq<Frame>, calls': seq<Frame>, accepts: nat -> bool, job: Job, cs: nat,
                    limit: nat, tried: nat, offset: nat)
    requires cs > 0 && Sending(was, calls, accepts, job, cs, limit, tried, offset) && offset < |job.payload|
    requires Retried(calls, calls', accepts, FrameOf(job, offset, NextOffset(offset, cs, |job.payload|)), limit, true)
    ensures Sending(was, calls', accepts, job, cs, limit, tried + 1, NextOffset(offset, cs, |job.payload|))
  {
    LeftNext(Frames(job, 0, cs), tried, job, offset, cs);
    SentNext(was, calls, calls', accepts, Frames(job, 0, cs), limit, tried, true);
    StopsLater(accepts, |was|, |calls|, |calls'| - 1, limit, tried, |Frames(job, 0, cs)|);
  }

  lemma SendingFails(was: seq<Frame>, calls: seq<Frame>, calls': seq<Frame>, accepts: nat -> bool, job: Job, cs: nat,
                     limit: nat, tried: nat, offset: nat)
    requires cs > 0 && Sending(was, calls, accepts, job, cs, limit, tried, offset) && offset < |job.payload|
    requires Retried(calls, calls', accepts, FrameOf(job, offset, NextOffset(offset, cs, |job.payload|)), limit, false)
    ensures SendEnds(was, calls', accepts, job, cs, limit, Failed(offset), tried + 1)
  {
    var n := |Frames(job, 0, cs)|;
    LeftNext(Frames(job, 0, cs), tried, job, offset, cs);
    SentNext(was, calls, calls', accepts, Frames(job, 0, cs), limit, tried, false);
    assert StopsAt(accepts, |calls|, limit, tried, n, tried);
  }

  lemma SendingSucceeds(was: seq<Frame>, calls: seq<Frame>, accepts: nat -> bool, job: Job, cs: nat,
                        limit: nat, tried: nat, offset: nat)
    requires cs > 0 && Sending(was, calls, accepts, job, cs, limit, tried, offset) && offset >= |job.payload|
    ensures SendEnds(was, calls, accepts, job, cs, limit, Sent, tried)
  {
    var n := |Frames(job, 0, cs)|;
    assert tried == n && StopsAt(accepts, |calls|, limit, tried, n, n);
  }

  lemma SendingBegins(calls: seq<Frame>, accepts: nat -> bool, job: Job, cs: nat, limit: nat)
    requires cs > 0
    ensures Sending(calls, calls, accepts, job, cs, limit, 0, 0)
  {
    var fs := Frames(job, 0, cs);
    assert calls[|calls|..] == [] && fs[0..] == fs && fs[..0] == [];
  }

  /** Sender.Send. chunkSize and maxTotal of zero or less mean the defaults, and
      attempts of less than one means one. */
  method Send(link: Link, job: Job, chunkSize: int, maxTotal: int, attempts: int) returns (r: SendResult, ghost tried: nat)
    modifies link
    ensures r == TooLarge <==> |job.payload| > if maxTotal > 0 then maxTotal else 268_435_456
    ensures SendEnds(old(link.calls), link.calls, link.accepts, job, if chunkSize > 0 then chunkSize else 524_032,
                     if attempts < 1 then 1 else attempts, r, tried)
  {
    var cs := if chunkSize > 0 then chunkSize else DEFAULT_CHUNK_SIZE;
    ghost var limit: nat := if attempts < 1 then 1 else attempts;
    tried := 0;
    SendingBegins(link.calls, link.accepts, job, cs, limit);
    if |job.payload| == 0 {
      SendingSucceeds(link.calls, link.calls, link.accepts, job, cs, limit, 0, 0);
      return Sent, 0;
    }
    if |job.payload| > (if maxTotal > 0 then maxTotal else MAX_TRANSFER_BYTES) {
      return TooLarge, 0;
    }
    r, tried := SendFrames(link, job, cs, attempts, limit);
  }

  /** The split loop of Send. */
  method SendFrames(link: Link, job: Job, cs: nat, attempts: int, ghost limit: nat) returns (r: SendResult, ghost tried: nat)
    requires cs > 0 && limit == if attempts < 1 then 1 else attempts
    modifies link
    ensures r != TooLarge && SendEnds(old(link.calls), link.calls, link.accepts, job, cs, limit, r, tried)
  {
    tried := 0;
    SendingBegins(link.calls, link.accepts, job, cs, limit);
    var total := |job.payload|;
    var offset := 0;
    while offset < total
      invariant 0 <= offset <= total
      invariant Sending(old(link.calls), link.calls, link.accepts, job, cs, limit, tried, offset)
    {
      var end := NextOffset(offset, cs, total);
      ghost var before := link.calls;
      var ok := SendWithRetry(link, FrameOf(job, offset, end), attempts);
      if !ok {
        SendingFails(old(link.calls), before, link.calls, link.accepts, job, cs, limit, tried, offset);
        return Failed(offset), tried + 1;
      }
      SendingNext(old(link.calls), before, link.calls, link.accepts, job, cs, limit, tried, offset);
      tried := tried + 1;
      offset := end;
    }
    SendingSucceeds(old(link.calls), link.calls, link.accepts, job, cs, limit, tried, offset);
    return Sent, tried;
  }

  /** What may reach the receiver of a send that found the link as it was: any of
      its calls, acknowledged or not, and nothing else. Those are frames of the
      split, and every frame acknowledged is among them. */
  lemma ArrivalsAreFrames(was: seq<Frame>, calls: seq<Frame>, accepts: nat -> bool, fs: seq<Frame>,
                          limit: nat, tried: nat, failed: bool)
    requires SentUpTo(was, calls, accepts, fs, limit, tried, failed)
    ensures forall f :: f in calls[|was|..] <==> f in fs[..tried]
    ensures forall f :: f in calls[|was|..] ==> f in fs
  {
    RepeatsHas(calls[|was|..], fs[..tried], limit);
  }
}
