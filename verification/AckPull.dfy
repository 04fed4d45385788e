/** The retained host-to-guest pull transport: a payload is parked, its first
    slice handed back, the rest pulled with acknowledgements. */
module AckPull {
  import opened ChunkProtocol
  import opened ChunkSender

  datatype Outgoing = Outgoing(data: seq<byte>, offset: nat, lastAccess: int)
  type Table = map<nat, Outgoing>
  datatype Slice = Slice(bytes: seq<byte>, total: nat, offset: nat)
  datatype Answer = NotFound | Found(slice: Slice)

  function Min(a: int, b: int): int { if a < b then a else b }

  /** registerAckPullChunk up to publication: the offset is set past the first
      slice before any pull can see the entry. */
  function Publish(t: Table, id: nat, payload: seq<byte>, chunkSize: nat, now: int): (Slice, Table) {
    var n := Min(chunkSize, |payload|);
    (Slice(payload[..n], |payload|, 0), t[id := Outgoing(payload, n, now)])
  }

  function GetNext(t: Table, id: nat, maxSize: int, now: int): (Answer, Table) {
    if id !in t then (NotFound, t)
    else
      var out := t[id];
      var n := Min(maxSize, |out.data| - out.offset);
      if n <= 0 then (NotFound, t - {id})
      else
        var end := out.offset + n;
        (Found(Slice(out.data[out.offset..end], |out.data|, out.offset)),
         if end >= |out.data| then t - {id} else t[id := Outgoing(out.data, end, now)])
  }

  function Sweep(t: Table, ttl: int, now: int): Table {
    map id | id in t && now - t[id].lastAccess <= ttl :: t[id]
  }

  class OutgoingChunks {
    var chunks: Table

    constructor ()
      ensures chunks == map[]
    {
      chunks := map[];
    }

    /** registerAckPullChunk up to the publication of the entry. From here on other
        goroutines can pull it. */
    method AddOutgoingChunk(payload: seq<byte>, respCap: nat, id: nat, now: int) returns (slice: Slice)
      modifies this
      ensures (slice, chunks) == Publish(old(chunks), id, payload, Budget(respCap), now)
    {
      var chunkSize := Budget(respCap);
      var currentSize := chunkSize;
      if |payload| < chunkSize {
        currentSize := |payload|;
      }
      chunks := chunks[id := Outgoing(payload, currentSize, now)];
      slice := Slice(payload[..currentSize], |payload|, 0);
    }

    method RemoveOutgoingChunk(id: nat)
      modifies this
      ensures chunks == old(chunks) - {id}
    {
      chunks := chunks - {id};
    }

    /** The two in one go. framing is what the frame adds to the slice; when the
        two do not fit the response buffer, the parked entry is withdrawn. */
    method RegisterAckPullChunk(payload: seq<byte>, respCap: nat, framing: nat, id: nat, now: int) returns (first: Answer)
      modifies this
      ensures var (slice, parked) := Publish(old(chunks), id, payload, Budget(respCap), now);
        (first, chunks) == if |slice.bytes| + framing > respCap then (NotFound, parked - {id}) else (Found(slice), parked)
    {
      var slice := AddOutgoingChunk(payload, respCap, id, now);
      if |slice.bytes| + framing > respCap {
        RemoveOutgoingChunk(id);
        return NotFound;
      }
      return Found(slice);
    }

    method GetNextChunk(id: nat, maxSize: int, now: int) returns (a: Answer)
      requires id in chunks ==> chunks[id].offset <= |chunks[id].data|
      modifies this
      ensures (a, chunks) == GetNext(old(chunks), id, maxSize, now)
    {
      if id !in chunks {
        return NotFound;
      }
      var out := chunks[id];
      var remaining := |out.data| - out.offset;
      var currentSize := maxSize;
      if remaining < maxSize {
        currentSize := remaining;
      }
      if currentSize <= 0 {
        chunks := chunks - {id};
        return NotFound;
      }
      var slice := Slice(out.data[out.offset..out.offset + currentSize], |out.data|, out.offset);
      out := out.(offset := out.offset + currentSize, lastAccess := now);
      chunks := if out.offset >= |out.data| then chunks - {id} else chunks[id := out];
      return Found(slice);
    }
  }

  // ----- runs

  datatype Event =
    | Pull(id: nat, maxSize: int, now: int)
    | Register(id: nat, payload: seq<byte>, chunkSize: nat, now: int)
    | Withdraw(id: nat)
    | Expire(ttl: int, now: int)

  function Step(t: Table, e: Event): Table {
    match e
    case Pull(id, n, now) => GetNext(t, id, n, now).1
    case Register(id, p, n, now) => Publish(t, id, p, n, now).1
    case Withdraw(id) => t - {id}
    case Expire(ttl, now) => Sweep(t, ttl, now)
  }

  function Run(t: Table, es: seq<Event>): Table
    decreases |es|
  {
    if es == [] then t else Run(Step(t, es[0]), es[1..])
  }

  /** The slices pulls of id return. */
  function Pulled(t: Table, es: seq<Event>, id: nat): seq<Slice>
    decreases |es|
  {
    if es == [] then []
    else
      (if es[0].Pull? && es[0].id == id && GetNext(t, id, es[0].maxSize, es[0].now).0.Found?
       then [GetNext(t, id, es[0].maxSize, es[0].now).0.slice] else [])
      + Pulled(Step(t, es[0]), es[1..], id)
  }

  /** id is pulled with positive sizes only, and otherwise left alone. */
  ghost predicate LeavesAlone(t: Table, e: Event, id: nat) {
    match e
    case Pull(i, n, _) => i == id ==> n > 0
    case Register(i, _, _, _) => i != id
    case Withdraw(i) => i != id
    case Expire(ttl, now) => id in t ==> now - t[id].lastAccess <= ttl
  }

  ghost predicate LeavesAloneRun(t: Table, es: seq<Event>, id: nat)
    decreases |es|
  {
    es == [] || (LeavesAlone(t, es[0], id) && LeavesAloneRun(Step(t, es[0]), es[1..], id))
  }

  function Bytes(ss: seq<Slice>): seq<byte> { if ss == [] then [] else ss[0].bytes + Bytes(ss[1..]) }

  /** Slices carry on from `from`, each starting where the last one ended. */
  ghost predicate Consecutive(ss: seq<Slice>, from: nat, total: nat) {
    ss == [] || (ss[0].offset == from && ss[0].total == total && ss[0].bytes != []
                 && Consecutive(ss[1..], from + |ss[0].bytes|, total))
  }

  lemma {:induction false} NothingPulled(t: Table, es: seq<Event>, id: nat)
    requires id !in t && LeavesAloneRun(t, es, id)
    ensures Pulled(t, es, id) == [] && id !in Run(t, es)
    decreases |es|
  {
    if es != [] {
      NothingPulled(Step(t, es[0]), es[1..], id);
    }
  }

  /** ss is the next stretch of d from o on; gone says whether it reaches the end. */
  ghost predicate Continues(ss: seq<Slice>, d: seq<byte>, o: nat, gone: bool) {
    && o + |Bytes(ss)| <= |d| && Bytes(ss) == d[o..o + |Bytes(ss)|]
    && Consecutive(ss, o, |d|)
    && (gone <==> o + |Bytes(ss)| == |d|)
  }

  lemma ContinuesCons(s: Slice, ss: seq<Slice>, d: seq<byte>, o: nat, o1: nat, gone: bool)
    requires o < o1 <= |d| && s == Slice(d[o..o1], |d|, o) && Continues(ss, d, o1, gone)
    ensures Continues([s] + ss, d, o, gone)
  {
    assert ([s] + ss)[1..] == ss;
    assert d[o..o1] + d[o1..o1 + |Bytes(ss)|] == d[o..o1 + |Bytes(ss)|];
  }

  lemma PullNext(t: Table, id: nat, n: int, now: int)
    requires id in t && t[id].offset < |t[id].data| && n > 0
    ensures var (a, t1) := GetNext(t, id, n, now); var (d, o) := (t[id].data, t[id].offset);
      && a.Found? && |a.slice.bytes| > 0 && o + |a.slice.bytes| <= |d|
      && a.slice == Slice(d[o..o + |a.slice.bytes|], |d|, o)
      && (id in t1 <==> o + |a.slice.bytes| < |d|)
      && (id in t1 ==> t1[id].data == d && t1[id].offset == o + |a.slice.bytes|)
  {
  }

  /** A pull takes what is asked for or what is left, whichever is less, and makes
      its entry fresh; nothing to take and the entry goes. */
  lemma PullTakes(t: Table, id: nat, n: int, now: int)
    requires id in t && t[id].offset <= |t[id].data|
    ensures var (a, t1) := GetNext(t, id, n, now); var left := |t[id].data| - t[id].offset;
      && (a.Found? <==> n > 0 && left > 0)
      && (a.Found? ==> |a.slice.bytes| == if n < left then n else left)
      && (id in t1 <==> 0 < n < left)
      && (id in t1 ==> t1[id].lastAccess == now)
      && t1 - {id} == t - {id}
  {
  }

  /** A sweep keeps exactly what has been pulled or parked within the TTL. */
  lemma SweptIff(t: Table, ttl: int, now: int, id: nat)
    ensures id in Sweep(t, ttl, now) <==> id in t && now - t[id].lastAccess <= ttl
    ensures id in Sweep(t, ttl, now) ==> Sweep(t, ttl, now)[id] == t[id]
  {
  }

  lemma Untouched(t: Table, e: Event, id: nat)
    requires id in t && LeavesAlone(t, e, id) && !(e.Pull? && e.id == id)
    ensures id in Step(t, e) && Step(t, e)[id] == t[id]
  {
  }

  /** One pull of id, with what the rest of the run then pulls. */
  lemma PullThenRest(t: Table, es: seq<Event>, id: nat)
    requires es != [] && id in t && t[id].offset < |t[id].data|
    requires es[0].Pull? && es[0].id == id && es[0].maxSize > 0
    requires var t1 := Step(t, es[0]);
      if id in t1 then Continues(Pulled(t1, es[1..], id), t1[id].data, t1[id].offset, id !in Run(t1, es[1..]))
      else Pulled(t1, es[1..], id) == [] && id !in Run(t1, es[1..])
    ensures Continues(Pulled(t, es, id), t[id].data, t[id].offset, id !in Run(t, es))
  {
    var t1, d, o := Step(t, es[0]), t[id].data, t[id].offset;
    PullNext(t, id, es[0].maxSize, es[0].now);
    var slice := GetNext(t, id, es[0].maxSize, es[0].now).0.slice;
    var rest, o1, gone := Pulled(t1, es[1..], id), o + |slice.bytes|, id !in Run(t1, es[1..]);
    assert Continues(rest, d, o1, gone);
    assert Pulled(t, es, id) == [slice] + rest;
    ContinuesCons(slice, rest, d, o, o1, gone);
  }

  lemma RestUntouched(t: Table, es: seq<Event>, id: nat)
    requires es != [] && !(es[0].Pull? && es[0].id == id)
    ensures Pulled(t, es, id) == Pulled(Step(t, es[0]), es[1..], id)
    ensures Run(t, es) == Run(Step(t, es[0]), es[1..])
  {
    assert [] + Pulled(Step(t, es[0]), es[1..], id) == Pulled(Step(t, es[0]), es[1..], id);
  }

  /** From an entry with bytes left: what is pulled is exactly the next stretch
      of the data, and the entry is gone exactly when the last byte is out. */
  lemma {:induction false} PullsContinue(t: Table, es: seq<Event>, id: nat)
    requires id in t && t[id].offset < |t[id].data| && LeavesAloneRun(t, es, id)
    ensures Continues(Pulled(t, es, id), t[id].data, t[id].offset, id !in Run(t, es))
    decreases |es|
  {
    if es != [] {
      var e, t1 := es[0], Step(t, es[0]);
      if e.Pull? && e.id == id {
        PullNext(t, id, e.maxSize, e.now);
        if id in t1 {
          PullsContinue(t1, es[1..], id);
        } else {
          NothingPulled(t1, es[1..], id);
        }
        PullThenRest(t, es, id);
      } else {
        Untouched(t, e, id);
        PullsContinue(t1, es[1..], id);
        RestUntouched(t, es, id);
      }
    }
  }

  /** Conservation: the first slice followed by everything pulled is a prefix of
      the payload, each byte once and in order, whatever else happens in between;
      the entry is gone exactly when that prefix is the whole payload. */
  lemma PullConserves(t: Table, id: nat, payload: seq<byte>, chunkSize: nat, now: int, es: seq<Event>)
    requires 0 < chunkSize < |payload|
    requires LeavesAloneRun(Publish(t, id, payload, chunkSize, now).1, es, id)
    ensures var (first, t1) := Publish(t, id, payload, chunkSize, now);
      var sent := first.bytes + Bytes(Pulled(t1, es, id));
      && sent <= payload
      && Consecutive([first] + Pulled(t1, es, id), 0, |payload|)
      && (id !in Run(t1, es) <==> sent == payload)
  {
    var (first, t1) := Publish(t, id, payload, chunkSize, now);
    PullsContinue(t1, es, id);
    var rest := Pulled(t1, es, id);
    assert ([first] + rest)[1..] == rest;
    assert payload[..chunkSize] + payload[chunkSize..chunkSize + |Bytes(rest)|] == payload[..chunkSize + |Bytes(rest)|];
  }

  /** Pulls that race an entry which turns out not to fit: whatever they take is
      behind the first slice, in order, and the withdrawal leaves nothing. */
  lemma RacedThenWithdrawn(t: Table, id: nat, payload: seq<byte>, chunkSize: nat, now: int, es: seq<Event>)
    requires 0 < chunkSize < |payload|
    requires LeavesAloneRun(Publish(t, id, payload, chunkSize, now).1, es, id)
    ensures var t1 := Publish(t, id, payload, chunkSize, now).1;
      && Continues(Pulled(t1, es, id), payload, chunkSize, id !in Run(t1, es))
      && id !in Step(Run(t1, es), Withdraw(id))
  {
    PullsContinue(Publish(t, id, payload, chunkSize, now).1, es, id);
  }

  /** The entry outlives its last byte in one case only: when the first slice is
      already the whole payload, it stays until a pull that finds nothing. */
  lemma LingersIffOneSlice(t: Table, id: nat, payload: seq<byte>, chunkSize: nat, now: int)
    requires 0 < chunkSize
    ensures var (first, t1) := Publish(t, id, payload, chunkSize, now);
      && (id in t1 && first.bytes == payload <==> |payload| <= chunkSize)
      && (|payload| <= chunkSize ==> forall n, at :: GetNext(t1, id, n, at) == (NotFound, t1 - {id}))
  {
    if |payload| <= chunkSize {
      assert payload[..|payload|] == payload;
    }
  }
}
