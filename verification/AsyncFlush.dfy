/** Flushing a batch of async results under a per-transfer limit: halve what is
    too large together, answer what is too large alone with a diagnostic. */
module AsyncFlush {

  datatype Body = Value(content: seq<int>) | Err(text: string) | TooLarge(size: nat, limit: nat)

  /** A pending result: the handle Excel waits on and its answer. TooLarge is
      the text oversizedAsyncResultError renders. */
  datatype Pending = Pending(handle: nat, body: Body)

  /** Serialized length of a batch: any function will do. */
  type Sizer = seq<Pending> -> nat

  function Diagnostic(r: Pending, size: Sizer, limit: nat): Pending { Pending(r.handle, TooLarge(size([r]), limit)) }

  // ----- specification of the recursion

  /** The transfers attempted for one result. */
  function Single(r: Pending, size: Sizer, limit: nat): seq<seq<Pending>> {
    if size([r]) <= limit then [[r]]
    else if size([Diagnostic(r, size, limit)]) <= limit then [[Diagnostic(r, size, limit)]]
    else []
  }

  function Transfers(batch: seq<Pending>, size: Sizer, limit: nat): seq<seq<Pending>>
    decreases |batch|
  {
    if batch == [] then []
    else if size(batch) <= limit then [batch]
    else if |batch| == 1 then Single(batch[0], size, limit)
    else
      var mid := |batch| / 2;
      Transfers(batch[..mid], size, limit) + Transfers(batch[mid..], size, limit)
  }

  /** Serializations the recursion makes. */
  function Cost(batch: seq<Pending>, size: Sizer, limit: nat): nat
    decreases |batch|
  {
    if batch == [] then 0
    else if size(batch) <= limit then 1
    else if |batch| == 1 then 2
    else
      var mid := |batch| / 2;
      1 + Cost(batch[..mid], size, limit) + Cost(batch[mid..], size, limit)
  }

  class AsyncSender {
    const size: Sizer
    var attempted: seq<seq<Pending>>
    var serialized: nat

    constructor (size: Sizer)
      ensures this.size == size && attempted == [] && serialized == 0
    {
      this.size, attempted, serialized := size, [], 0;
    }

    method FlushAsyncBatchBounded(batch: seq<Pending>, limit: nat, substituted: bool)
      requires substituted ==> |batch| == 1
      modifies this
      ensures !substituted ==> attempted == old(attempted) + Transfers(batch, size, limit)
      ensures !substituted ==> serialized == old(serialized) + Cost(batch, size, limit)
      ensures substituted ==> serialized == old(serialized) + 1
      ensures substituted ==> attempted == old(attempted) + if size(batch) <= limit then [batch] else []
      decreases |batch|, if substituted then 1 else 3
    {
      if |batch| == 0 {
        return;
      }
      serialized := serialized + 1;
      var length := size(batch);
      if length > limit {
        FlushOversizedAsyncBatch(batch, limit, length, substituted);
        return;
      }
      attempted := attempted + [batch];
    }

    method FlushHalves(batch: seq<Pending>, limit: nat)
      requires |batch| > 1 && size(batch) > limit
      modifies this
      ensures attempted == old(attempted) + Transfers(batch, size, limit)
      ensures serialized + 1 == old(serialized) + Cost(batch, size, limit)
      decreases |batch|, 1
    {
      var mid := |batch| / 2;
      Halve(batch, size, limit);
      FlushAsyncBatchBounded(batch[..mid], limit, false);
      FlushAsyncBatchBounded(batch[mid..], limit, false);
    }

    method FlushOversizedAsyncBatch(batch: seq<Pending>, limit: nat, length: nat, substituted: bool)
      requires batch != [] && length == size(batch) > limit && (substituted ==> |batch| == 1)
      modifies this
      ensures substituted ==> attempted == old(attempted) && serialized == old(serialized)
      ensures !substituted ==> attempted == old(attempted) + Transfers(batch, size, limit)
      ensures !substituted ==> serialized + 1 == old(serialized) + Cost(batch, size, limit)
      decreases |batch|, if substituted then 0 else 2
    {
      if |batch| > 1 {
        FlushHalves(batch, limit);
        return;
      }
      if substituted {
        return;
      }
      assert batch == [batch[0]];
      FlushAsyncBatchBounded([Pending(batch[0].handle, TooLarge(length, limit))], limit, true);
    }
  }

  // ----- what the recursion guarantees

  function Flat(ts: seq<seq<Pending>>): seq<Pending> { if ts == [] then [] else ts[0] + Flat(ts[1..]) }

  lemma {:induction false} FlatConcat(a: seq<seq<Pending>>, b: seq<seq<Pending>>)
    ensures Flat(a + b) == Flat(a) + Flat(b)
  {
    if a == [] {
      assert a + b == b;
    } else {
      FlatConcat(a[1..], b);
      assert (a + b)[1..] == a[1..] + b && (a + b)[0] == a[0];
      SeqAssoc(a[0], Flat(a[1..]), Flat(b));
    }
  }

  /** sent answers the batch in order: each result as itself, or, only if it alone
      is over the limit, as its diagnostic, or, only if that is over it too, not
      at all. */
  ghost predicate Answers(batch: seq<Pending>, sent: seq<Pending>, size: Sizer, limit: nat) {
    if batch == [] then sent == []
    else
      var r, d := batch[0], Pending(batch[0].handle, TooLarge(size([batch[0]]), limit));
      || (sent != [] && sent[0] == r && Answers(batch[1..], sent[1..], size, limit))
      || (size([r]) > limit && size([d]) <= limit
          && sent != [] && sent[0] == d && Answers(batch[1..], sent[1..], size, limit))
      || (size([r]) > limit && size([d]) > limit && Answers(batch[1..], sent, size, limit))
  }

  lemma {:induction false} AnswersConcat(a: seq<Pending>, x: seq<Pending>, b: seq<Pending>, y: seq<Pending>, size: Sizer, limit: nat)
    requires Answers(a, x, size, limit) && Answers(b, y, size, limit)
    ensures Answers(a + b, x + y, size, limit)
  {
    if a == [] {
      assert a + b == b && x + y == y;
    } else {
      assert (a + b)[1..] == a[1..] + b;
      if Answers(a[1..], x, size, limit) && size([a[0]]) > limit && size([Diagnostic(a[0], size, limit)]) > limit {
        AnswersConcat(a[1..], x, b, y, size, limit);
      } else {
        assert (x + y)[1..] == x[1..] + y;
        AnswersConcat(a[1..], x[1..], b, y, size, limit);
      }
    }
  }

  lemma {:induction false} AnswersItself(batch: seq<Pending>, size: Sizer, limit: nat)
    ensures Answers(batch, batch, size, limit)
  {
    if batch != [] {
      AnswersItself(batch[1..], size, limit);
    }
  }

  /** Conservation, for any size function: every transfer attempted fits the
      limit, and together they answer each handle at most once, in order. */
  lemma {:induction false} FlushConserves(batch: seq<Pending>, size: Sizer, limit: nat)
    ensures Answers(batch, Flat(Transfers(batch, size, limit)), size, limit)
    ensures forall t :: t in Transfers(batch, size, limit) ==> t != [] && size(t) <= limit
    decreases |batch|
  {
    if batch == [] {
    } else if size(batch) <= limit {
      AnswersItself(batch, size, limit);
      FlatOne(batch);
    } else if |batch| == 1 {
      SingleConserves(batch[0], size, limit);
      assert batch == [batch[0]];
    } else {
      var mid := |batch| / 2;
      FlushConserves(batch[..mid], size, limit);
      FlushConserves(batch[mid..], size, limit);
      JoinHalves(batch[..mid], batch[mid..], size, limit);
      assert batch[..mid] + batch[mid..] == batch;
    }
  }

  lemma JoinHalves(a: seq<Pending>, b: seq<Pending>, size: Sizer, limit: nat)
    requires Answers(a, Flat(Transfers(a, size, limit)), size, limit)
    requires Answers(b, Flat(Transfers(b, size, limit)), size, limit)
    ensures Answers(a + b, Flat(Transfers(a, size, limit) + Transfers(b, size, limit)), size, limit)
  {
    var x, y := Transfers(a, size, limit), Transfers(b, size, limit);
    FlatConcat(x, y);
    AnswersConcat(a, Flat(x), b, Flat(y), size, limit);
  }

  lemma FlatOne(t: seq<Pending>)
    ensures Flat([t]) == t
  {
    assert [t][1..] == [] && Flat([]) == [];
    assert t + [] == t;
  }

  lemma SingleConserves(r: Pending, size: Sizer, limit: nat)
    ensures Answers([r], Flat(Single(r, size, limit)), size, limit)
  {
    var ts := Single(r, size, limit);
    if ts != [] {
      FlatOne(ts[0]);
      assert ts == [ts[0]] && Flat(ts)[1..] == [];
    }
    assert [r][1..] == [];
  }

  /** The answers when a part never serializes longer than the whole. */
  function Expected(batch: seq<Pending>, size: Sizer, limit: nat): seq<Pending> {
    if batch == [] then [] else Flat(Single(batch[0], size, limit)) + Expected(batch[1..], size, limit)
  }

  ghost predicate Monotone(size: Sizer) {
    forall a: seq<Pending>, b: seq<Pending> :: size(a) <= size(a + b) && size(b) <= size(a + b)
  }

  lemma {:induction false} ExpectedConcat(a: seq<Pending>, b: seq<Pending>, size: Sizer, limit: nat)
    ensures Expected(a + b, size, limit) == Expected(a, size, limit) + Expected(b, size, limit)
  {
    if a == [] {
      assert a + b == b;
    } else {
      ExpectedConcat(a[1..], b, size, limit);
      assert (a + b)[1..] == a[1..] + b;
      SeqAssoc(Flat(Single(a[0], size, limit)), Expected(a[1..], size, limit), Expected(b, size, limit));
    }
  }

  lemma SeqAssoc(x: seq<Pending>, y: seq<Pending>, z: seq<Pending>)
    ensures x + (y + z) == (x + y) + z
  {
  }

  lemma {:induction false} FittingIsExpected(batch: seq<Pending>, size: Sizer, limit: nat)
    requires Monotone(size) && size(batch) <= limit
    ensures Expected(batch, size, limit) == batch
  {
    if batch != [] {
      assert batch == [batch[0]] + batch[1..];
      FittingIsExpected(batch[1..], size, limit);
      FlatOne([batch[0]]);
    }
  }

  /** With a monotone size the outcome is settled handle by handle: a result goes
      out as itself exactly when it fits alone, so no result is collateral damage
      of a larger sibling. */
  lemma {:induction false} FlushIsExact(batch: seq<Pending>, size: Sizer, limit: nat)
    requires Monotone(size)
    ensures Flat(Transfers(batch, size, limit)) == Expected(batch, size, limit)
    decreases |batch|
  {
    if batch == [] {
    } else if size(batch) <= limit {
      FlatOne(batch);
      FittingIsExpected(batch, size, limit);
    } else if |batch| == 1 {
      assert Expected(batch[1..], size, limit) == [];
    } else {
      var mid := |batch| / 2;
      FlushIsExact(batch[..mid], size, limit);
      FlushIsExact(batch[mid..], size, limit);
      FlatConcat(Transfers(batch[..mid], size, limit), Transfers(batch[mid..], size, limit));
      ExpectedConcat(batch[..mid], batch[mid..], size, limit);
      assert batch[..mid] + batch[mid..] == batch;
    }
  }

  /** A batch that fits goes out as it is, in one transfer and one serialization. */
  lemma FitsIsOneTransfer(batch: seq<Pending>, size: Sizer, limit: nat)
    requires batch != []
    ensures Transfers(batch, size, limit) == [batch] <==> size(batch) <= limit
    ensures size(batch) <= limit ==> Cost(batch, size, limit) == 1
  {
    if Transfers(batch, size, limit) == [batch] {
      FlushConserves(batch, size, limit);
      assert batch in Transfers(batch, size, limit);
    }
  }

  /** Of the stretches of the batch, exactly those with result j in them are over
      the limit. */
  ghost predicate OneTooLarge(batch: seq<Pending>, size: Sizer, limit: nat, j: nat) {
    j < |batch| && forall a, b :: 0 <= a <= b <= |batch| ==> (size(batch[a..b]) > limit <==> a <= j < b)
  }

  /** Halvings until one result is left. */
  function Halvings(n: nat): nat { if n <= 1 then 0 else 1 + Halvings((n + 1) / 2) }

  lemma {:induction false} MoreHalvings(m: nat, n: nat)
    requires m <= n
    ensures Halvings(m) <= Halvings(n)
    decreases n
  {
    if m > 1 {
      MoreHalvings((m + 1) / 2, (n + 1) / 2);
    }
  }

  lemma SliceOfSlice<T>(s: seq<T>, from: nat, to: nat, a: nat, b: nat)
    requires from <= to <= |s| && a <= b <= to - from
    ensures s[from..to][a..b] == s[from + a..from + b]
  {
    forall k | 0 <= k < b - a ensures s[from..to][a..b][k] == s[from + a..from + b][k] {
      assert s[from..to][a..b][k] == s[from..to][a + k] == s[from + (a + k)];
    }
  }

  lemma HalfTooLarge(batch: seq<Pending>, size: Sizer, limit: nat, j: nat, from: nat, to: nat)
    requires OneTooLarge(batch, size, limit, j) && from <= to <= |batch|
    ensures size(batch[from..to]) > limit <==> from <= j < to
    ensures from <= j < to ==> OneTooLarge(batch[from..to], size, limit, j - from)
  {
    var part := batch[from..to];
    forall a, b | 0 <= a <= b <= |part| ensures size(part[a..b]) > limit <==> a <= j - from < b {
      SliceOfSlice(batch, from, to, a, b);
    }
  }

  /** One half is too large, the other fits. */
  lemma OneHalfTooLarge(batch: seq<Pending>, size: Sizer, limit: nat, mid: nat, cost: nat, n: nat)
    requires |batch| > 1 && size(batch) > limit && mid == |batch| / 2
    requires size(batch[..mid]) <= limit || size(batch[mid..]) <= limit
    requires var bad := if size(batch[..mid]) <= limit then batch[mid..] else batch[..mid];
      Cost(bad, size, limit) <= cost && |Transfers(bad, size, limit)| <= n
    ensures Cost(batch, size, limit) <= cost + 2 && |Transfers(batch, size, limit)| <= n + 1
  {
    Halve(batch, size, limit);
  }

  lemma Halve(batch: seq<Pending>, size: Sizer, limit: nat)
    requires |batch| > 1 && size(batch) > limit
    ensures var mid := |batch| / 2;
      && Transfers(batch, size, limit) == Transfers(batch[..mid], size, limit) + Transfers(batch[mid..], size, limit)
      && Cost(batch, size, limit) == 1 + Cost(batch[..mid], size, limit) + Cost(batch[mid..], size, limit)
  {
  }

  /** One result too large for a transfer costs its siblings two serializations a
      halving, and splits them into that many transfers. */
  lemma {:induction false} OneTooLargeCost(batch: seq<Pending>, size: Sizer, limit: nat, j: nat)
    requires OneTooLarge(batch, size, limit, j)
    ensures Cost(batch, size, limit) <= 2 * Halvings(|batch|) + 2
    ensures |Transfers(batch, size, limit)| <= Halvings(|batch|) + 1
    decreases |batch|
  {
    assert batch[0..|batch|] == batch;
    if |batch| > 1 {
      var mid, h := |batch| / 2, Halvings((|batch| + 1) / 2);
      HalfTooLarge(batch, size, limit, j, 0, mid);
      HalfTooLarge(batch, size, limit, j, mid, |batch|);
      assert batch[0..mid] == batch[..mid] && batch[mid..|batch|] == batch[mid..];
      MoreHalvings(mid, (|batch| + 1) / 2);
      if j < mid {
        OneTooLargeCost(batch[..mid], size, limit, j);
      } else {
        OneTooLargeCost(batch[mid..], size, limit, j - mid);
      }
      OneHalfTooLarge(batch, size, limit, mid, 2 * h + 2, h + 1);
    }
  }

  /** The recursion is linear: at most 3n - 1 serializations. */
  lemma {:induction false} FlushCost(batch: seq<Pending>, size: Sizer, limit: nat)
    requires batch != []
    ensures Cost(batch, size, limit) <= 3 * |batch| - 1
    decreases |batch|
  {
    if size(batch) > limit && |batch| > 1 {
      var mid := |batch| / 2;
      FlushCost(batch[..mid], size, limit);
      FlushCost(batch[mid..], size, limit);
    }
  }
}
