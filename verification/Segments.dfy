/** Byte ranges of one chunked transfer: the interval argument both reassemblers
    rest on. A recorded list is ascending, pairwise disjoint and free of empty
    ranges; a claim is judged against the bytes it covers. */
module Segments {

  datatype Segment = Segment(Offset: nat, Length: nat) {
    function End(): nat { Offset + Length }

    ghost predicate Has(k: int) { Offset <= k < End() }
  }

  datatype Claim = New | Duplicate | Overlap

  ghost predicate SortedDisjoint(segs: seq<Segment>) {
    && (forall i :: 0 <= i < |segs| ==> segs[i].Length > 0)
    && forall i, j :: 0 <= i < j < |segs| ==> segs[i].End() <= segs[j].Offset
  }

  ghost predicate Within(segs: seq<Segment>, total: nat) {
    forall i :: 0 <= i < |segs| ==> segs[i].End() <= total
  }

  /** Byte k has been claimed. */
  ghost predicate Covers(segs: seq<Segment>, k: int) {
    exists i :: 0 <= i < |segs| && segs[i].Has(k)
  }

  ghost predicate Free(segs: seq<Segment>, seg: Segment) {
    forall k :: seg.Has(k) ==> !Covers(segs, k)
  }

  /** The verdict by meaning alone: a retransmit repeats a recorded range, a new
      range meets no claimed byte, anything else overlaps. */
  ghost function Verdict(segs: seq<Segment>, seg: Segment): Claim {
    if seg in segs then Duplicate
    else if Free(segs, seg) then New
    else Overlap
  }

  /** Ordered insertion. */
  function Record(segs: seq<Segment>, seg: Segment): seq<Segment> {
    if segs == [] || segs[0].Offset >= seg.Offset then [seg] + segs
    else [segs[0]] + Record(segs[1..], seg)
  }

  function SumLengths(segs: seq<Segment>): nat {
    if segs == [] then 0 else segs[0].Length + SumLengths(segs[1..])
  }

  lemma {:induction false} RecordAt(segs: seq<Segment>, seg: Segment, i: nat)
    requires i <= |segs|
    requires forall j :: 0 <= j < i ==> segs[j].Offset < seg.Offset
    requires i < |segs| ==> seg.Offset <= segs[i].Offset
    ensures Record(segs, seg) == segs[..i] + [seg] + segs[i..]
  {
    if i > 0 {
      RecordAt(segs[1..], seg, i - 1);
      assert segs == [segs[0]] + segs[1..];
    }
  }

  lemma {:induction false} RecordSum(segs: seq<Segment>, seg: Segment)
    ensures SumLengths(Record(segs, seg)) == SumLengths(segs) + seg.Length
  {
    if segs == [] || segs[0].Offset >= seg.Offset {
      assert ([seg] + segs)[1..] == segs;
    } else {
      RecordSum(segs[1..], seg);
      assert Record(segs, seg)[1..] == Record(segs[1..], seg);
    }
  }

  /** Where an ordered insertion lands. */
  lemma {:induction false} RecordSplit(segs: seq<Segment>, seg: Segment) returns (i: nat)
    ensures i <= |segs|
    ensures forall j :: 0 <= j < i ==> segs[j].Offset < seg.Offset
    ensures i < |segs| ==> seg.Offset <= segs[i].Offset
    ensures Record(segs, seg) == segs[..i] + [seg] + segs[i..]
  {
    i := 0;
    while i < |segs| && segs[i].Offset < seg.Offset
      invariant i <= |segs|
      invariant forall j :: 0 <= j < i ==> segs[j].Offset < seg.Offset
    {
      i := i + 1;
    }
    RecordAt(segs, seg, i);
  }

  lemma {:induction false} RecordHas(segs: seq<Segment>, seg: Segment)
    ensures forall t :: t in Record(segs, seg) <==> t == seg || t in segs
  {
    var i := RecordSplit(segs, seg);
    assert segs == segs[..i] + segs[i..];
  }

  /** Recording a new range keeps the list sorted and disjoint, adds exactly the
      range's bytes, and stays within the transfer. */
  lemma {:induction false} RecordNew(segs: seq<Segment>, seg: Segment, total: nat)
    requires SortedDisjoint(segs) && seg.Length > 0 && Free(segs, seg)
    requires Within(segs, total) && seg.End() <= total
    ensures SortedDisjoint(Record(segs, seg)) && Within(Record(segs, seg), total)
    ensures forall k :: Covers(Record(segs, seg), k) <==> Covers(segs, k) || seg.Has(k)
    ensures SumLengths(Record(segs, seg)) == SumLengths(segs) + seg.Length
  {
    RecordSum(segs, seg);
    RecordCovers(segs, seg);
    forall t | t in segs ensures t.End() <= seg.Offset || seg.End() <= t.Offset {
      var j :| 0 <= j < |segs| && segs[j] == t;
      FreeIsApart(segs, seg, j);
    }
    RecordSorted(segs, seg);
    RecordWithin(segs, seg, total);
  }

  lemma RecordWithin(segs: seq<Segment>, seg: Segment, total: nat)
    requires Within(segs, total) && seg.End() <= total
    ensures Within(Record(segs, seg), total)
  {
    RecordHas(segs, seg);
    var r := Record(segs, seg);
    forall i | 0 <= i < |r| ensures r[i].End() <= total {
      assert r[i] in r;
    }
  }

  /** Inserting a range that keeps apart from every recorded one. */
  lemma {:induction false} RecordSorted(segs: seq<Segment>, seg: Segment)
    requires SortedDisjoint(segs) && seg.Length > 0
    requires forall t :: t in segs ==> t.End() <= seg.Offset || seg.End() <= t.Offset
    ensures SortedDisjoint(Record(segs, seg))
  {
    if segs == [] || segs[0].Offset >= seg.Offset {
      ConsSorted(seg, segs);
    } else {
      RecordSorted(segs[1..], seg);
      RecordHas(segs[1..], seg);
      ConsSorted(segs[0], Record(segs[1..], seg));
    }
  }

  lemma ConsSorted(first: Segment, rest: seq<Segment>)
    requires first.Length > 0 && SortedDisjoint(rest)
    requires forall t :: t in rest ==> first.End() <= t.Offset
    ensures SortedDisjoint([first] + rest)
  {
  }

  lemma {:induction false} RecordCovers(segs: seq<Segment>, seg: Segment)
    ensures forall k :: Covers(Record(segs, seg), k) <==> Covers(segs, k) || seg.Has(k)
  {
    RecordHas(segs, seg);
    var r := Record(segs, seg);
    forall k ensures Covers(r, k) <==> Covers(segs, k) || seg.Has(k) {
      if Covers(r, k) {
        var j :| 0 <= j < |r| && r[j].Has(k);
        assert r[j] in r;
      }
      if Covers(segs, k) {
        var j :| 0 <= j < |segs| && segs[j].Has(k);
        assert segs[j] in r;
      }
      if seg.Has(k) {
        assert seg in r;
      }
    }
  }

  lemma FreeIsApart(segs: seq<Segment>, seg: Segment, j: nat)
    requires SortedDisjoint(segs) && seg.Length > 0 && Free(segs, seg) && j < |segs|
    ensures segs[j].End() <= seg.Offset || seg.End() <= segs[j].Offset
  {
    if segs[j].End() > seg.Offset && seg.End() > segs[j].Offset {
      var k := if segs[j].Offset < seg.Offset then seg.Offset else segs[j].Offset;
      assert segs[j].Has(k) && seg.Has(k);
      assert Covers(segs, k);
    }
  }

  /** The two neighbours decide. With i the first recorded range starting at or
      after seg, the comparison the code makes is the verdict by meaning. */
  lemma NeighboursDecide(segs: seq<Segment>, seg: Segment, i: nat)
    requires SortedDisjoint(segs) && seg.Length > 0 && i <= |segs|
    requires forall j :: 0 <= j < i ==> segs[j].Offset < seg.Offset
    requires forall j :: i <= j < |segs| ==> seg.Offset <= segs[j].Offset
    ensures Verdict(segs, seg) ==
            if i < |segs| && segs[i].Offset == seg.Offset then
              if segs[i].Length == seg.Length then Duplicate else Overlap
            else if i > 0 && segs[i - 1].End() > seg.Offset then Overlap
            else if i < |segs| && seg.End() > segs[i].Offset then Overlap
            else New
  {
    if i < |segs| && segs[i].Offset == seg.Offset {
      assert segs[i].Has(seg.Offset) && seg.Has(seg.Offset);
      assert Covers(segs, seg.Offset);
      if seg in segs {
        var j :| 0 <= j < |segs| && segs[j] == seg;
        assert j >= i;
        assert j == i;
      }
    } else {
      assert seg !in segs;
      if i > 0 && segs[i - 1].End() > seg.Offset {
        assert segs[i - 1].Has(seg.Offset) && seg.Has(seg.Offset);
        assert Covers(segs, seg.Offset);
      } else if i < |segs| && seg.End() > segs[i].Offset {
        assert segs[i].Has(segs[i].Offset) && seg.Has(segs[i].Offset);
        assert Covers(segs, segs[i].Offset);
      } else {
        assert forall j :: 0 <= j < i ==> segs[j].End() <= seg.Offset;
        assert forall j :: i <= j < |segs| ==> seg.End() <= segs[j].Offset;
        assert Free(segs, seg);
      }
    }
  }

  /** Disjoint ranges inside [lo, hi) sum to at most hi - lo, and to exactly that
      when and only when no byte of [lo, hi) is missing. */
  lemma {:induction false} SumIsCoverage(segs: seq<Segment>, lo: nat, hi: nat)
    requires SortedDisjoint(segs) && Within(segs, hi) && lo <= hi
    requires forall i :: 0 <= i < |segs| ==> lo <= segs[i].Offset
    ensures SumLengths(segs) <= hi - lo
    ensures SumLengths(segs) == hi - lo <==> forall k :: lo <= k < hi ==> Covers(segs, k)
  {
    if segs == [] {
      if lo < hi { assert !Covers(segs, lo); }
    } else {
      var first, rest := segs[0], segs[1..];
      SumIsCoverage(rest, first.End(), hi);
      assert forall k :: Covers(segs, k) <==> first.Has(k) || Covers(rest, k) by {
        forall k ensures Covers(segs, k) <==> first.Has(k) || Covers(rest, k) {
          CoversFirst(segs, k);
        }
      }
      if lo < first.Offset {
        assert !Covers(segs, lo);
      } else if forall k :: lo <= k < hi ==> Covers(segs, k) {
        assert forall k :: first.End() <= k < hi ==> Covers(rest, k);
      }
    }
  }

  lemma CoversFirst(segs: seq<Segment>, k: int)
    requires segs != []
    ensures Covers(segs, k) <==> segs[0].Has(k) || Covers(segs[1..], k)
  {
    if Covers(segs, k) {
      var i :| 0 <= i < |segs| && segs[i].Has(k);
      if i > 0 { assert segs[1..][i - 1].Has(k); }
    }
    if Covers(segs[1..], k) {
      var i :| 0 <= i < |segs[1..]| && segs[1..][i].Has(k);
      assert segs[i + 1].Has(k);
    }
  }

  /** The completion contract: the running count reaches the declared total
      exactly when every byte of the transfer has been claimed. */
  lemma CompleteIffCovered(segs: seq<Segment>, total: nat)
    requires SortedDisjoint(segs) && Within(segs, total)
    ensures SumLengths(segs) <= total
    ensures SumLengths(segs) == total <==> forall k :: 0 <= k < total ==> Covers(segs, k)
  {
    SumIsCoverage(segs, 0, total);
  }
}
