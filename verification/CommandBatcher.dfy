/** Per-cell buffering of scheduled writes, their compression into rectangles,
    and the proof that what the host replays means what was scheduled. */
module CommandBatchers {
  import opened GreedyMeshes

  // ----- values as Go compares them

  /** A float64 up to what == can tell: NaN differs from everything, the two
      zeros are equal, any other pattern is itself. */
  datatype Float64 = Zero(negative: bool) | Nan(payload: nat) | Other(pattern: nat)

  datatype ScalarValue = ScalarValue(Type: nat, Num: Float64, Int: int, Bool: bool, Str: string, Err: int)

  predicate SameFloat(a: Float64, b: Float64) { !a.Nan? && (a == b || (a.Zero? && b.Zero?)) }

  /** == on ScalarValue, hence key identity in map[ScalarValue]. */
  predicate SameScalar(a: ScalarValue, b: ScalarValue) {
    SameFloat(a.Num, b.Num) && a.(Num := b.Num) == b
  }

  /** A value up to the sign of zero. */
  function Norm(v: ScalarValue): ScalarValue { if v.Num.Zero? then v.(Num := Zero(false)) else v }

  /** Meaning up to Norm is meaning up to Go's ==: two values merged under one
      map key differ in the sign of a zero at most. */
  lemma NormIsGoEquality(a: ScalarValue, b: ScalarValue)
    ensures SameScalar(a, b) <==> Norm(a) == Norm(b) && !a.Num.Nan?
    ensures Norm(a) == Norm(b) && a != b ==> a.Num.Zero? && b.Num.Zero?
  {
    if Norm(a) == Norm(b) && !a.Num.Nan? {
      assert a.(Num := b.Num) == b;
    }
  }

  /** A value as it is. */
  function Keep(v: ScalarValue): ScalarValue { v }

  predicate SameFormat(a: string, b: string) { a == b }

  // ----- what a write means

  datatype Addr = Addr(Sheet: string, Cell: Cell)
  datatype Batch<V> = Batch(Sheet: string, Rects: seq<Rect>, Val: V)
  type Blob = seq<int>

  datatype QueuedCommand =
    | SetCommand(set_: Batch<ScalarValue>)
    | FormatCommand(fmt: Batch<string>)
    | RawSetCommand(data: Blob)

  datatype Sheets = Sheets(values: map<Addr, ScalarValue>, formats: map<Addr, string>)

  function At(sheet: string, cells: set<Cell>): set<Addr> { set c | c in cells :: Addr(sheet, c) }

  function Fill<V>(sheet: string, cells: set<Cell>, v: V): map<Addr, V> { map a | a in At(sheet, cells) :: v }

  function Image<V>(w: map<Addr, V>, norm: V -> V): map<Addr, V> { map a | a in w :: norm(w[a]) }

  /** Replaying one command. A raw set is an arbitrary change the host makes. Sheets
      hold values as norm shows them: exactly, or up to the sign of zero. */
  function Apply(st: Sheets, c: QueuedCommand, raw: (Sheets, Blob) -> Sheets, norm: ScalarValue -> ScalarValue): Sheets {
    match c
    case SetCommand(b) => st.(values := st.values + Fill(b.Sheet, CellsOf(b.Rects), norm(b.Val)))
    case FormatCommand(b) => st.(formats := st.formats + Fill(b.Sheet, CellsOf(b.Rects), b.Val))
    case RawSetCommand(data) => raw(st, data)
  }

  function Replay(st: Sheets, cs: seq<QueuedCommand>, raw: (Sheets, Blob) -> Sheets, norm: ScalarValue -> ScalarValue): Sheets {
    if cs == [] then st else Apply(Replay(st, cs[..|cs| - 1], raw, norm), cs[|cs| - 1], raw, norm)
  }

  datatype Range = Range(Sheet: string, Rects: seq<Rect>)
  datatype Schedule =
    | Set(target: Range, scalar: ScalarValue)
    | SetRaw(data: Blob)  // a value ToScalar refuses, serialized with its range
    | Format(target: Range, format: string)

  /** What the caller asked for. */
  function Ask(st: Sheets, s: Schedule, raw: (Sheets, Blob) -> Sheets, norm: ScalarValue -> ScalarValue): Sheets {
    match s
    case Set(t, v) => st.(values := st.values + Fill(t.Sheet, CellsOf(t.Rects), norm(v)))
    case SetRaw(data) => raw(st, data)
    case Format(t, f) => st.(formats := st.formats + Fill(t.Sheet, CellsOf(t.Rects), f))
  }

  function AskAll(st: Sheets, ss: seq<Schedule>, raw: (Sheets, Blob) -> Sheets, norm: ScalarValue -> ScalarValue): Sheets {
    if ss == [] then st else Ask(AskAll(st, ss[..|ss| - 1], raw, norm), ss[|ss| - 1], raw, norm)
  }

  type Buffered<V> = map<string, map<Cell, V>>

  function Keys<V>(m: Buffered<V>): set<Addr> { set s, c | s in m && c in m[s] :: Addr(s, c) }

  /** A buffer as one write per cell. */
  function Flat<V>(m: Buffered<V>): map<Addr, V> {
    map a | a in Keys(m) && a.Sheet in m && a.Cell in m[a.Sheet] :: m[a.Sheet][a.Cell]
  }

  function Overlay(st: Sheets, sets: Buffered<ScalarValue>, formats: Buffered<string>, norm: ScalarValue -> ScalarValue): Sheets {
    Sheets(st.values + Image(Flat(sets), norm), st.formats + Flat(formats))
  }

  // ----- batches as one write

  function Effect<V>(bs: seq<Batch<V>>): map<Addr, V> {
    if bs == [] then map[]
    else
      var b := bs[|bs| - 1];
      Effect(bs[..|bs| - 1]) + Fill(b.Sheet, CellsOf(b.Rects), b.Val)
  }

  lemma EffectAppend<V>(bs: seq<Batch<V>>, b: Batch<V>)
    ensures Effect(bs + [b]) == Effect(bs) + Fill(b.Sheet, CellsOf(b.Rects), b.Val)
  {
    assert (bs + [b])[..|bs|] == bs;
  }

  function SetCommands(bs: seq<Batch<ScalarValue>>): (cs: seq<QueuedCommand>)
    ensures |cs| == |bs| && forall i :: 0 <= i < |bs| ==> cs[i] == SetCommand(bs[i])
  {
    seq(|bs|, i requires 0 <= i < |bs| => SetCommand(bs[i]))
  }

  function FormatCommands(bs: seq<Batch<string>>): (cs: seq<QueuedCommand>)
    ensures |cs| == |bs| && forall i :: 0 <= i < |bs| ==> cs[i] == FormatCommand(bs[i])
  {
    seq(|bs|, i requires 0 <= i < |bs| => FormatCommand(bs[i]))
  }

  lemma PlusAssoc<V>(a: map<Addr, V>, b: map<Addr, V>, c: map<Addr, V>)
    ensures (a + b) + c == a + (b + c)
  {
  }

  lemma ImagePlus<V>(a: map<Addr, V>, sheet: string, cells: set<Cell>, v: V, norm: V -> V)
    ensures Image(a + Fill(sheet, cells, v), norm) == Image(a, norm) + Fill(sheet, cells, norm(v))
  {
  }

  lemma {:induction false} ReplaySets(st: Sheets, bs: seq<Batch<ScalarValue>>, raw: (Sheets, Blob) -> Sheets,
                                      norm: ScalarValue -> ScalarValue)
    ensures Replay(st, SetCommands(bs), raw, norm) == st.(values := st.values + Image(Effect(bs), norm))
  {
    if bs != [] {
      var n, b := |bs| - 1, bs[|bs| - 1];
      assert SetCommands(bs)[..n] == SetCommands(bs[..n]);
      ReplaySets(st, bs[..n], raw, norm);
      ImagePlus(Effect(bs[..n]), b.Sheet, CellsOf(b.Rects), b.Val, norm);
      PlusAssoc(st.values, Image(Effect(bs[..n]), norm), Fill(b.Sheet, CellsOf(b.Rects), norm(b.Val)));
    } else {
      assert st.values + Image(Effect(bs), norm) == st.values;
    }
  }

  lemma {:induction false} ReplayFormats(st: Sheets, bs: seq<Batch<string>>, raw: (Sheets, Blob) -> Sheets,
                                         norm: ScalarValue -> ScalarValue)
    ensures Replay(st, FormatCommands(bs), raw, norm) == st.(formats := st.formats + Effect(bs))
  {
    if bs != [] {
      var n, b := |bs| - 1, bs[|bs| - 1];
      assert FormatCommands(bs)[..n] == FormatCommands(bs[..n]);
      ReplayFormats(st, bs[..n], raw, norm);
      PlusAssoc(st.formats, Effect(bs[..n]), Fill(b.Sheet, CellsOf(b.Rects), b.Val));
    } else {
      assert st.formats + Effect(bs) == st.formats;
    }
  }

  lemma {:induction false} ReplayConcat(st: Sheets, a: seq<QueuedCommand>, b: seq<QueuedCommand>,
                                        raw: (Sheets, Blob) -> Sheets, norm: ScalarValue -> ScalarValue)
    ensures Replay(st, a + b, raw, norm) == Replay(Replay(st, a, raw, norm), b, raw, norm)
  {
    if b == [] {
      assert a + b == a;
    } else {
      var n := |b| - 1;
      ReplayConcat(st, a, b[..n], raw, norm);
      assert (a + b)[..|a + b| - 1] == a + b[..n];
    }
  }

  lemma FillUnion<V>(sheet: string, a: set<Cell>, b: set<Cell>, v: V)
    ensures Fill(sheet, a, v) + Fill(sheet, b, v) == Fill(sheet, a + b, v)
  {
  }

  lemma {:induction false} CoveredConcat(a: seq<Rect>, b: seq<Rect>, n: nat)
    requires n <= |b|
    ensures Covered(a + b, |a| + n) == CellsOf(a) + Covered(b, n)
  {
    if n == 0 {
      CoveredSame(a, a + b, |a|);
    } else {
      CoveredConcat(a, b, n - 1);
    }
  }

  // ----- what grouping by value makes of a buffer

  /** == holds between values that are not NaN as between any equals. */
  ghost predicate PartialEquivalence<V(!new)>(same: (V, V) -> bool) {
    && (forall a, b :: same(a, b) ==> same(b, a))
    && (forall a, b, c :: same(a, b) && same(b, c) ==> same(a, c))
  }

  /** Cells of one sheet that end up under one map key. */
  ghost predicate OneKey<V>(f: map<Addr, V>, same: (V, V) -> bool, a: Addr, b: Addr)
    requires a in f && b in f
  {
    a == b || (a.Sheet == b.Sheet && same(f[a], f[b]))
  }

  /** v is the value of some cell under a's key. */
  ghost predicate Picked<V>(f: map<Addr, V>, same: (V, V) -> bool, a: Addr, v: V)
    requires a in f
  {
    exists b :: b in f && OneKey(f, same, a, b) && v == f[b]
  }

  /** w writes the cells of f, all cells of one key with the value of one of them. */
  ghost predicate Merged<V(!new)>(f: map<Addr, V>, same: (V, V) -> bool, w: map<Addr, V>) {
    w.Keys == f.Keys && AllPicked(f, same, w) && OnePerKey(f, same, w)
  }

  ghost predicate AllPicked<V>(f: map<Addr, V>, same: (V, V) -> bool, w: map<Addr, V>)
    requires w.Keys == f.Keys
  {
    forall a {:trigger Picked(f, same, a, w[a])} :: a in f ==> Picked(f, same, a, w[a])
  }

  ghost predicate OnePerKey<V>(f: map<Addr, V>, same: (V, V) -> bool, w: map<Addr, V>)
    requires w.Keys == f.Keys
  {
    forall a, b {:trigger OneKey(f, same, a, b)} :: a in f && b in f && OneKey(f, same, a, b) ==> w[a] == w[b]
  }

  /** No two cells of one sheet hold values that differ and yet are ==. */
  ghost predicate Exact<V(!new)>(f: map<Addr, V>, same: (V, V) -> bool) {
    forall a, b {:trigger OneKey(f, same, a, b)} :: a in f && b in f && OneKey(f, same, a, b) ==> f[a] == f[b]
  }

  /** Whatever order the maps are iterated in, a merged write is the buffer itself
      exactly when no two cells of a sheet hold different values that are ==. */
  lemma MergedIsExactIff<V(!new)>(f: map<Addr, V>, same: (V, V) -> bool, w: map<Addr, V>)
    requires Merged(f, same, w)
    ensures w == f <==> Exact(f, same)
  {
    if Exact(f, same) {
      forall a | a in f ensures w[a] == f[a] {
        assert Picked(f, same, a, w[a]);
        var b :| b in f && OneKey(f, same, a, b) && w[a] == f[b];
      }
    }
  }

  /** Values that count as one map key mean the same under norm. */
  ghost predicate Compatible<V(!new)>(same: (V, V) -> bool, norm: V -> V) {
    forall a, b :: same(a, b) ==> norm(a) == norm(b)
  }

  /** Up to what == cannot tell, a merged write is the buffer. */
  lemma MergedUpToKey<V(!new)>(f: map<Addr, V>, same: (V, V) -> bool, w: map<Addr, V>, norm: V -> V)
    requires Merged(f, same, w) && Compatible(same, norm)
    ensures Image(w, norm) == Image(f, norm)
  {
    forall a | a in f ensures norm(w[a]) == norm(f[a]) {
      assert Picked(f, same, a, w[a]);
      var b :| b in f && OneKey(f, same, a, b) && w[a] == f[b];
    }
  }

  const PLUS_ZERO := ScalarValue(0, Zero(false), 0, false, "", 0)
  const MINUS_ZERO := PLUS_ZERO.(Num := Zero(true))

  /** A buffer in which some cell is written with the other zero, in any order. */
  lemma ASignIsLost(sheet: string, c: Cell, d: Cell, w: map<Addr, ScalarValue>)
    requires c != d
    requires Merged(Flat(map[sheet := map[c := PLUS_ZERO, d := MINUS_ZERO]]), SameScalar, w)
    ensures w[Addr(sheet, c)] == w[Addr(sheet, d)]
    ensures w != Flat(map[sheet := map[c := PLUS_ZERO, d := MINUS_ZERO]])
  {
    var f := Flat(map[sheet := map[c := PLUS_ZERO, d := MINUS_ZERO]]);
    var a, b := Addr(sheet, c), Addr(sheet, d);
    assert a in f && f[a] == PLUS_ZERO && b in f && f[b] == MINUS_ZERO;
    assert OneKey(f, SameScalar, a, b);
  }

  ghost predicate OtherSheets<V>(f: map<Addr, V>, g: map<Addr, V>) {
    forall a, b :: a in f && b in g ==> a.Sheet != b.Sheet
  }

  lemma PickedJoin<V(!new)>(f: map<Addr, V>, g: map<Addr, V>, same: (V, V) -> bool, a: Addr, v: V)
    requires OtherSheets(f, g)
    ensures a in f && Picked(f, same, a, v) ==> Picked(f + g, same, a, v)
    ensures a in g && Picked(g, same, a, v) ==> Picked(f + g, same, a, v)
  {
    if a in f && Picked(f, same, a, v) {
      var b :| b in f && OneKey(f, same, a, b) && v == f[b];
      assert b !in g && a !in g && OneKey(f + g, same, a, b);
    }
    if a in g && Picked(g, same, a, v) {
      var b :| b in g && OneKey(g, same, a, b) && v == g[b];
      assert OneKey(f + g, same, a, b);
    }
  }

  lemma OneKeyJoin<V(!new)>(f: map<Addr, V>, g: map<Addr, V>, same: (V, V) -> bool, a: Addr, b: Addr)
    requires OtherSheets(f, g) && a in f + g && b in f + g && OneKey(f + g, same, a, b)
    ensures if a in g then b in g && OneKey(g, same, a, b) else b !in g && b in f && OneKey(f, same, a, b)
  {
  }

  lemma MergedJoin<V(!new)>(f: map<Addr, V>, g: map<Addr, V>, same: (V, V) -> bool, w: map<Addr, V>, x: map<Addr, V>)
    requires Merged(f, same, w) && Merged(g, same, x) && OtherSheets(f, g)
    ensures Merged(f + g, same, w + x)
  {
    assert OnePerKey(f + g, same, w + x) by {
      forall a, b | a in f + g && b in f + g && OneKey(f + g, same, a, b) ensures (w + x)[a] == (w + x)[b] {
        OneKeyJoin(f, g, same, a, b);
      }
    }
    assert AllPicked(f + g, same, w + x) by {
      forall a | a in f + g ensures Picked(f + g, same, a, (w + x)[a]) {
        if a in g {
          assert Picked(g, same, a, x[a]);
        } else {
          assert Picked(f, same, a, w[a]);
        }
        PickedJoin(f, g, same, a, (w + x)[a]);
      }
    }
  }

  // ----- the flush

  datatype Group<V> = Group(val: V, cells: seq<Cell>) {
    function Last(): Cell
      requires cells != []
    {
      cells[|cells| - 1]
    }
  }

  ghost predicate Kin<V>(from: map<Cell, V>, same: (V, V) -> bool, c: Cell, d: Cell)
    requires c in from && d in from
  {
    c == d || same(from[c], from[d])
  }

  /** home gives each cell handed over so far its group: kin together, others
      apart. A group carries the value of the last cell that joined, as a map
      assignment under an equal key replaces the key. */
  ghost predicate Grouped<V>(groups: seq<Group<V>>, from: map<Cell, V>, home: map<Cell, nat>, same: (V, V) -> bool) {
    && home.Keys <= from.Keys
    && (forall c :: c in home ==> home[c] < |groups| && c in groups[home[c]].cells)
    && (forall g, c :: 0 <= g < |groups| && c in groups[g].cells ==> c in home && home[c] == g)
    && (forall g :: 0 <= g < |groups| ==> Headed(groups[g], from))
    && (forall c, d {:trigger Kin(from, same, c, d)} :: c in home && d in home ==>
          (home[c] == home[d] <==> Kin(from, same, c, d)))
  }

  ghost predicate Headed<V>(group: Group<V>, from: map<Cell, V>) {
    && group.cells != []
    && group.Last() in from && group.val == from[group.Last()]
  }

  /** Whether a new cell's value equals a group's decides whether it is kin to the
      group's cells. */
  lemma KinOfGroup<V(!new)>(groups: seq<Group<V>>, from: map<Cell, V>, home: map<Cell, nat>, same: (V, V) -> bool,
                            d: Cell, c: Cell)
    requires PartialEquivalence(same) && Grouped(groups, from, home, same)
    requires d in home && c in from && c !in home
    ensures Kin(from, same, c, d) <==> same(groups[home[d]].val, from[c])
    ensures Kin(from, same, d, c) <==> same(groups[home[d]].val, from[c])
  {
    var g := home[d];
    assert Headed(groups[g], from);
    var last := groups[g].Last();
    assert last in groups[g].cells;
    assert Kin(from, same, d, last) && Kin(from, same, last, d);
    assert c != d && c != last;
  }

  /** A cell that equals one group's value is kin to that group's cells only. */
  lemma JoinsOnly<V(!new)>(groups: seq<Group<V>>, from: map<Cell, V>, home: map<Cell, nat>, same: (V, V) -> bool,
                           g: nat, c: Cell, d: Cell)
    requires PartialEquivalence(same) && Grouped(groups, from, home, same) && g < |groups|
    requires c in from && c !in home && same(groups[g].val, from[c]) && d in home
    ensures (home[d] == g <==> Kin(from, same, c, d)) && (home[d] == g <==> Kin(from, same, d, c))
  {
    KinOfGroup(groups, from, home, same, d, c);
    assert Headed(groups[g], from);
    var last := groups[g].Last();
    assert last in groups[g].cells && home[last] == g;
    KinOfGroup(groups, from, home, same, last, c);
    if Kin(from, same, d, c) {
      assert d == c || same(from[d], from[c]);
      assert same(from[last], from[c]) && same(from[c], from[last]);
      assert Kin(from, same, d, last);
    }
  }

  lemma JoinGroup<V(!new)>(groups: seq<Group<V>>, from: map<Cell, V>, home: map<Cell, nat>, same: (V, V) -> bool,
                           g: nat, c: Cell)
    requires PartialEquivalence(same) && Grouped(groups, from, home, same) && g < |groups|
    requires c in from && c !in home && same(groups[g].val, from[c])
    ensures Grouped(groups[g := Group(from[c], groups[g].cells + [c])], from, home[c := g], same)
  {
    var groups' := groups[g := Group(from[c], groups[g].cells + [c])];
    assert Headed(groups'[g], from);
    assert forall h :: 0 <= h < |groups| && h != g ==> groups'[h] == groups[h] && Headed(groups[h], from);
    assert forall d :: d in groups'[g].cells <==> d in groups[g].cells || d == c;
    forall d | d in home
      ensures (home[d] == g <==> Kin(from, same, c, d)) && (home[d] == g <==> Kin(from, same, d, c))
    {
      JoinsOnly(groups, from, home, same, g, c, d);
    }
  }

  lemma OpenGroup<V(!new)>(groups: seq<Group<V>>, from: map<Cell, V>, home: map<Cell, nat>, same: (V, V) -> bool, c: Cell)
    requires PartialEquivalence(same) && Grouped(groups, from, home, same) && c in from && c !in home
    requires forall g :: 0 <= g < |groups| ==> !same(groups[g].val, from[c])
    ensures Grouped(groups + [Group(from[c], [c])], from, home[c := |groups|], same)
  {
    var groups' := groups + [Group(from[c], [c])];
    assert Headed(groups'[|groups|], from);
    assert forall h :: 0 <= h < |groups| ==> groups'[h] == groups[h] && Headed(groups[h], from);
    assert forall d :: d in groups'[|groups|].cells <==> d == c;
    forall d | d in home ensures !Kin(from, same, c, d) && !Kin(from, same, d, c) {
      KinOfGroup(groups, from, home, same, d, c);
    }
  }

  /** All the cells are in the groups, each in one. */
  ghost predicate GroupsOf<V>(groups: seq<Group<V>>, from: map<Cell, V>, same: (V, V) -> bool) {
    exists home: map<Cell, nat> :: Grouped(groups, from, home, same) && home.Keys == from.Keys
  }

  /** byVal: map iteration hands the cells over in any order, a value that
      equals no key so far (a NaN equals none) opens an entry of its own. */
  method GroupByValue<V(!new)>(from: map<Cell, V>, same: (V, V) -> bool) returns (groups: seq<Group<V>>)
    requires PartialEquivalence(same)
    ensures GroupsOf(groups, from, same)
  {
    groups := [];
    ghost var home: map<Cell, nat> := map[];
    var left := from.Keys;
    while left != {}
      invariant left <= from.Keys && home.Keys == from.Keys - left
      invariant Grouped(groups, from, home, same)
    {
      var c :| c in left;
      left := left - {c};
      var g := 0;
      while g < |groups| && !same(groups[g].val, from[c])
        invariant 0 <= g <= |groups|
        invariant forall h :: 0 <= h < g ==> !same(groups[h].val, from[c])
      {
        g := g + 1;
      }
      if g < |groups| {
        JoinGroup(groups, from, home, same, g, c);
        groups := groups[g := Group(from[c], groups[g].cells + [c])];
      } else {
        OpenGroup(groups, from, home, same, c);
        groups := groups + [Group(from[c], [c])];
      }
      home := home[c := g];
    }
  }

  lemma FillExtends<V>(sheet: string, rects: seq<Rect>, i: nat, end: nat, v: V)
    requires i <= end <= |rects|
    ensures Fill(sheet, CellsOf(rects[..i]), v) + Fill(sheet, CellsOf(rects[i..end]), v)
            == Fill(sheet, CellsOf(rects[..end]), v)
  {
    CoveredConcat(rects[..i], rects[i..end], end - i);
    assert rects[..i] + rects[i..end] == rects[..end];
    FillUnion(sheet, CellsOf(rects[..i]), CellsOf(rects[i..end]), v);
  }

  ghost predicate CellsInRange<V>(from: map<Cell, V>) {
    forall c :: c in from ==> MIN_INT32 <= c.Row < MAX_INT32 && MIN_INT32 <= c.Col < MAX_INT32
  }

  ghost predicate BufferInRange<V>(m: Buffered<V>) {
    forall s, c :: s in m && c in m[s] ==>
      MIN_INT32 <= c.Row < MAX_INT32 && MIN_INT32 <= c.Col < MAX_INT32
  }

  /** The rectangles of a list of batches, in order. */
  function RectsOf<V>(bs: seq<Batch<V>>): seq<Rect> {
    if bs == [] then [] else RectsOf(bs[..|bs| - 1]) + bs[|bs| - 1].Rects
  }

  lemma RectsAppend<V>(bs: seq<Batch<V>>, b: Batch<V>)
    ensures RectsOf(bs + [b]) == RectsOf(bs) + b.Rects
  {
    assert (bs + [b])[..|bs|] == bs;
  }

  /** One value's batches: 32 rectangles each, the last one what is left. */
  ghost predicate CutUp<V>(bs: seq<Batch<V>>, sheet: string, val: V) {
    forall i :: 0 <= i < |bs| ==>
      && bs[i].Sheet == sheet && bs[i].Val == val
      && 1 <= |bs[i].Rects| <= 32 && (i < |bs| - 1 ==> |bs[i].Rects| == 32)
  }

  ghost predicate SmallBatches<V>(bs: seq<Batch<V>>) { forall b :: b in bs ==> 1 <= |b.Rects| <= 32 }

  /** Rectangles of one group, 32 to a command. */
  method BatchRects<V>(sheet: string, rects: seq<Rect>, val: V) returns (bs: seq<Batch<V>>)
    ensures Effect(bs) == Fill(sheet, CellsOf(rects), val)
    ensures RectsOf(bs) == rects && CutUp(bs, sheet, val)
  {
    bs := [];
    var i := 0;
    assert Effect(bs) == Fill(sheet, CellsOf(rects[..0]), val);
    while i < |rects|
      invariant 0 <= i
      invariant Effect(bs) == Fill(sheet, CellsOf(rects[..if i < |rects| then i else |rects|]), val)
      invariant RectsOf(bs) == rects[..if i < |rects| then i else |rects|] && CutUp(bs, sheet, val)
      invariant i <= |rects| ==> forall b :: b in bs ==> |b.Rects| == 32
    {
      var end := if i + 32 > |rects| then |rects| else i + 32;
      var batch := Batch(sheet, rects[i..end], val);
      EffectAppend(bs, batch);
      RectsAppend(bs, batch);
      FillExtends(sheet, rects, i, end, val);
      assert rects[..i] + rects[i..end] == rects[..end];
      assert forall b :: b in bs + [batch] <==> b in bs || b == batch;
      bs := bs + [batch];
      i := i + 32;
    }
    assert rects[..|rects|] == rects;
  }

  /** What the flush queues: between one and 32 rectangles. */
  ghost predicate Small(c: QueuedCommand) {
    match c
    case SetCommand(b) => 1 <= |b.Rects| <= 32
    case FormatCommand(b) => 1 <= |b.Rects| <= 32
    case RawSetCommand(_) => false
  }

  lemma SmallCommands(a: seq<Batch<ScalarValue>>, b: seq<Batch<string>>)
    requires SmallBatches(a) && SmallBatches(b)
    ensures forall c :: c in SetCommands(a) + FormatCommands(b) ==> Small(c)
  {
  }

  /** What a flush of the two buffers puts behind the queue: their cells key by key,
      sets first, each key's mesh in commands of 32 rectangles. */
  ghost predicate Queued(was: seq<QueuedCommand>, queue: seq<QueuedCommand>,
                         sets: Buffered<ScalarValue>, formats: Buffered<string>) {
    exists a: seq<Batch<ScalarValue>>, b: seq<Batch<string>> ::
      && Compressed(a, Flat(sets), SameScalar) && Compressed(b, Flat(formats), SameFormat)
      && queue == was + (SetCommands(a) + FormatCommands(b))
  }

  lemma NothingQueued(was: seq<QueuedCommand>)
    ensures Queued(was, was, map[], map[])
  {
    NothingCompressed(SameScalar);
    NothingCompressed(SameFormat);
    assert Flat<ScalarValue>(map[]) == map[] && Flat<string>(map[]) == map[];
    assert was == was + (SetCommands([]) + FormatCommands([]));
  }

  /** So the queue only grows, by commands of 1 to 32 rectangles. */
  lemma QueuedGrows(was: seq<QueuedCommand>, queue: seq<QueuedCommand>, sets: Buffered<ScalarValue>, formats: Buffered<string>)
    requires Queued(was, queue, sets, formats)
    ensures was <= queue && forall i :: |was| <= i < |queue| ==> Small(queue[i])
  {
    var a: seq<Batch<ScalarValue>>, b: seq<Batch<string>> :|
      && Compressed(a, Flat(sets), SameScalar) && Compressed(b, Flat(formats), SameFormat)
      && queue == was + (SetCommands(a) + FormatCommands(b));
    CompressedIsSmall(a, Flat(sets), SameScalar);
    CompressedIsSmall(b, Flat(formats), SameFormat);
    SmallCommands(a, b);
    var more := SetCommands(a) + FormatCommands(b);
    assert forall i :: |was| <= i < |queue| ==> queue[i] == more[i - |was|];
  }

  /** The same with one more command behind. */
  ghost predicate QueuedThen(was: seq<QueuedCommand>, queue: seq<QueuedCommand>,
                             sets: Buffered<ScalarValue>, formats: Buffered<string>, c: QueuedCommand) {
    queue != [] && queue[|queue| - 1] == c && Queued(was, queue[..|queue| - 1], sets, formats)
  }

  lemma ThenQueued(was: seq<QueuedCommand>, queue: seq<QueuedCommand>,
                   sets: Buffered<ScalarValue>, formats: Buffered<string>, c: QueuedCommand)
    requires Queued(was, queue, sets, formats)
    ensures QueuedThen(was, queue + [c], sets, formats, c)
  {
    assert (queue + [c])[..|queue|] == queue;
  }


  /** One value group of a sheet. */
  method FlushGroup<V>(sheet: string, group: Group<V>) returns (bs: seq<Batch<V>>)
    requires InRange(group.cells)
    ensures Effect(bs) == Fill(sheet, CellSet(group.cells), group.val)
    ensures IsMesh(CellSet(group.cells), RectsOf(bs)) && CutUp(bs, sheet, group.val)
  {
    var cells := new Cell[|group.cells|](i requires 0 <= i < |group.cells| => group.cells[i]);
    assert cells[..] == group.cells;
    var rects := GreedyMesh(cells);
    bs := BatchRects(sheet, rects, group.val);
  }

  lemma {:induction false} EffectConcat<V>(a: seq<Batch<V>>, b: seq<Batch<V>>)
    ensures Effect(a + b) == Effect(a) + Effect(b)
  {
    if b == [] {
      assert a + b == a;
    } else {
      var n, last := |b| - 1, b[|b| - 1];
      EffectConcat(a, b[..n]);
      assert (a + b)[..|a + b| - 1] == a + b[..n];
      PlusAssoc(Effect(a), Effect(b[..n]), Fill(last.Sheet, CellsOf(last.Rects), last.Val));
    }
  }

  function Indices(n: nat): (s: set<int>)
    ensures forall g :: g in s <==> 0 <= g < n
  {
    if n == 0 then {} else Indices(n - 1) + {n - 1}
  }

  /** w writes each cell of the groups done so far with its group's value. */
  ghost predicate Wrote<V>(w: map<Addr, V>, sheet: string, groups: seq<Group<V>>, home: map<Cell, nat>, done: set<int>) {
    && (forall a :: a in w <==> a.Sheet == sheet && a.Cell in home && home[a.Cell] in done)
    && (forall a :: a in w ==> a.Cell in home && home[a.Cell] < |groups| && w[a] == groups[home[a.Cell]].val)
  }

  lemma WroteNext<V>(w: map<Addr, V>, sheet: string, groups: seq<Group<V>>, home: map<Cell, nat>, done: set<int>, g: nat,
                     from: map<Cell, V>, same: (V, V) -> bool)
    requires Wrote(w, sheet, groups, home, done) && g < |groups|
    requires Grouped(groups, from, home, same)
    ensures Wrote(w + Fill(sheet, CellSet(groups[g].cells), groups[g].val), sheet, groups, home, done + {g})
  {
    var fill := Fill(sheet, CellSet(groups[g].cells), groups[g].val);
    forall a ensures a in fill <==> a.Sheet == sheet && a.Cell in home && home[a.Cell] == g
      ensures a in fill ==> fill[a] == groups[g].val
    {
      FillAt(sheet, CellSet(groups[g].cells), groups[g].val, a);
    }
  }

  /** The buffered cells of one sheet. */
  function SheetFlat<V>(sheet: string, from: map<Cell, V>): (f: map<Addr, V>)
    ensures forall a :: a in f <==> a.Sheet == sheet && a.Cell in from
    ensures forall a :: a in f ==> f[a] == from[a.Cell]
  {
    assert forall a: Addr :: a == Addr(a.Sheet, a.Cell);
    map a | a in At(sheet, from.Keys) && a.Cell in from :: from[a.Cell]
  }

  lemma WroteMerges<V(!new)>(w: map<Addr, V>, sheet: string, groups: seq<Group<V>>, home: map<Cell, nat>,
                             from: map<Cell, V>, same: (V, V) -> bool)
    requires Wrote(w, sheet, groups, home, Indices(|groups|))
    requires Grouped(groups, from, home, same) && home.Keys == from.Keys
    ensures Merged(SheetFlat(sheet, from), same, w)
  {
    var f := SheetFlat(sheet, from);
    assert w.Keys == f.Keys;
    assert OnePerKey(f, same, w) by {
      forall a, b | a in f && b in f && OneKey(f, same, a, b) ensures w[a] == w[b] {
        assert Kin(from, same, a.Cell, b.Cell);
      }
    }
    assert AllPicked(f, same, w) by {
      forall a | a in f ensures Picked(f, same, a, w[a]) {
        var group := groups[home[a.Cell]];
        assert Headed(group, from) && group.Last() in group.cells;
        assert Kin(from, same, a.Cell, group.Last());
        assert OneKey(f, same, a, Addr(sheet, group.Last()));
      }
    }
  }

  lemma GroupInRange<V>(groups: seq<Group<V>>, from: map<Cell, V>, home: map<Cell, nat>, same: (V, V) -> bool, g: nat)
    requires Grouped(groups, from, home, same) && g < |groups| && CellsInRange(from)
    ensures InRange(groups[g].cells)
  {
    forall c | c in groups[g].cells ensures MIN_INT32 <= c.Row < MAX_INT32 && MIN_INT32 <= c.Col < MAX_INT32 {
      assert c in home;
    }
  }

  // ----- how the flush compresses a buffer

  /** The commands of one key: its cells on one sheet, the cell whose value they
      carry, and the batches. */
  datatype Piece<V> = Piece(sheet: string, cells: set<Cell>, from: Cell, batches: seq<Batch<V>>) {
    function Addrs(): set<Addr> { At(sheet, cells) }
    function Source(): Addr { Addr(sheet, from) }
  }

  /** The addresses that share a's key. */
  ghost function KeyClass<V>(f: map<Addr, V>, same: (V, V) -> bool, a: Addr): set<Addr>
    requires a in f
  {
    set b | b in f && OneKey(f, same, a, b)
  }

  /** p is one key's cells, all of them, and its batches carry their mesh in order,
      32 rectangles to a batch, with the value of one of them. */
  ghost predicate Meshes<V>(p: Piece<V>, f: map<Addr, V>, same: (V, V) -> bool) {
    && p.Source() in f && p.Addrs() == KeyClass(f, same, p.Source())
    && IsMesh(p.cells, RectsOf(p.batches)) && CutUp(p.batches, p.sheet, f[p.Source()])
  }

  ghost function Cover<V>(ps: seq<Piece<V>>): set<Addr> {
    if ps == [] then {} else Cover(ps[..|ps| - 1]) + ps[|ps| - 1].Addrs()
  }

  /** No key comes twice. */
  ghost predicate EachOnce<V>(ps: seq<Piece<V>>, f: map<Addr, V>, same: (V, V) -> bool) {
    ps == [] ||
    (var n, p := |ps| - 1, ps[|ps| - 1];
     EachOnce(ps[..n], f, same) && Meshes(p, f, same) && p.Addrs() !! Cover(ps[..n]))
  }

  function Batches<V>(ps: seq<Piece<V>>): seq<Batch<V>> {
    if ps == [] then [] else Batches(ps[..|ps| - 1]) + ps[|ps| - 1].batches
  }

  /** bs is, key by key in some order, the mesh of the cells of f with that key. */
  ghost predicate Compressed<V(!new)>(bs: seq<Batch<V>>, f: map<Addr, V>, same: (V, V) -> bool) {
    exists ps: seq<Piece<V>> :: Batches(ps) == bs && EachOnce(ps, f, same) && Cover(ps) == f.Keys
  }

  lemma PieceAppend<V>(ps: seq<Piece<V>>, p: Piece<V>, f: map<Addr, V>, same: (V, V) -> bool)
    requires EachOnce(ps, f, same) && Meshes(p, f, same) && p.Addrs() !! Cover(ps)
    ensures EachOnce(ps + [p], f, same)
    ensures Batches(ps + [p]) == Batches(ps) + p.batches && Cover(ps + [p]) == Cover(ps) + p.Addrs()
  {
    assert (ps + [p])[..|ps|] == ps;
  }

  lemma SameClass<V>(f: map<Addr, V>, g: map<Addr, V>, same: (V, V) -> bool, a: Addr)
    requires OtherSheets(f, g)
    ensures a in f ==> KeyClass(f + g, same, a) == KeyClass(f, same, a)
    ensures a in g ==> KeyClass(f + g, same, a) == KeyClass(g, same, a)
  {
    if a in f {
      assert a !in g;
      forall b ensures b in KeyClass(f + g, same, a) <==> b in KeyClass(f, same, a) {
        if b in f {
          assert b !in g;
        }
      }
    }
    if a in g {
      forall b ensures b in KeyClass(f + g, same, a) <==> b in KeyClass(g, same, a) {
        if b in f {
          assert b !in g;
        }
      }
    }
  }

  lemma MeshesJoin<V>(p: Piece<V>, f: map<Addr, V>, g: map<Addr, V>, same: (V, V) -> bool)
    requires OtherSheets(f, g) && (Meshes(p, f, same) || Meshes(p, g, same))
    ensures Meshes(p, f + g, same)
  {
    SameClass(f, g, same, p.Source());
    if p.Source() in f {
      assert p.Source() !in g;
    }
  }

  lemma {:induction false} EachOnceJoins<V>(ps: seq<Piece<V>>, f: map<Addr, V>, g: map<Addr, V>, same: (V, V) -> bool)
    requires OtherSheets(f, g) && EachOnce(ps, f, same)
    ensures EachOnce(ps, f + g, same)
  {
    if ps != [] {
      EachOnceJoins(ps[..|ps| - 1], f, g, same);
      MeshesJoin(ps[|ps| - 1], f, g, same);
    }
  }

  lemma OtherSheetsApart<V>(p: Piece<V>, f: map<Addr, V>, g: map<Addr, V>, same: (V, V) -> bool)
    requires OtherSheets(f, g) && Meshes(p, g, same)
    ensures p.Addrs() !! f.Keys
  {
    forall a | a in p.Addrs() ensures a !in f {
      assert a in KeyClass(g, same, p.Source());
    }
  }

  lemma LastOfConcat<T>(a: seq<T>, b: seq<T>)
    requires b != []
    ensures a + b == (a + b[..|b| - 1]) + [b[|b| - 1]] && (a + b)[..|a + b| - 1] == a + b[..|b| - 1]
  {
  }

  lemma {:induction false} BatchesConcat<V>(ps: seq<Piece<V>>, qs: seq<Piece<V>>)
    ensures Batches(ps + qs) == Batches(ps) + Batches(qs)
  {
    if qs == [] {
      assert ps + qs == ps;
    } else {
      BatchesConcat(ps, qs[..|qs| - 1]);
      LastOfConcat(ps, qs);
      Reassociate(Batches(ps), Batches(qs[..|qs| - 1]), qs[|qs| - 1].batches);
    }
  }

  lemma {:induction false} CoverConcat<V>(ps: seq<Piece<V>>, qs: seq<Piece<V>>)
    ensures Cover(ps + qs) == Cover(ps) + Cover(qs)
  {
    if qs == [] {
      assert ps + qs == ps;
    } else {
      CoverConcat(ps, qs[..|qs| - 1]);
      LastOfConcat(ps, qs);
    }
  }

  /** The pieces of further sheets behind those of the sheets so far. */
  lemma {:induction false} PiecesJoin<V>(ps: seq<Piece<V>>, qs: seq<Piece<V>>, f: map<Addr, V>, g: map<Addr, V>,
                                         same: (V, V) -> bool)
    requires OtherSheets(f, g) && EachOnce(ps, f + g, same) && Cover(ps) == f.Keys && EachOnce(qs, g, same)
    ensures EachOnce(ps + qs, f + g, same)
  {
    if qs == [] {
      assert ps + qs == ps;
    } else {
      var rest, p := qs[..|qs| - 1], qs[|qs| - 1];
      PiecesJoin(ps, rest, f, g, same);
      OneMorePiece(ps, rest, p, f, g, same);
      LastOfConcat(ps, qs);
    }
  }

  lemma OneMorePiece<V>(ps: seq<Piece<V>>, rest: seq<Piece<V>>, p: Piece<V>, f: map<Addr, V>, g: map<Addr, V>,
                        same: (V, V) -> bool)
    requires OtherSheets(f, g) && EachOnce(ps + rest, f + g, same) && Cover(ps) == f.Keys
    requires Meshes(p, g, same) && p.Addrs() !! Cover(rest)
    ensures EachOnce((ps + rest) + [p], f + g, same)
  {
    CoverConcat(ps, rest);
    MeshesJoin(p, f, g, same);
    OtherSheetsApart(p, f, g, same);
    PieceAppend(ps + rest, p, f + g, same);
  }

  lemma GroupOfLast<V(!new)>(groups: seq<Group<V>>, g: nat, from: map<Cell, V>, home: map<Cell, nat>, same: (V, V) -> bool, c: Cell)
    requires g < |groups| && Grouped(groups, from, home, same) && c in home
    ensures Headed(groups[g], from) && groups[g].Last() in home
    ensures c in groups[g].cells <==> Kin(from, same, groups[g].Last(), c)
  {
    var last := groups[g].Last();
    assert last in groups[g].cells && home[last] == g;
    assert home[last] == home[c] <==> Kin(from, same, last, c);
  }

  lemma GroupIsClass<V(!new)>(p: Piece<V>, groups: seq<Group<V>>, g: nat, from: map<Cell, V>,
                              home: map<Cell, nat>, same: (V, V) -> bool)
    requires g < |groups| && Grouped(groups, from, home, same) && home.Keys == from.Keys
    requires p.cells == CellSet(groups[g].cells) && groups[g].cells != [] && p.from == groups[g].Last()
    ensures p.from in from && from[p.from] == groups[g].val
    ensures p.Addrs() == KeyClass(SheetFlat(p.sheet, from), same, p.Source())
  {
    assert Headed(groups[g], from);
    forall b ensures b in p.Addrs() <==> b in KeyClass(SheetFlat(p.sheet, from), same, p.Source()) {
      InClass(p, groups, g, from, home, same, b);
    }
  }

  lemma InClass<V(!new)>(p: Piece<V>, groups: seq<Group<V>>, g: nat, from: map<Cell, V>,
                         home: map<Cell, nat>, same: (V, V) -> bool, b: Addr)
    requires g < |groups| && Grouped(groups, from, home, same) && home.Keys == from.Keys
    requires p.cells == CellSet(groups[g].cells) && groups[g].cells != [] && p.from == groups[g].Last() && p.from in from
    ensures b in p.Addrs() <==> b in KeyClass(SheetFlat(p.sheet, from), same, p.Source())
  {
    assert b == Addr(b.Sheet, b.Cell);
    assert b in p.Addrs() <==> b.Sheet == p.sheet && b.Cell in groups[g].cells;
    if b.Cell in home {
      GroupOfLast(groups, g, from, home, same, b.Cell);
    } else {
      assert b.Cell !in groups[g].cells;
    }
  }

  /** The piece of one more group. */
  lemma NextPiece<V(!new)>(ps: seq<Piece<V>>, p: Piece<V>, w: map<Addr, V>, sheet: string, groups: seq<Group<V>>, g: nat,
                           from: map<Cell, V>, home: map<Cell, nat>, done: set<int>, same: (V, V) -> bool)
    requires g < |groups| && Grouped(groups, from, home, same) && home.Keys == from.Keys
    requires groups[g].cells != [] && p == Piece(sheet, CellSet(groups[g].cells), groups[g].Last(), p.batches)
    requires IsMesh(p.cells, RectsOf(p.batches)) && CutUp(p.batches, sheet, groups[g].val)
    requires EachOnce(ps, SheetFlat(sheet, from), same) && Cover(ps) == w.Keys
    requires Wrote(w, sheet, groups, home, done) && g !in done
    ensures EachOnce(ps + [p], SheetFlat(sheet, from), same) && Cover(ps + [p]) == w.Keys + p.Addrs()
    ensures Batches(ps + [p]) == Batches(ps) + p.batches
  {
    GroupIsClass(p, groups, g, from, home, same);
    forall a | a in p.Addrs() ensures a !in w {
      assert a.Cell in groups[g].cells;
    }
    PieceAppend(ps, p, SheetFlat(sheet, from), same);
  }

  /** The pieces made so far are those of what has been written. */
  ghost predicate Piled<V>(bs: seq<Batch<V>>, ps: seq<Piece<V>>, f: map<Addr, V>, same: (V, V) -> bool) {
    Batches(ps) == bs && Cover(ps) == Effect(bs).Keys && EachOnce(ps, f, same)
  }

  lemma NothingPiled<V>(f: map<Addr, V>, same: (V, V) -> bool)
    ensures Piled([], [], f, same)
  {
    var none: seq<Batch<V>> := [];
    assert Effect(none) == map[];
  }

  lemma PiledNext<V(!new)>(bs: seq<Batch<V>>, more: seq<Batch<V>>, ps: seq<Piece<V>>, sheet: string, groups: seq<Group<V>>,
                           g: nat, from: map<Cell, V>, home: map<Cell, nat>, done: set<int>, same: (V, V) -> bool)
      returns (ps': seq<Piece<V>>)
    requires g < |groups| && Grouped(groups, from, home, same) && home.Keys == from.Keys && g !in done
    requires Wrote(Effect(bs), sheet, groups, home, done) && Piled(bs, ps, SheetFlat(sheet, from), same)
    requires Effect(more) == Fill(sheet, CellSet(groups[g].cells), groups[g].val)
    requires IsMesh(CellSet(groups[g].cells), RectsOf(more)) && CutUp(more, sheet, groups[g].val)
    ensures Piled(bs + more, ps', SheetFlat(sheet, from), same)
    ensures Effect(bs + more) == Effect(bs) + Effect(more)
  {
    assert Headed(groups[g], from);
    var piece := Piece(sheet, CellSet(groups[g].cells), groups[g].Last(), more);
    EffectConcat(bs, more);
    NextPiece(ps, piece, Effect(bs), sheet, groups, g, from, home, done, same);
    ps' := ps + [piece];
    assert Effect(bs + more).Keys == Effect(bs).Keys + piece.Addrs();
  }

  lemma Moved(left: set<int>, done: set<int>, g: int)
    requires g in left && left !! done
    ensures left - {g} !! done + {g} && (left - {g}) + (done + {g}) == left + done
  {
  }

  method FlushSheet<V(!new)>(sheet: string, from: map<Cell, V>, same: (V, V) -> bool) returns (bs: seq<Batch<V>>)
    requires PartialEquivalence(same)
    requires CellsInRange(from)
    ensures Merged(SheetFlat(sheet, from), same, Effect(bs))
    ensures Compressed(bs, SheetFlat(sheet, from), same)
  {
    var groups := GroupByValue(from, same);
    ghost var home: map<Cell, nat> :| Grouped(groups, from, home, same) && home.Keys == from.Keys;
    bs := [];
    var left := Indices(|groups|);
    ghost var done: set<int>, ps: seq<Piece<V>> := {}, [];
    NothingPiled(SheetFlat(sheet, from), same);
    while left != {}
      invariant left !! done && left + done == Indices(|groups|)
      invariant Wrote(Effect(bs), sheet, groups, home, done)
      invariant Piled(bs, ps, SheetFlat(sheet, from), same)
    {
      var g :| g in left;
      assert g in Indices(|groups|);
      GroupInRange(groups, from, home, same, g);
      var more := FlushGroup(sheet, groups[g]);
      ps := PiledNext(bs, more, ps, sheet, groups, g, from, home, done, same);
      WroteNext(Effect(bs), sheet, groups, home, done, g, from, same);
      bs := bs + more;
      Moved(left, done, g);
      left, done := left - {g}, done + {g};
    }
    assert left + done == done;
    WroteMerges(Effect(bs), sheet, groups, home, from, same);
  }

  /** The buffered cells of the sheets given. */
  function Part<V>(m: Buffered<V>, sheets: set<string>): (f: map<Addr, V>)
    ensures forall a :: a in f <==> a.Sheet in sheets && a.Sheet in m && a.Cell in m[a.Sheet]
    ensures forall a :: a in f ==> f[a] == m[a.Sheet][a.Cell]
  {
    assert forall a: Addr :: a == Addr(a.Sheet, a.Cell);
    map a | a in Keys(m) && a.Sheet in sheets && a.Sheet in m && a.Cell in m[a.Sheet] :: m[a.Sheet][a.Cell]
  }

  lemma PartGrows<V>(m: Buffered<V>, sheets: set<string>, sheet: string)
    requires sheet in m && sheet !in sheets
    ensures Part(m, sheets + {sheet}) == Part(m, sheets) + SheetFlat(sheet, m[sheet])
    ensures OtherSheets(Part(m, sheets), SheetFlat(sheet, m[sheet]))
  {
    var left, right := Part(m, sheets + {sheet}), Part(m, sheets) + SheetFlat(sheet, m[sheet]);
    assert forall a :: a in left <==> a in right;
    assert left.Keys == right.Keys;
  }

  lemma PartAll<V>(m: Buffered<V>)
    ensures Part(m, m.Keys) == Flat(m) && Part(m, {}) == map[]
  {
  }

  lemma {:induction false} InBatches<V>(ps: seq<Piece<V>>, b: Batch<V>) returns (i: nat)
    requires b in Batches(ps)
    ensures i < |ps| && b in ps[i].batches
  {
    i := |ps| - 1;
    if b !in ps[i].batches {
      i := InBatches(ps[..|ps| - 1], b);
    }
  }

  lemma {:induction false} PieceAt<V>(ps: seq<Piece<V>>, f: map<Addr, V>, same: (V, V) -> bool, i: nat)
    requires EachOnce(ps, f, same) && i < |ps|
    ensures Meshes(ps[i], f, same)
  {
    if i < |ps| - 1 {
      PieceAt(ps[..|ps| - 1], f, same, i);
    }
  }

  // ----- the compressed form is determined by the cells

  lemma {:induction false} FullLength<V>(bs: seq<Batch<V>>)
    requires forall i :: 0 <= i < |bs| ==> |bs[i].Rects| == 32
    ensures |RectsOf(bs)| == 32 * |bs|
  {
    if bs != [] {
      FullLength(bs[..|bs| - 1]);
    }
  }

  /** Rectangles are cut into batches of one value in one way. */
  lemma {:induction false} CutOnce<V>(a: seq<Batch<V>>, b: seq<Batch<V>>, sheet: string, val: V)
    requires CutUp(a, sheet, val) && CutUp(b, sheet, val) && RectsOf(a) == RectsOf(b)
    ensures a == b
    decreases |a|
  {
    if a != [] && b != [] {
      var a1, b1, x, y := a[..|a| - 1], b[..|b| - 1], a[|a| - 1], b[|b| - 1];
      FullLength(a1);
      FullLength(b1);
      assert |a1| == |b1|;
      assert RectsOf(a1) == RectsOf(a)[..32 * |a1|] == RectsOf(b1);
      assert x.Rects == RectsOf(a)[32 * |a1|..] == y.Rects;
      CutOnce(a1, b1, sheet, val);
      assert x == y && a == a1 + [x] && b == b1 + [y];
    }
  }

  /** The cells and the value of a key determine its commands. */
  lemma PieceIsCanonical<V>(p: Piece<V>, q: Piece<V>, f: map<Addr, V>, same: (V, V) -> bool)
    requires Meshes(p, f, same) && Meshes(q, f, same)
    requires p.sheet == q.sheet && p.cells == q.cells && f[p.Source()] == f[q.Source()]
    ensures p.batches == q.batches
  {
    MeshIsCanonical(p.cells, RectsOf(p.batches), RectsOf(q.batches));
    CutOnce(p.batches, q.batches, p.sheet, f[p.Source()]);
  }

  lemma ClassOfMember<V(!new)>(f: map<Addr, V>, same: (V, V) -> bool, a: Addr, b: Addr)
    requires PartialEquivalence(same) && a in f && b in KeyClass(f, same, a)
    ensures KeyClass(f, same, b) == KeyClass(f, same, a)
  {
    forall c | c in f ensures OneKey(f, same, b, c) <==> OneKey(f, same, a, c) {
    }
  }

  lemma {:induction false} InCover<V>(ps: seq<Piece<V>>, a: Addr) returns (i: nat)
    requires a in Cover(ps)
    ensures i < |ps| && a in ps[i].Addrs()
  {
    i := |ps| - 1;
    if a !in ps[i].Addrs() {
      i := InCover(ps[..|ps| - 1], a);
    }
  }

  lemma {:induction false} BatchesHave<V>(ps: seq<Piece<V>>, i: nat, b: Batch<V>)
    requires i < |ps| && b in ps[i].batches
    ensures b in Batches(ps)
  {
    if i < |ps| - 1 {
      BatchesHave(ps[..|ps| - 1], i, b);
    }
  }

  lemma SameAddrs<V>(p: Piece<V>, q: Piece<V>, a: Addr)
    requires p.Addrs() == q.Addrs() && a in p.Addrs()
    ensures p.sheet == q.sheet && p.cells == q.cells
  {
    forall c ensures c in p.cells <==> c in q.cells {
      assert c in p.cells <==> Addr(p.sheet, c) in p.Addrs();
      assert c in q.cells <==> Addr(q.sheet, c) in q.Addrs();
    }
  }

  /** The pieces that hold one address are the same. */
  lemma SamePiece<V(!new)>(p: Piece<V>, q: Piece<V>, f: map<Addr, V>, same: (V, V) -> bool, a: Addr)
    requires PartialEquivalence(same) && Exact(f, same) && Meshes(p, f, same) && Meshes(q, f, same)
    requires a in p.Addrs() && a in q.Addrs()
    ensures p.batches == q.batches
  {
    ClassOfMember(f, same, p.Source(), a);
    ClassOfMember(f, same, q.Source(), a);
    SameAddrs(p, q, a);
    assert a in KeyClass(f, same, p.Source()) && a in KeyClass(f, same, q.Source());
    assert OneKey(f, same, p.Source(), a) && OneKey(f, same, q.Source(), a);
    PieceIsCanonical(p, q, f, same);
  }

  lemma AlsoQueued<V(!new)>(bs: seq<Batch<V>>, bs': seq<Batch<V>>, f: map<Addr, V>, same: (V, V) -> bool, b: Batch<V>)
    requires PartialEquivalence(same) && Exact(f, same)
    requires Compressed(bs, f, same) && Compressed(bs', f, same) && b in bs
    ensures b in bs'
  {
    var ps: seq<Piece<V>> :| Batches(ps) == bs && EachOnce(ps, f, same) && Cover(ps) == f.Keys;
    var qs: seq<Piece<V>> :| Batches(qs) == bs' && EachOnce(qs, f, same) && Cover(qs) == f.Keys;
    var i := InBatches(ps, b);
    PieceAt(ps, f, same, i);
    var a := ps[i].Source();
    assert a in KeyClass(f, same, a);
    var j := InCover(qs, a);
    PieceAt(qs, f, same, j);
    SamePiece(ps[i], qs[j], f, same, a);
    BatchesHave(qs, j, b);
  }

  /** Whatever order the maps are iterated in, the flush of a buffer without
      differing values that are == queues the same commands. */
  lemma FlushIsCanonical<V(!new)>(bs: seq<Batch<V>>, bs': seq<Batch<V>>, f: map<Addr, V>, same: (V, V) -> bool)
    requires PartialEquivalence(same) && Exact(f, same)
    requires Compressed(bs, f, same) && Compressed(bs', f, same)
    ensures forall b :: b in bs <==> b in bs'
  {
    forall b ensures b in bs <==> b in bs' {
      if b in bs {
        AlsoQueued(bs, bs', f, same, b);
      }
      if b in bs' {
        AlsoQueued(bs', bs, f, same, b);
      }
    }
  }

  /** One value over a whole block is one command with one rectangle. */
  lemma BlockIsOneCommand<V(!new)>(bs: seq<Batch<V>>, sheet: string, r: Rect, v: V, same: (V, V) -> bool)
    requires r.Has(r.Corner()) && same(v, v) && Compressed(bs, Fill(sheet, Cells(r), v), same)
    ensures bs == [Batch(sheet, [r], v)]
  {
    var f := Fill(sheet, Cells(r), v);
    var ps: seq<Piece<V>> :| Batches(ps) == bs && EachOnce(ps, f, same) && Cover(ps) == f.Keys;
    FillAt(sheet, Cells(r), v, Addr(sheet, r.Corner()));
    assert Addr(sheet, r.Corner()) in Cover(ps);
    assert ps != [];
    OnePiece(ps, sheet, Cells(r), v, same);
    BlockPiece(ps[0], sheet, r, v, same);
    SinglePiece(ps);
  }

  lemma SinglePiece<V>(ps: seq<Piece<V>>)
    requires |ps| == 1
    ensures Batches(ps) == ps[0].batches
  {
    assert ps[..0] == [] && Batches(ps[..0]) == [];
  }

  lemma OnePiece<V>(ps: seq<Piece<V>>, sheet: string, cells: set<Cell>, v: V, same: (V, V) -> bool)
    requires ps != [] && same(v, v) && EachOnce(ps, Fill(sheet, cells, v), same)
    ensures |ps| == 1 && Meshes(ps[0], Fill(sheet, cells, v), same)
  {
    WholeClass(ps[|ps| - 1], sheet, cells, v, same);
    if |ps| > 1 {
      WholeClass(ps[..|ps| - 1][|ps| - 2], sheet, cells, v, same);
      assert false;
    }
  }

  lemma BlockPiece<V>(p: Piece<V>, sheet: string, r: Rect, v: V, same: (V, V) -> bool)
    requires r.Has(r.Corner()) && same(v, v) && Meshes(p, Fill(sheet, Cells(r), v), same)
    ensures p.batches == [Batch(sheet, [r], v)]
  {
    WholeClass(p, sheet, Cells(r), v, same);
    BlockIsMesh(r);
    MeshIsCanonical(Cells(r), RectsOf(p.batches), [r]);
    var one := Batch(sheet, [r], v);
    RectsAppend([], one);
    assert [] + [one] == [one] && RectsOf([one]) == [r];
    CutOnce(p.batches, [one], sheet, v);
  }

  lemma WholeClass<V>(p: Piece<V>, sheet: string, cells: set<Cell>, v: V, same: (V, V) -> bool)
    requires same(v, v) && Meshes(p, Fill(sheet, cells, v), same)
    ensures p.sheet == sheet && p.cells == cells && p.Addrs() == Fill(sheet, cells, v).Keys && p.Source() in p.Addrs()
  {
    var f := Fill(sheet, cells, v);
    FillAt(sheet, cells, v, p.Source());
    assert p.Source() in KeyClass(f, same, p.Source());
    forall c ensures c in p.cells <==> c in cells {
      FillAt(sheet, cells, v, Addr(p.sheet, c));
      assert c in p.cells <==> Addr(p.sheet, c) in p.Addrs();
    }
  }

  lemma CompressedIsSmall<V(!new)>(bs: seq<Batch<V>>, f: map<Addr, V>, same: (V, V) -> bool)
    requires Compressed(bs, f, same)
    ensures SmallBatches(bs)
  {
    var ps: seq<Piece<V>> :| Batches(ps) == bs && EachOnce(ps, f, same) && Cover(ps) == f.Keys;
    forall b | b in bs ensures 1 <= |b.Rects| <= 32 {
      var i := InBatches(ps, b);
      PieceAt(ps, f, same, i);
    }
  }

  lemma NothingCompressed<V(!new)>(same: (V, V) -> bool)
    ensures Compressed([], map[], same)
  {
    var ps: seq<Piece<V>>, f: map<Addr, V> := [], map[];
    assert Batches(ps) == [] && EachOnce(ps, f, same) && Cover(ps) == f.Keys;
  }

  lemma MorePieces<V(!new)>(ps: seq<Piece<V>>, bs: seq<Batch<V>>, more: seq<Batch<V>>, f: map<Addr, V>, g: map<Addr, V>,
                            same: (V, V) -> bool) returns (all: seq<Piece<V>>)
    requires Batches(ps) == bs && EachOnce(ps, f, same) && Cover(ps) == f.Keys
    requires Compressed(more, g, same) && OtherSheets(f, g)
    ensures Batches(all) == bs + more && EachOnce(all, f + g, same) && Cover(all) == (f + g).Keys
  {
    var qs: seq<Piece<V>> :| Batches(qs) == more && EachOnce(qs, g, same) && Cover(qs) == g.Keys;
    EachOnceJoins(ps, f, g, same);
    PiecesJoin(ps, qs, f, g, same);
    CoverConcat(ps, qs);
    BatchesConcat(ps, qs);
    all := ps + qs;
  }

  /** flushBuffersLocked on one of the two buffers: sheets in any order. */
  method FlushBuffer<V(!new)>(m: Buffered<V>, same: (V, V) -> bool) returns (bs: seq<Batch<V>>)
    requires BufferInRange(m) && PartialEquivalence(same)
    ensures Merged(Flat(m), same, Effect(bs)) && Compressed(bs, Flat(m), same)
  {
    bs := [];
    ghost var done: set<string>, ps: seq<Piece<V>> := {}, [];
    PartAll(m);
    var left := m.Keys;
    while left != {}
      invariant left <= m.Keys && done == m.Keys - left
      invariant Merged(Part(m, done), same, Effect(bs))
      invariant Batches(ps) == bs && EachOnce(ps, Part(m, done), same) && Cover(ps) == Part(m, done).Keys
    {
      var sheet :| sheet in left;
      var more := FlushSheet(sheet, m[sheet], same);
      EffectConcat(bs, more);
      PartGrows(m, done, sheet);
      MergedJoin(Part(m, done), SheetFlat(sheet, m[sheet]), same, Effect(bs), Effect(more));
      ps := MorePieces(ps, bs, more, Part(m, done), SheetFlat(sheet, m[sheet]), same);
      bs := bs + more;
      left, done := left - {sheet}, done + {sheet};
    }
    assert done == m.Keys;
  }

  // ----- the buffers

  function CellFill<V>(cells: set<Cell>, v: V): map<Cell, V> { map c | c in cells :: v }

  method WriteRect<V>(cells: map<Cell, V>, rect: Rect, v: V) returns (cells': map<Cell, V>)
    ensures cells' == cells + CellFill(Cells(rect), v)
  {
    cells' := cells;
    ghost var done: set<Cell> := {};
    var row := rect.RowFirst;
    while row <= rect.RowLast
      invariant rect.RowFirst <= row
      invariant forall c :: c in done <==> rect.Has(c) && c.Row < row
      invariant cells' == cells + CellFill(done, v)
    {
      var col := rect.ColFirst;
      while col <= rect.ColLast
        invariant rect.ColFirst <= col
        invariant forall c :: c in done <==> rect.Has(c) && (c.Row < row || (c.Row == row && c.Col < col))
        invariant cells' == cells + CellFill(done, v)
      {
        cells' := cells'[Cell(row, col) := v];
        done := done + {Cell(row, col)};
        col := col + 1;
      }
      row := row + 1;
    }
    assert done == Cells(rect);
  }

  ghost predicate RectInRange(r: Rect) {
    && MIN_INT32 <= r.RowFirst && r.RowLast < MAX_INT32
    && MIN_INT32 <= r.ColFirst && r.ColLast < MAX_INT32
  }

  ghost predicate TargetInRange(t: Range) { forall r :: r in t.Rects ==> RectInRange(r) }

  method WriteRects<V>(cells: map<Cell, V>, rects: seq<Rect>, v: V) returns (cells': map<Cell, V>)
    ensures cells' == cells + CellFill(CellsOf(rects), v)
  {
    cells' := cells;
    for i := 0 to |rects|
      invariant cells' == cells + CellFill(Covered(rects, i), v)
    {
      cells' := WriteRect(cells', rects[i], v);
    }
  }

  /** The per-cell path: overwrite the buffered cells of every rectangle. */
  method BufferCells<V>(m: Buffered<V>, t: Range, v: V) returns (m': Buffered<V>)
    requires BufferInRange(m) && TargetInRange(t)
    ensures BufferInRange(m')
    ensures Flat(m') == Flat(m) + Fill(t.Sheet, CellsOf(t.Rects), v)
  {
    var cells := WriteRects(if t.Sheet in m then m[t.Sheet] else map[], t.Rects, v);
    m' := m[t.Sheet := cells];
    FlatUpdate(m, t.Sheet, CellsOf(t.Rects), v);
    WrittenInRange(m, t, v);
  }

  lemma WrittenInRange<V>(m: Buffered<V>, t: Range, v: V)
    requires BufferInRange(m) && TargetInRange(t)
    ensures BufferInRange(Written(m, t.Sheet, CellsOf(t.Rects), v))
  {
    CoveredInRange(t.Rects, |t.Rects|);
  }

  lemma {:induction false} CoveredInRange(rs: seq<Rect>, n: nat)
    requires n <= |rs| && forall r :: r in rs ==> RectInRange(r)
    ensures forall c :: c in Covered(rs, n) ==> MIN_INT32 <= c.Row < MAX_INT32 && MIN_INT32 <= c.Col < MAX_INT32
  {
    if n > 0 {
      CoveredInRange(rs, n - 1);
      assert rs[n - 1] in rs;
    }
  }

  lemma FlatAt<V>(m: Buffered<V>, a: Addr)
    ensures a in Flat(m) <==> a.Sheet in m && a.Cell in m[a.Sheet]
    ensures a in Flat(m) ==> Flat(m)[a] == m[a.Sheet][a.Cell]
  {
    assert a == Addr(a.Sheet, a.Cell);
  }

  lemma FillAt<V>(sheet: string, cells: set<Cell>, v: V, a: Addr)
    ensures a in Fill(sheet, cells, v) <==> a.Sheet == sheet && a.Cell in cells
    ensures a in Fill(sheet, cells, v) ==> Fill(sheet, cells, v)[a] == v
  {
    assert a == Addr(a.Sheet, a.Cell);
  }

  function Written<V>(m: Buffered<V>, sheet: string, cells: set<Cell>, v: V): Buffered<V> {
    m[sheet := (if sheet in m then m[sheet] else map[]) + CellFill(cells, v)]
  }

  lemma FlatUpdate<V>(m: Buffered<V>, sheet: string, cells: set<Cell>, v: V)
    ensures Flat(Written(m, sheet, cells, v)) == Flat(m) + Fill(sheet, cells, v)
  {
    var left, right := Flat(Written(m, sheet, cells, v)), Flat(m) + Fill(sheet, cells, v);
    forall a ensures (a in left <==> a in right) && (a in left ==> left[a] == right[a]) {
      FlatUpdateAt(m, sheet, cells, v, a);
    }
    assert left.Keys == right.Keys;
  }

  lemma FlatUpdateAt<V>(m: Buffered<V>, sheet: string, cells: set<Cell>, v: V, a: Addr)
    ensures var left, right := Flat(Written(m, sheet, cells, v)), Flat(m) + Fill(sheet, cells, v);
      (a in left <==> a in right) && (a in left ==> left[a] == right[a])
  {
    FlatAt(Written(m, sheet, cells, v), a);
    FlatAt(m, a);
    FillAt(sheet, cells, v, a);
  }

  const BATCHING_THRESHOLD := 1024

  /** int64 arithmetic. */
  function Wrap64(x: int): int {
    (x + 0x8000_0000_0000_0000) % 0x1_0000_0000_0000_0000 - 0x8000_0000_0000_0000
  }

  function TotalCells(rects: seq<Rect>, n: nat): int
    requires n <= |rects|
  {
    if n == 0 then 0
    else
      Wrap64(TotalCells(rects, n - 1) + Area(rects[n - 1]))
  }

  method CalculateTotalCells(rects: seq<Rect>) returns (total: int)
    ensures total == TotalCells(rects, |rects|)
  {
    total := 0;
    for i := 0 to |rects|
      invariant total == TotalCells(rects, i)
    {
      var rows := rects[i].RowLast - rects[i].RowFirst + 1;
      var cols := rects[i].ColLast - rects[i].ColFirst + 1;
      total := Wrap64(total + rows * cols);
    }
  }

  /** Cells of the first n rectangles, a cell in two of them counted twice. */
  function Counted(rects: seq<Rect>, n: nat): nat
    requires n <= |rects|
  {
    if n == 0 then 0 else Counted(rects, n - 1) + |Cells(rects[n - 1])|
  }

  lemma {:induction false} RowCount(row: int, c0: int, c1: int)
    requires c0 - 1 <= c1
    ensures |Cells(Rect(row, row, c0, c1))| == c1 - c0 + 1
    decreases c1 - c0
  {
    var cells := Cells(Rect(row, row, c0, c1));
    if c1 < c0 {
      assert cells == {};
    } else {
      RowCount(row, c0, c1 - 1);
      assert cells == Cells(Rect(row, row, c0, c1 - 1)) + {Cell(row, c1)};
    }
  }

  lemma OneMoreRow(h: int, w: int)
    ensures (h + 1) * w == h * w + w
  {
  }

  lemma WrapAdd(a: int, b: int)
    ensures Wrap64(Wrap64(a) + b) == Wrap64(a + b)
  {
    var m := 0x1_0000_0000_0000_0000;
    var q := (a + 0x8000_0000_0000_0000) / m;
    assert Wrap64(a) == a - q * m;
    assert (a - q * m + b + 0x8000_0000_0000_0000) % m == (a + b + 0x8000_0000_0000_0000) % m;
  }

  lemma LastRow(r: Rect)
    requires r.RowFirst <= r.RowLast
    ensures var above, row := r.(RowLast := r.RowLast - 1), r.(RowFirst := r.RowLast);
      Cells(r) == Cells(above) + Cells(row) && Cells(above) !! Cells(row)
  {
    var above, row := r.(RowLast := r.RowLast - 1), r.(RowFirst := r.RowLast);
    assert forall c :: r.Has(c) <==> above.Has(c) || row.Has(c);
  }

  lemma UnionCount(a: set<Cell>, b: set<Cell>)
    requires a !! b
    ensures |a + b| == |a| + |b|
  {
  }

  lemma {:induction false} CellCount(r: Rect, h: nat, w: nat)
    requires h == r.RowLast - r.RowFirst + 1 && w == r.ColLast - r.ColFirst + 1
    ensures |Cells(r)| == h * w
    decreases h
  {
    if h == 0 {
      assert Cells(r) == {};
    } else {
      var above, row := r.(RowLast := r.RowLast - 1), r.(RowFirst := r.RowLast);
      CellCount(above, h - 1, w);
      RowCount(r.RowLast, r.ColFirst, r.ColLast);
      LastRow(r);
      UnionCount(Cells(above), Cells(row));
      OneMoreRow(h - 1, w);
    }
  }

  function Area(r: Rect): int { (r.RowLast - r.RowFirst + 1) * (r.ColLast - r.ColFirst + 1) }

  lemma AreaCounts(r: Rect)
    requires r.Has(r.Corner())
    ensures Area(r) == |Cells(r)|
  {
    CellCount(r, r.RowLast - r.RowFirst + 1, r.ColLast - r.ColFirst + 1);
  }

  lemma {:induction false} WrappedCount(rects: seq<Rect>, n: nat)
    requires n <= |rects| && forall r :: r in rects ==> r.Has(r.Corner())
    ensures TotalCells(rects, n) == Wrap64(Counted(rects, n))
  {
    if n > 0 {
      WrappedCount(rects, n - 1);
      AreaCounts(rects[n - 1]);
      WrapAdd(Counted(rects, n - 1), |Cells(rects[n - 1])|);
    }
  }

  lemma TotalCellsCounts(rects: seq<Rect>)
    requires forall r :: r in rects ==> r.Has(r.Corner())
    ensures TotalCells(rects, |rects|)
            == (Counted(rects, |rects|) + 0x8000_0000_0000_0000) % 0x1_0000_0000_0000_0000 - 0x8000_0000_0000_0000
  {
    WrappedCount(rects, |rects|);
  }

  /** The total that decides the path is the number of cells, modulo 64-bit
      wrap-around, so exactly the writes of more than 1024 cells bypass the
      buffers as long as the count does not wrap. */
  lemma BypassIsByCount(rects: seq<Rect>)
    requires forall r :: r in rects ==> r.Has(r.Corner())
    requires Counted(rects, |rects|) < 0x8000_0000_0000_0000
    ensures TotalCells(rects, |rects|) > 1024 <==> Counted(rects, |rects|) > 1024
  {
    TotalCellsCounts(rects);
  }

  // ----- where a buffer's values come from

  /** Some schedule asked for v on this sheet. */
  ghost predicate Asked(asked: seq<Schedule>, sheet: string, v: ScalarValue) {
    exists i :: 0 <= i < |asked| && asked[i].Set? && asked[i].target.Sheet == sheet && asked[i].scalar == v
  }

  ghost predicate Sourced(f: map<Addr, ScalarValue>, asked: seq<Schedule>) {
    forall a :: a in f ==> Asked(asked, a.Sheet, f[a])
  }

  /** No sheet is scheduled two values that differ and yet are ==: no +0 next to a
      -0 that are otherwise alike. */
  ghost predicate Unambiguous(asked: seq<Schedule>) {
    forall i, j :: 0 <= i < |asked| && 0 <= j < |asked| && asked[i].Set? && asked[j].Set?
                   && asked[i].target.Sheet == asked[j].target.Sheet && SameScalar(asked[i].scalar, asked[j].scalar)
                   ==> asked[i].scalar == asked[j].scalar
  }

  lemma SourcedIsExact(f: map<Addr, ScalarValue>, asked: seq<Schedule>)
    requires Sourced(f, asked) && Unambiguous(asked)
    ensures Exact(f, SameScalar)
  {
    forall a, b | a in f && b in f && OneKey(f, SameScalar, a, b) ensures f[a] == f[b] {
      assert Asked(asked, a.Sheet, f[a]) && Asked(asked, b.Sheet, f[b]);
      var i :| 0 <= i < |asked| && asked[i].Set? && asked[i].target.Sheet == a.Sheet && asked[i].scalar == f[a];
      var j :| 0 <= j < |asked| && asked[j].Set? && asked[j].target.Sheet == b.Sheet && asked[j].scalar == f[b];
    }
  }

  lemma AskedMore(asked: seq<Schedule>, s: Schedule)
    ensures Unambiguous(asked + [s]) ==> Unambiguous(asked)
    ensures forall sheet, v :: Asked(asked, sheet, v) ==> Asked(asked + [s], sheet, v)
    ensures s.Set? ==> Asked(asked + [s], s.target.Sheet, s.scalar)
  {
    var more := asked + [s];
    assert forall i :: 0 <= i < |asked| ==> more[i] == asked[i];
    assert more[|asked|] == s;
    forall sheet, v | Asked(asked, sheet, v) ensures Asked(more, sheet, v) {
      var i :| 0 <= i < |asked| && asked[i].Set? && asked[i].target.Sheet == sheet && asked[i].scalar == v;
      assert more[i] == asked[i];
    }
    if Unambiguous(more) {
      forall i, j | 0 <= i < |asked| && 0 <= j < |asked| && asked[i].Set? && asked[j].Set?
          && asked[i].target.Sheet == asked[j].target.Sheet && SameScalar(asked[i].scalar, asked[j].scalar)
        ensures asked[i].scalar == asked[j].scalar
      {
        assert more[i] == asked[i] && more[j] == asked[j];
      }
    }
  }

  lemma SourcedMore(f: map<Addr, ScalarValue>, asked: seq<Schedule>, s: Schedule, g: map<Addr, ScalarValue>)
    requires Sourced(f, asked)
    requires g == f || (s.Set? && g == f + Fill(s.target.Sheet, CellsOf(s.target.Rects), s.scalar))
    ensures Sourced(g, asked + [s])
  {
    AskedMore(asked, s);
    forall a | a in g ensures Asked(asked + [s], a.Sheet, g[a]) {
      if s.Set? {
        FillAt(s.target.Sheet, CellsOf(s.target.Rects), s.scalar, a);
      }
      assert a in f && g[a] == f[a] ==> Asked(asked, a.Sheet, f[a]);
    }
  }

  // ----- the batcher

  /** The command a schedule becomes when it bypasses the buffers. */
  function CommandFor(s: Schedule): QueuedCommand {
    match s
    case Set(t, v) => SetCommand(Batch(t.Sheet, t.Rects, v))
    case SetRaw(data) => RawSetCommand(data)
    case Format(t, f) => FormatCommand(Batch(t.Sheet, t.Rects, f))
  }

  /** What a batcher has been asked and has done: sent is every command queued so
      far, handed to the host or not; raw is what the host makes of a raw set. */
  datatype View = View(initial: Sheets, raw: (Sheets, Blob) -> Sheets, sent: seq<QueuedCommand>,
                       sets: Buffered<ScalarValue>, formats: Buffered<string>,
                       asked: seq<Schedule>, exact: bool)
  {
    /** The sheets once everything sent has been replayed. */
    ghost function Replayed(norm: ScalarValue -> ScalarValue): Sheets { Replay(initial, sent, raw, norm) }

    /** The same with the buffered cells laid over them. */
    ghost function Shown(norm: ScalarValue -> ScalarValue): Sheets { Overlay(Replayed(norm), sets, formats, norm) }

    /** What applying the schedules one by one shows. */
    ghost function Meant(norm: ScalarValue -> ScalarValue): Sheets { AskAll(initial, asked, raw, norm) }

    /** The buffers emptied into the commands more. */
    ghost function After(more: seq<QueuedCommand>): View {
      this.(sent := sent + more, sets := map[], formats := map[], exact := exact && BufferExact())
    }

    /** No sheet has values buffered that differ and yet are ==. */
    ghost predicate BufferExact() { Exact(Flat(sets), SameScalar) }

    /** What is shown is what was meant: up to the sign of zero always, and exactly
        as long as no flush has lost a sign. */
    ghost predicate Good() {
      && BufferInRange(sets) && BufferInRange(formats)
      && Shown(Norm) == Meant(Norm) && (exact ==> Shown(Keep) == Meant(Keep))
      && Sourced(Flat(sets), asked) && (Unambiguous(asked) ==> exact)
    }
  }

  class CommandBatcher {
    var bufferedSets: Buffered<ScalarValue>
    var bufferedFormats: Buffered<string>
    var cmdQueue: seq<QueuedCommand>

    ghost const raw: (Sheets, Blob) -> Sheets
    ghost const initial: Sheets
    ghost var asked: seq<Schedule>         // every schedule so far
    ghost var emitted: seq<QueuedCommand>  // every command handed to the host
    ghost var exact: bool                  // no buffer flushed so far lost a sign

    ghost function Abs(): View
      reads this
    {
      View(initial, raw, emitted + cmdQueue, bufferedSets, bufferedFormats, asked, exact)
    }

    ghost predicate Valid()
      reads this
    {
      Abs().Good()
    }

    constructor (ghost initial: Sheets, ghost raw: (Sheets, Blob) -> Sheets)
      ensures Valid() && Abs() == View(initial, raw, [], map[], map[], [], true)
    {
      bufferedSets, bufferedFormats, cmdQueue := map[], map[], [];
      this.raw, this.initial := raw, initial;
      asked, emitted, exact := [], [], true;
      new;
      EmptyOverlay(initial, Norm);
      EmptyOverlay(initial, Keep);
    }

    method FlushBuffersLocked()
      requires Valid()
      modifies this`bufferedSets, this`bufferedFormats, this`cmdQueue, this`exact
      ensures Valid() && Emptied(old(Abs()), Abs())
      ensures Queued(old(cmdQueue), cmdQueue, old(bufferedSets), old(bufferedFormats))
    {
      if |bufferedSets| == 0 && |bufferedFormats| == 0 {
        FlushesNothing(Abs());
        NothingQueued(cmdQueue);
        return;
      }
      QueueBuffers();
    }

    /** FlushBuffersLocked with something buffered. */
    method QueueBuffers()
      requires Valid()
      modifies this`bufferedSets, this`bufferedFormats, this`cmdQueue, this`exact
      ensures Valid() && Emptied(old(Abs()), Abs())
      ensures Queued(old(cmdQueue), cmdQueue, old(bufferedSets), old(bufferedFormats))
    {
      var more := CommandsOf(Abs(), bufferedSets, bufferedFormats, cmdQueue);
      ResetBuffers(more);
    }

    /** The buffers give way to the commands made of them. */
    method ResetBuffers(more: seq<QueuedCommand>)
      modifies this`bufferedSets, this`bufferedFormats, this`cmdQueue, this`exact
      ensures Abs() == old(Abs()).After(more) && cmdQueue == old(cmdQueue) + more
    {
      Reassociate(emitted, cmdQueue, more);
      exact := exact && Abs().BufferExact();
      bufferedSets, bufferedFormats := map[], map[];
      cmdQueue := cmdQueue + more;
    }

    /** Queue the command of schedule s, behind everything before it. */
    method Enqueue(c: QueuedCommand, ghost s: Schedule)
      requires Valid() && c == CommandFor(s)
      modifies this
      ensures Valid() && asked == old(asked) + [s] && emitted == old(emitted)
      ensures exact == (old(exact) && old(Abs()).BufferExact())
      ensures bufferedSets == map[] && bufferedFormats == map[]
      ensures QueuedThen(old(cmdQueue), cmdQueue, old(bufferedSets), old(bufferedFormats), c)
    {
      ghost var v := Abs();
      FlushBuffersLocked();
      EmptiedDelivers(v, Abs());
      EnqueueKeeps(Abs(), s);
      ThenQueued(old(cmdQueue), cmdQueue, v.sets, v.formats, c);
      Append(c, s);
    }

    method Append(c: QueuedCommand, ghost s: Schedule)
      modifies this`cmdQueue, this`asked
      ensures Abs() == old(Abs()).(sent := old(Abs()).sent + [c], asked := old(asked) + [s])
      ensures cmdQueue == old(cmdQueue) + [c]
    {
      Reassociate(emitted, cmdQueue, [c]);
      cmdQueue := cmdQueue + [c];
      asked := asked + [s];
    }

    method ScheduleSet(t: Range, v: ScalarValue)
      requires Valid() && TargetInRange(t)
      modifies this
      ensures Valid() && asked == old(asked) + [Set(t, v)] && emitted == old(emitted)
      ensures if TotalCells(t.Rects, |t.Rects|) > 1024
        then bufferedSets == map[] && bufferedFormats == map[] && exact == (old(exact) && old(Abs()).BufferExact())
             && QueuedThen(old(cmdQueue), cmdQueue, old(bufferedSets), old(bufferedFormats),
                           SetCommand(Batch(t.Sheet, t.Rects, v)))
        else cmdQueue == old(cmdQueue) && bufferedFormats == old(bufferedFormats) && exact == old(exact)
             && Flat(bufferedSets) == Flat(old(bufferedSets)) + Fill(t.Sheet, CellsOf(t.Rects), v)
    {
      var totalCells := CalculateTotalCells(t.Rects);
      if totalCells > BATCHING_THRESHOLD {
        Enqueue(SetCommand(Batch(t.Sheet, t.Rects, v)), Set(t, v));
        return;
      }
      var sets := BufferCells(bufferedSets, t, v);
      BufferKeeps(Abs(), sets, bufferedFormats, Set(t, v));
      bufferedSets := sets;
      asked := asked + [Set(t, v)];
    }

    /** A value ToScalar refuses. */
    method ScheduleRawSet(data: Blob)
      requires Valid()
      modifies this
      ensures Valid() && asked == old(asked) + [SetRaw(data)] && emitted == old(emitted)
      ensures bufferedSets == map[] && bufferedFormats == map[] && exact == (old(exact) && old(Abs()).BufferExact())
      ensures QueuedThen(old(cmdQueue), cmdQueue, old(bufferedSets), old(bufferedFormats), RawSetCommand(data))
    {
      Enqueue(RawSetCommand(data), SetRaw(data));
    }

    method ScheduleFormat(t: Range, format: string)
      requires Valid() && TargetInRange(t)
      modifies this
      ensures Valid() && asked == old(asked) + [Format(t, format)] && emitted == old(emitted)
      ensures if TotalCells(t.Rects, |t.Rects|) > 1024
        then bufferedSets == map[] && bufferedFormats == map[] && exact == (old(exact) && old(Abs()).BufferExact())
             && QueuedThen(old(cmdQueue), cmdQueue, old(bufferedSets), old(bufferedFormats),
                           FormatCommand(Batch(t.Sheet, t.Rects, format)))
        else cmdQueue == old(cmdQueue) && bufferedSets == old(bufferedSets) && exact == old(exact)
             && Flat(bufferedFormats) == Flat(old(bufferedFormats)) + Fill(t.Sheet, CellsOf(t.Rects), format)
    {
      var totalCells := CalculateTotalCells(t.Rects);
      if totalCells > BATCHING_THRESHOLD {
        Enqueue(FormatCommand(Batch(t.Sheet, t.Rects, format)), Format(t, format));
        return;
      }
      var formats := BufferCells(bufferedFormats, t, format);
      BufferKeeps(Abs(), bufferedSets, formats, Format(t, format));
      bufferedFormats := formats;
      asked := asked + [Format(t, format)];
    }

    /** The calc-end flush: after it, what the host has been given means every
        schedule so far, in order, the last write to a cell winning. The values are
        exactly those scheduled if and only if this last buffer is exact, when those
        before it were; they are whenever no sheet was scheduled both zeros. */
    method FlushCommands() returns (queue: seq<QueuedCommand>)
      requires Valid()
      modifies this
      ensures Valid() && emitted == old(emitted) + queue && cmdQueue == []
      ensures Delivers(old(Abs()), Abs())
      ensures Queued(old(cmdQueue), queue, old(bufferedSets), old(bufferedFormats))
    {
      ghost var v := Abs();
      FlushBuffersLocked();
      EmptiedDelivers(v, Abs());
      queue := TakeQueue();
    }

    method TakeQueue() returns (queue: seq<QueuedCommand>)
      modifies this`cmdQueue, this`emitted
      ensures Abs() == old(Abs()) && queue == old(cmdQueue) && cmdQueue == [] && emitted == old(emitted) + queue
    {
      queue := cmdQueue;
      cmdQueue := [];
      assert (emitted + queue) + cmdQueue == emitted + queue;
      emitted := emitted + queue;
    }
  }

  /** A flush that has queued everything: what has been sent means every schedule so
      far, in order, up to the sign of zero always; exactly, as long as no earlier
      flush lost a sign, if and only if this buffer is exact; and exactly whenever
      no sheet was scheduled both zeros. */
  ghost predicate Delivers(v: View, v': View) {
    && v'.sets == map[] && v'.formats == map[] && v'.asked == v.asked
    && v'.initial == v.initial && v'.raw == v.raw && v'.exact == (v.exact && v.BufferExact())
    && v'.Replayed(Norm) == v'.Meant(Norm)
    && (v.exact ==> (v'.Replayed(Keep) == v'.Meant(Keep) <==> v.BufferExact()))
    && (Unambiguous(v.asked) ==> v'.Replayed(Keep) == v'.Meant(Keep))
  }

  lemma EmptiedDelivers(v: View, v': View)
    requires v.Good() && Emptied(v, v')
    ensures Delivers(v, v')
  {
    var a, b :| Flushes(v, v', a, b);
    FlushedMeaning(v, v', a, b);
  }

  /** With empty buffers, what has been replayed is what is shown. */
  lemma NothingToFlush(v: View)
    requires v.sets == map[] && v.formats == map[]
    ensures v.Replayed(Norm) == v.Shown(Norm) && v.Replayed(Keep) == v.Shown(Keep) && v.BufferExact()
  {
    EmptyOverlay(v.Replayed(Norm), Norm);
    EmptyOverlay(v.Replayed(Keep), Keep);
  }

  /** A flush, in whatever order the maps are iterated: the batches a and b of the
      two buffers are queued and the buffers emptied. */
  ghost predicate Flushes(v: View, v': View, a: seq<Batch<ScalarValue>>, b: seq<Batch<string>>) {
    && Merged(Flat(v.sets), SameScalar, Effect(a)) && Merged(Flat(v.formats), SameFormat, Effect(b))
    && v' == v.After(SetCommands(a) + FormatCommands(b))
  }

  ghost predicate Emptied(v: View, v': View) {
    exists a, b :: Flushes(v, v', a, b)
  }

  lemma FlushQueues(v: View, was: seq<QueuedCommand>, a: seq<Batch<ScalarValue>>, b: seq<Batch<string>>)
    requires v.Good()
    requires Merged(Flat(v.sets), SameScalar, Effect(a)) && Merged(Flat(v.formats), SameFormat, Effect(b))
    requires Compressed(a, Flat(v.sets), SameScalar) && Compressed(b, Flat(v.formats), SameFormat)
    ensures var more := SetCommands(a) + FormatCommands(b);
      v.After(more).Good() && Emptied(v, v.After(more)) && Queued(was, was + more, v.sets, v.formats)
  {
    assert Flushes(v, v.After(SetCommands(a) + FormatCommands(b)), a, b);
    FlushKeeps(v, v.After(SetCommands(a) + FormatCommands(b)), a, b);
  }

  /** The commands a flush of both buffers makes. */
  method CommandsOf(ghost v: View, sets: Buffered<ScalarValue>, formats: Buffered<string>, ghost was: seq<QueuedCommand>)
      returns (more: seq<QueuedCommand>)
    requires v.Good() && v.sets == sets && v.formats == formats
    ensures v.After(more).Good() && Emptied(v, v.After(more)) && Queued(was, was + more, sets, formats)
  {
    ScalarsCompare();
    var setBatches := FlushBuffer(sets, SameScalar);
    var formatBatches := FlushBuffer(formats, SameFormat);
    FlushQueues(v, was, setBatches, formatBatches);
    more := SetCommands(setBatches) + FormatCommands(formatBatches);
  }

  lemma FlushesNothing(v: View)
    requires v.sets == map[] && v.formats == map[]
    ensures Flushes(v, v, [], [])
  {
    assert v.sent + (SetCommands([]) + FormatCommands([])) == v.sent;
  }

  /** What is shown does not change up to the sign of zero; exactly, it does not
      change if and only if the buffer is exact. */
  lemma FlushShows(v: View, v': View, a: seq<Batch<ScalarValue>>, b: seq<Batch<string>>)
    requires Flushes(v, v', a, b)
    ensures v'.Replayed(Norm) == v'.Shown(Norm) == v.Shown(Norm)
    ensures v'.Replayed(Keep) == v'.Shown(Keep)
    ensures v'.Replayed(Keep) == v.Shown(Keep) <==> v.BufferExact()
  {
    var more := SetCommands(a) + FormatCommands(b);
    ReplayConcat(v.initial, v.sent, more, v.raw, Norm);
    ReplayConcat(v.initial, v.sent, more, v.raw, Keep);
    FlushReplays(v.Replayed(Norm), v.sets, v.formats, a, b, v.raw);
    FlushReplaysExactly(v.Replayed(Keep), v.sets, v.formats, a, b, v.raw);
    NothingToFlush(v');
  }

  lemma FlushKeeps(v: View, v': View, a: seq<Batch<ScalarValue>>, b: seq<Batch<string>>)
    requires v.Good() && Flushes(v, v', a, b)
    ensures v'.Good()
  {
    FlushShows(v, v', a, b);
    SignsLost(v.sets, v.asked);
  }

  /** Behind a flush, what has been sent means what was scheduled: up to the sign of
      zero always; exactly, as long as no earlier flush lost a sign, if and only if
      this buffer is exact; and exactly whenever no sheet was scheduled both zeros. */
  lemma FlushedMeaning(v: View, v': View, a: seq<Batch<ScalarValue>>, b: seq<Batch<string>>)
    requires v.Good() && Flushes(v, v', a, b)
    ensures v'.Replayed(Norm) == v'.Meant(Norm)
    ensures v.exact ==> (v'.Replayed(Keep) == v'.Meant(Keep) <==> v.BufferExact())
    ensures Unambiguous(v'.asked) ==> v'.Replayed(Keep) == v'.Meant(Keep)
  {
    FlushShows(v, v', a, b);
    SignsLost(v.sets, v.asked);
  }

  lemma EnqueueKeeps(v: View, s: Schedule)
    requires v.Good() && v.sets == map[] && v.formats == map[]
    ensures v.(sent := v.sent + [CommandFor(s)], asked := v.asked + [s]).Good()
  {
    EnqueueShown(v, s, Norm);
    EnqueueShown(v, s, Keep);
    AskOne(v.initial, v.asked, s, v.raw, Norm);
    AskOne(v.initial, v.asked, s, v.raw, Keep);
    AskedMore(v.asked, s);
    SourcedMore(Flat(v.sets), v.asked, s, Flat(v.sets));
  }

  lemma BufferKeeps(v: View, sets: Buffered<ScalarValue>, formats: Buffered<string>, s: Schedule)
    requires v.Good() && BufferInRange(sets) && BufferInRange(formats)
    requires Buffers(v.sets, sets, v.formats, formats, s)
    ensures v.(sets := sets, formats := formats, asked := v.asked + [s]).Good()
  {
    BufferShown(v.Replayed(Norm), v.sets, sets, v.formats, formats, s, v.raw, Norm);
    BufferShown(v.Replayed(Keep), v.sets, sets, v.formats, formats, s, v.raw, Keep);
    AskOne(v.initial, v.asked, s, v.raw, Norm);
    AskOne(v.initial, v.asked, s, v.raw, Keep);
    AskedMore(v.asked, s);
    SourcedMore(Flat(v.sets), v.asked, s, Flat(sets));
  }

  lemma ScalarsCompare()
    ensures PartialEquivalence(SameScalar) && PartialEquivalence(SameFormat)
    ensures Compatible(SameScalar, Norm)
  {
    forall a, b | SameScalar(a, b) ensures Norm(a) == Norm(b) {
      NormIsGoEquality(a, b);
    }
  }

  lemma SignsLost(sets: Buffered<ScalarValue>, asked: seq<Schedule>)
    requires Sourced(Flat(sets), asked)
    ensures Unambiguous(asked) ==> Exact(Flat(sets), SameScalar)
    ensures Sourced(Flat(map[]), asked)
  {
    if Unambiguous(asked) {
      SourcedIsExact(Flat(sets), asked);
    }
  }

  /** Queueing behind empty buffers applies the schedule to what is shown. */
  lemma EnqueueShown(v: View, s: Schedule, norm: ScalarValue -> ScalarValue)
    requires v.sets == map[] && v.formats == map[]
    ensures v.(sent := v.sent + [CommandFor(s)]).Shown(norm) == Ask(v.Shown(norm), s, v.raw, norm)
  {
    var c := CommandFor(s);
    ReplayConcat(v.initial, v.sent, [c], v.raw, norm);
    ReplayOne(v.Replayed(norm), c, v.raw, norm);
    EmptyOverlay(v.Replayed(norm), norm);
    EmptyOverlay(v.(sent := v.sent + [c]).Replayed(norm), norm);
  }

  /** The buffers take schedule s. */
  ghost predicate Buffers(sets: Buffered<ScalarValue>, sets': Buffered<ScalarValue>,
                          formats: Buffered<string>, formats': Buffered<string>, s: Schedule) {
    match s
    case Set(t, v) => formats' == formats && Flat(sets') == Flat(sets) + Fill(t.Sheet, CellsOf(t.Rects), v)
    case Format(t, f) => sets' == sets && Flat(formats') == Flat(formats) + Fill(t.Sheet, CellsOf(t.Rects), f)
    case SetRaw(_) => false
  }

  /** Buffering a schedule's cells shows what applying the schedule would. */
  lemma BufferShown(st: Sheets, sets: Buffered<ScalarValue>, sets': Buffered<ScalarValue>,
                    formats: Buffered<string>, formats': Buffered<string>, s: Schedule,
                    raw: (Sheets, Blob) -> Sheets, norm: ScalarValue -> ScalarValue)
    requires Buffers(sets, sets', formats, formats', s)
    ensures Overlay(st, sets', formats', norm) == Ask(Overlay(st, sets, formats, norm), s, raw, norm)
  {
    match s
    case Set(t, v) =>
      ImagePlus(Flat(sets), t.Sheet, CellsOf(t.Rects), v, norm);
      PlusAssoc(st.values, Image(Flat(sets), norm), Fill(t.Sheet, CellsOf(t.Rects), norm(v)));
    case Format(t, f) => PlusAssoc(st.formats, Flat(formats), Fill(t.Sheet, CellsOf(t.Rects), f));
    case SetRaw(_) =>
  }

  lemma EmptyOverlay(st: Sheets, norm: ScalarValue -> ScalarValue)
    ensures Overlay(st, map[], map[], norm) == st
  {
    assert st.values + Image(Flat(map[]), norm) == st.values;
    assert st.formats + Flat(map[]) == st.formats;
  }

  lemma PlusCancels<V>(base: map<Addr, V>, a: map<Addr, V>, b: map<Addr, V>)
    requires a.Keys == b.Keys
    ensures base + a == base + b <==> a == b
  {
    if base + a == base + b {
      forall k | k in a ensures a[k] == b[k] {
        assert (base + a)[k] == (base + b)[k];
      }
    }
  }

  lemma ReplayBatches(st: Sheets, a: seq<Batch<ScalarValue>>, b: seq<Batch<string>>,
                      raw: (Sheets, Blob) -> Sheets, norm: ScalarValue -> ScalarValue)
    ensures Replay(st, SetCommands(a) + FormatCommands(b), raw, norm)
            == Sheets(st.values + Image(Effect(a), norm), st.formats + Effect(b))
  {
    ReplayConcat(st, SetCommands(a), FormatCommands(b), raw, norm);
    ReplaySets(st, a, raw, norm);
    ReplayFormats(st.(values := st.values + Image(Effect(a), norm)), b, raw, norm);
  }

  /** Replaying the batches of both buffers lays the buffers over the sheets, up to
      the sign of zero... */
  lemma FlushReplays(st: Sheets, sets: Buffered<ScalarValue>, formats: Buffered<string>,
                     a: seq<Batch<ScalarValue>>, b: seq<Batch<string>>, raw: (Sheets, Blob) -> Sheets)
    requires Merged(Flat(sets), SameScalar, Effect(a)) && Merged(Flat(formats), SameFormat, Effect(b))
    ensures Replay(st, SetCommands(a) + FormatCommands(b), raw, Norm) == Overlay(st, sets, formats, Norm)
  {
    ReplayBatches(st, a, b, raw, Norm);
    ScalarsMerged(Flat(sets), Effect(a));
    FormatsMerged(Flat(formats), Effect(b));
  }

  /** ...and exactly if and only if no sheet has values buffered that differ and
      yet are ==. */
  lemma FlushReplaysExactly(st: Sheets, sets: Buffered<ScalarValue>, formats: Buffered<string>,
                            a: seq<Batch<ScalarValue>>, b: seq<Batch<string>>, raw: (Sheets, Blob) -> Sheets)
    requires Merged(Flat(sets), SameScalar, Effect(a)) && Merged(Flat(formats), SameFormat, Effect(b))
    ensures Replay(st, SetCommands(a) + FormatCommands(b), raw, Keep) == Overlay(st, sets, formats, Keep)
            <==> Exact(Flat(sets), SameScalar)
  {
    ReplayBatches(st, a, b, raw, Keep);
    ScalarsMerged(Flat(sets), Effect(a));
    FormatsMerged(Flat(formats), Effect(b));
    PlusCancels(st.values, Effect(a), Flat(sets));
  }

  lemma ScalarsMerged(f: map<Addr, ScalarValue>, w: map<Addr, ScalarValue>)
    requires Merged(f, SameScalar, w)
    ensures Image(w, Norm) == Image(f, Norm) && (w == f <==> Exact(f, SameScalar))
    ensures Image(w, Keep) == w && Image(f, Keep) == f && w.Keys == f.Keys
  {
    ScalarsCompare();
    MergedUpToKey(f, SameScalar, w, Norm);
    MergedIsExactIff(f, SameScalar, w);
  }

  lemma FormatsMerged(f: map<Addr, string>, w: map<Addr, string>)
    requires Merged(f, SameFormat, w)
    ensures w == f
  {
    MergedIsExactIff(f, SameFormat, w);
  }

  lemma Reassociate<T>(a: seq<T>, b: seq<T>, c: seq<T>)
    ensures a + (b + c) == (a + b) + c
  {
  }

  lemma ReplayOne(st: Sheets, c: QueuedCommand, raw: (Sheets, Blob) -> Sheets, norm: ScalarValue -> ScalarValue)
    ensures Replay(st, [c], raw, norm) == Apply(st, c, raw, norm)
  {
    assert [c][..0] == [];
  }

  lemma AskOne(st: Sheets, ss: seq<Schedule>, s: Schedule, raw: (Sheets, Blob) -> Sheets, norm: ScalarValue -> ScalarValue)
    ensures AskAll(st, ss + [s], raw, norm) == Ask(AskAll(st, ss, raw, norm), s, raw, norm)
  {
    assert (ss + [s])[..|ss|] == ss;
  }

  // ----- the last write to a cell

  /** s covers address a with a value, or may change anything. */
  ghost predicate Writes(s: Schedule, a: Addr) {
    s.SetRaw? || (s.Set? && s.target.Sheet == a.Sheet && exists r :: r in s.target.Rects && r.Has(a.Cell))
  }

  ghost predicate Formats(s: Schedule, a: Addr) {
    s.SetRaw? || (s.Format? && s.target.Sheet == a.Sheet && exists r :: r in s.target.Rects && r.Has(a.Cell))
  }

  lemma OnTarget<V>(t: Range, v: V, a: Addr)
    ensures a in Fill(t.Sheet, CellsOf(t.Rects), v)
      <==> t.Sheet == a.Sheet && exists r :: r in t.Rects && r.Has(a.Cell)
    ensures a in Fill(t.Sheet, CellsOf(t.Rects), v) ==> Fill(t.Sheet, CellsOf(t.Rects), v)[a] == v
  {
    FillAt(t.Sheet, CellsOf(t.Rects), v, a);
    InCovered(t.Rects, |t.Rects|, a.Cell);
    if r :| r in t.Rects && r.Has(a.Cell) {
      var i :| 0 <= i < |t.Rects| && t.Rects[i] == r;
    }
  }

  lemma AskedAt(st: Sheets, s: Schedule, raw: (Sheets, Blob) -> Sheets, norm: ScalarValue -> ScalarValue, a: Addr)
    ensures var st' := Ask(st, s, raw, norm);
      && (s.Set? && Writes(s, a) ==> a in st'.values && st'.values[a] == norm(s.scalar))
      && (!Writes(s, a) ==> (a in st'.values <==> a in st.values) && (a in st.values ==> st'.values[a] == st.values[a]))
      && (s.Format? && Formats(s, a) ==> a in st'.formats && st'.formats[a] == s.format)
      && (!Formats(s, a) ==> (a in st'.formats <==> a in st.formats) && (a in st.formats ==> st'.formats[a] == st.formats[a]))
  {
    match s
    case Set(t, v) => OnTarget(t, norm(v), a);
    case Format(t, f) => OnTarget(t, f, a);
    case SetRaw(_) =>
  }

  /** Applied one by one, the last schedule to cover a cell decides its value. */
  lemma {:induction false} LastWriteWins(st: Sheets, ss: seq<Schedule>, raw: (Sheets, Blob) -> Sheets,
                                         norm: ScalarValue -> ScalarValue, a: Addr, i: nat)
    requires i < |ss| && ss[i].Set? && Writes(ss[i], a) && forall j :: i < j < |ss| ==> !Writes(ss[j], a)
    ensures var st' := AskAll(st, ss, raw, norm); a in st'.values && st'.values[a] == norm(ss[i].scalar)
  {
    var n := |ss| - 1;
    AskedAt(AskAll(st, ss[..n], raw, norm), ss[n], raw, norm, a);
    if i < n {
      LastWriteWins(st, ss[..n], raw, norm, a, i);
    }
  }

  /** And likewise its format. */
  lemma {:induction false} LastFormatWins(st: Sheets, ss: seq<Schedule>, raw: (Sheets, Blob) -> Sheets,
                                          norm: ScalarValue -> ScalarValue, a: Addr, i: nat)
    requires i < |ss| && ss[i].Format? && Formats(ss[i], a) && forall j :: i < j < |ss| ==> !Formats(ss[j], a)
    ensures var st' := AskAll(st, ss, raw, norm); a in st'.formats && st'.formats[a] == ss[i].format
  {
    var n := |ss| - 1;
    AskedAt(AskAll(st, ss[..n], raw, norm), ss[n], raw, norm, a);
    if i < n {
      LastFormatWins(st, ss[..n], raw, norm, a, i);
    }
  }

  /** So after a flush that has handed everything over, the host's sheets hold at
      each cell the value of the last schedule that covers it. */
  lemma FlushedCell(v: View, v': View, a: Addr, i: nat)
    requires Delivers(v, v') && i < |v.asked| && v.asked[i].Set? && Writes(v.asked[i], a)
    requires forall j :: i < j < |v.asked| ==> !Writes(v.asked[j], a)
    ensures var shown := v'.Replayed(Norm).values; a in shown && SameValue(shown[a], v.asked[i].scalar)
    ensures Unambiguous(v.asked) ==> a in v'.Replayed(Keep).values && v'.Replayed(Keep).values[a] == v.asked[i].scalar
  {
    LastWriteWins(v'.initial, v'.asked, v'.raw, Norm, a, i);
    LastWriteWins(v'.initial, v'.asked, v'.raw, Keep, a, i);
  }

  /** Equal, or apart in the sign of a zero only. */
  predicate SameValue(a: ScalarValue, b: ScalarValue) { a == b || (a.Num.Zero? && b.Num.Zero? && a.(Num := b.Num) == b) }
}
