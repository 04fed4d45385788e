/** Coalescing a set of cells into rectangles. A mesh is described without its
    loops: each rectangle starts at the row-major least cell not yet covered, is
    as wide as that row allows and then as tall as that width allows. */
module GreedyMeshes {

  datatype Cell = Cell(Row: int, Col: int)
  datatype Rect = Rect(RowFirst: int, RowLast: int, ColFirst: int, ColLast: int) {
    function Corner(): Cell { Cell(RowFirst, ColFirst) }
    predicate Has(c: Cell) { RowFirst <= c.Row <= RowLast && ColFirst <= c.Col <= ColLast }
  }

  const MIN_INT32 := -0x8000_0000
  const MAX_INT32 := 0x7fff_ffff

  predicate Before(a: Cell, b: Cell) { a.Row < b.Row || (a.Row == b.Row && a.Col < b.Col) }

  function Cells(r: Rect): (s: set<Cell>)
    ensures forall c :: c in s <==> r.Has(c)
  {
    set row, col | r.RowFirst <= row <= r.RowLast && r.ColFirst <= col <= r.ColLast :: Cell(row, col)
  }

  /** The cells of the first n rectangles. */
  function Covered(rs: seq<Rect>, n: nat): set<Cell>
    requires n <= |rs|
  {
    if n == 0 then {} else Covered(rs, n - 1) + Cells(rs[n - 1])
  }

  function CellsOf(rs: seq<Rect>): set<Cell> { Covered(rs, |rs|) }

  /** Columns c0..c1 of a row are all free. */
  ghost predicate RowFree(free: set<Cell>, row: int, c0: int, c1: int) {
    forall col :: c0 <= col <= c1 ==> Cell(row, col) in free
  }

  ghost predicate Least(free: set<Cell>, c: Cell) {
    c in free && forall d :: d in free ==> d == c || Before(c, d)
  }

  /** The rectangle the greedy rule builds on the free cells. */
  ghost predicate Greedy(free: set<Cell>, r: Rect) {
    && Least(free, r.Corner())
    && r.ColFirst <= r.ColLast && r.RowFirst <= r.RowLast
    && Cell(r.RowFirst, r.ColLast + 1) !in free
    && (forall row :: r.RowFirst <= row <= r.RowLast ==> RowFree(free, row, r.ColFirst, r.ColLast))
    && !RowFree(free, r.RowLast + 1, r.ColFirst, r.ColLast)
  }

  /** The first n rectangles follow the greedy rule. */
  ghost predicate GreedyUpTo(grid: set<Cell>, rs: seq<Rect>, n: nat)
    requires n <= |rs|
  {
    n == 0 || (GreedyUpTo(grid, rs, n - 1) && Greedy(grid - Covered(rs, n - 1), rs[n - 1]))
  }

  ghost predicate IsMesh(grid: set<Cell>, rs: seq<Rect>) {
    GreedyUpTo(grid, rs, |rs|) && CellsOf(rs) == grid
  }

  lemma {:induction false} GreedyAt(grid: set<Cell>, rs: seq<Rect>, n: nat, i: nat)
    requires i < n <= |rs| && GreedyUpTo(grid, rs, n)
    ensures Greedy(grid - Covered(rs, i), rs[i]) && GreedyUpTo(grid, rs, i)
  {
    if i < n - 1 {
      GreedyAt(grid, rs, n - 1, i);
    }
  }

  // ----- what a mesh is good for

  lemma OneGreedyRect(free: set<Cell>, r: Rect, q: Rect)
    requires Greedy(free, r) && Greedy(free, q)
    ensures r == q
  {
    assert r.Corner() == q.Corner();
    assert r.ColLast < q.ColLast ==> RowFree(free, q.RowFirst, q.ColFirst, q.ColLast) && Cell(r.RowFirst, r.ColLast + 1) in free;
    assert q.ColLast < r.ColLast ==> RowFree(free, r.RowFirst, r.ColFirst, r.ColLast) && Cell(q.RowFirst, q.ColLast + 1) in free;
    assert r.RowLast < q.RowLast ==> RowFree(free, r.RowLast + 1, q.ColFirst, q.ColLast);
    assert q.RowLast < r.RowLast ==> RowFree(free, q.RowLast + 1, r.ColFirst, r.ColLast);
  }

  lemma {:induction false} CoveredSame(a: seq<Rect>, b: seq<Rect>, n: nat)
    requires n <= |a| && n <= |b| && forall i :: 0 <= i < n ==> a[i] == b[i]
    ensures Covered(a, n) == Covered(b, n)
  {
    if n > 0 {
      CoveredSame(a, b, n - 1);
    }
  }

  lemma {:induction false} SamePrefix(grid: set<Cell>, a: seq<Rect>, b: seq<Rect>, n: nat)
    requires n <= |a| && n <= |b| && GreedyUpTo(grid, a, n) && GreedyUpTo(grid, b, n)
    ensures forall i :: 0 <= i < n ==> a[i] == b[i]
  {
    if n > 0 {
      SamePrefix(grid, a, b, n - 1);
      SameNext(grid, a, b, n - 1);
    }
  }

  lemma SameNext(grid: set<Cell>, a: seq<Rect>, b: seq<Rect>, n: nat)
    requires n < |a| && n < |b| && forall i :: 0 <= i < n ==> a[i] == b[i]
    requires Greedy(grid - Covered(a, n), a[n]) && Greedy(grid - Covered(b, n), b[n])
    ensures a[n] == b[n]
  {
    CoveredSame(a, b, n);
    OneGreedyRect(grid - Covered(a, n), a[n], b[n]);
  }

  /** A cell set has one mesh: order and repeats of the input cannot matter. */
  lemma MeshIsCanonical(grid: set<Cell>, a: seq<Rect>, b: seq<Rect>)
    requires IsMesh(grid, a) && IsMesh(grid, b)
    ensures a == b
  {
    if |a| <= |b| {
      NoLonger(grid, a, b);
    } else {
      NoLonger(grid, b, a);
    }
  }

  lemma NoLonger(grid: set<Cell>, a: seq<Rect>, b: seq<Rect>)
    requires IsMesh(grid, a) && IsMesh(grid, b) && |a| <= |b|
    ensures a == b
  {
    if |a| < |b| {
      GreedyAt(grid, b, |b|, |a|);
      Unfinished(grid, b, |a|);
    }
    SamePrefix(grid, a, b, |a|);
    CoveredSame(a, b, |a|);
  }

  lemma Unfinished(grid: set<Cell>, rs: seq<Rect>, n: nat)
    requires n < |rs| && Greedy(grid - Covered(rs, n), rs[n])
    ensures Covered(rs, n) != grid
  {
  }

  lemma {:induction false} InCovered(rs: seq<Rect>, n: nat, c: Cell)
    requires n <= |rs|
    ensures c in Covered(rs, n) <==> exists i :: 0 <= i < n && rs[i].Has(c)
  {
    if n > 0 {
      InCovered(rs, n - 1, c);
    }
  }

  /** Exact cover: nonempty rectangles, no cell in two of them, none missed and
      none added, in strictly increasing row-major order of their corners. */
  lemma MeshIsExactCover(grid: set<Cell>, rs: seq<Rect>)
    requires IsMesh(grid, rs)
    ensures forall c :: c in grid <==> exists i :: 0 <= i < |rs| && rs[i].Has(c)
    ensures forall i, j :: 0 <= i < j < |rs| ==>
      Cells(rs[i]) !! Cells(rs[j]) && Before(rs[i].Corner(), rs[j].Corner())
    ensures forall i :: 0 <= i < |rs| ==> rs[i].Has(rs[i].Corner())
  {
    forall c ensures c in grid <==> exists i :: 0 <= i < |rs| && rs[i].Has(c) {
      InCovered(rs, |rs|, c);
    }
    forall i, j | 0 <= i < j < |rs|
      ensures Cells(rs[i]) !! Cells(rs[j]) && Before(rs[i].Corner(), rs[j].Corner())
    {
      LaterApart(grid, rs, i, j);
    }
    forall i | 0 <= i < |rs| ensures rs[i].Has(rs[i].Corner()) {
      GreedyAt(grid, rs, |rs|, i);
    }
  }

  lemma {:induction false} CoveredGrows(rs: seq<Rect>, i: nat, j: nat)
    requires i <= j <= |rs|
    ensures Covered(rs, i) <= Covered(rs, j)
    ensures i < j ==> Cells(rs[i]) <= Covered(rs, j)
  {
    if i < j {
      CoveredGrows(rs, i, j - 1);
    }
  }

  lemma LaterApart(grid: set<Cell>, rs: seq<Rect>, i: nat, j: nat)
    requires GreedyUpTo(grid, rs, |rs|) && i < j < |rs|
    ensures Cells(rs[i]) !! Cells(rs[j])
    ensures Before(rs[i].Corner(), rs[j].Corner())
  {
    var free := grid - Covered(rs, j);
    GreedyAt(grid, rs, |rs|, i);
    GreedyAt(grid, rs, |rs|, j);
    GreedyIsFree(free, rs[j]);
    CoveredGrows(rs, i, j);
    assert rs[i].Has(rs[i].Corner()) && rs[j].Has(rs[j].Corner());
    assert rs[j].Corner() in grid - Covered(rs, i);
  }

  lemma GreedyIsFree(free: set<Cell>, r: Rect)
    requires Greedy(free, r)
    ensures Cells(r) <= free
  {
    forall c | c in Cells(r) ensures c in free {
      assert RowFree(free, c.Row, r.ColFirst, r.ColLast);
      assert Cell(c.Row, c.Col) == c;
    }
  }

  /** One rectangle comes out exactly when the cells fill one block. */
  lemma OneRectIffBlock(grid: set<Cell>, rs: seq<Rect>)
    requires IsMesh(grid, rs)
    ensures |rs| == 1 <==> exists r: Rect :: Cells(r) == grid && r.Has(r.Corner())
  {
    if |rs| == 1 {
      assert Covered(rs, 1) == Covered(rs, 0) + Cells(rs[0]);
      GreedyAt(grid, rs, 1, 0);
    }
    if r: Rect :| Cells(r) == grid && r.Has(r.Corner()) {
      BlockIsMesh(r);
      MeshIsCanonical(grid, rs, [r]);
    }
  }

  lemma BlockIsMesh(r: Rect)
    requires r.Has(r.Corner())
    ensures IsMesh(Cells(r), [r])
  {
    var free := Cells(r);
    assert Covered([r], 0) == {} && free - Covered([r], 0) == free;
    assert r.Corner() in free;
    assert Cell(r.RowLast + 1, r.ColFirst) !in free;
    assert !RowFree(free, r.RowLast + 1, r.ColFirst, r.ColLast);
    assert Covered([r], 1) == Covered([r], 0) + Cells(r);
    assert Least(free, r.Corner());
    assert Greedy(free, r) && GreedyUpTo(free, [r], 0) && GreedyUpTo(free, [r], 1);
  }

  const HAT := {Cell(0, 1), Cell(1, 0), Cell(1, 1), Cell(1, 2)}
  const HAT_MESH := [Rect(0, 1, 1, 1), Rect(1, 1, 0, 0), Rect(1, 1, 2, 2)]

  lemma HatSteps()
    ensures Covered(HAT_MESH, 0) == {} && Covered(HAT_MESH, 1) == {Cell(0, 1), Cell(1, 1)}
    ensures Covered(HAT_MESH, 2) == {Cell(0, 1), Cell(1, 1), Cell(1, 0)} && Covered(HAT_MESH, 3) == HAT
  {
    assert Cells(Rect(0, 1, 1, 1)) == {Cell(0, 1), Cell(1, 1)};
    assert Cells(Rect(1, 1, 0, 0)) == {Cell(1, 0)} && Cells(Rect(1, 1, 2, 2)) == {Cell(1, 2)};
  }

  lemma HatFirst()
    ensures Greedy(HAT, HAT_MESH[0])
  {
    assert Cell(2, 1) !in HAT && !RowFree(HAT, 2, 1, 1);
  }

  lemma HatRest()
    ensures Greedy(HAT - {Cell(0, 1), Cell(1, 1)}, HAT_MESH[1])
    ensures Greedy(HAT - {Cell(0, 1), Cell(1, 1), Cell(1, 0)}, HAT_MESH[2])
  {
    var free, last := HAT - {Cell(0, 1), Cell(1, 1)}, HAT - {Cell(0, 1), Cell(1, 1), Cell(1, 0)};
    assert Cell(2, 0) !in free && !RowFree(free, 2, 0, 0);
    assert Cell(2, 2) !in last && !RowFree(last, 2, 2, 2);
  }

  lemma HatMesh()
    ensures IsMesh(HAT, HAT_MESH)
  {
    HatSteps();
    HatFirst();
    HatRest();
    assert HAT - Covered(HAT_MESH, 0) == HAT;
    assert GreedyUpTo(HAT, HAT_MESH, 0) && GreedyUpTo(HAT, HAT_MESH, 1);
    assert GreedyUpTo(HAT, HAT_MESH, 2) && GreedyUpTo(HAT, HAT_MESH, 3);
  }

  /** A mesh need not be the least number of rectangles: a cell above the middle
      of three takes three, where two disjoint ones cover the same cells. */
  lemma MeshIsNotMinimal(rs: seq<Rect>)
    requires IsMesh(HAT, rs)
    ensures |rs| == 3
    ensures CellsOf([Rect(0, 0, 1, 1), Rect(1, 1, 0, 2)]) == HAT
    ensures Cells(Rect(0, 0, 1, 1)) !! Cells(Rect(1, 1, 0, 2))
  {
    HatMesh();
    MeshIsCanonical(HAT, rs, HAT_MESH);
    var two := [Rect(0, 0, 1, 1), Rect(1, 1, 0, 2)];
    assert Cells(two[0]) == {Cell(0, 1)} && Cells(two[1]) == {Cell(1, 0), Cell(1, 1), Cell(1, 2)};
    assert Covered(two, 1) == Covered(two, 0) + Cells(two[0]);
  }

  // ----- the code

  function CellSet(s: seq<Cell>): set<Cell> { set c | c in s }

  ghost predicate Sorted(s: seq<Cell>) {
    forall i, j :: 0 <= i < j < |s| ==> s[i] == s[j] || Before(s[i], s[j])
  }

  function Insert(s: seq<Cell>, c: Cell): seq<Cell> {
    if s == [] || !Before(s[0], c) then [c] + s else [s[0]] + Insert(s[1..], c)
  }

  lemma {:induction false} InsertHas(s: seq<Cell>, c: Cell)
    ensures forall d :: d in Insert(s, c) <==> d == c || d in s
  {
    if s != [] && Before(s[0], c) {
      InsertHas(s[1..], c);
    }
  }

  lemma SortedCons(c: Cell, rest: seq<Cell>)
    requires Sorted(rest) && forall d :: d in rest ==> c == d || Before(c, d)
    ensures Sorted([c] + rest)
  {
  }

  lemma {:induction false} InsertSorts(s: seq<Cell>, c: Cell)
    requires Sorted(s)
    ensures Sorted(Insert(s, c)) && multiset(Insert(s, c)) == multiset(s) + multiset{c}
  {
    if s != [] && Before(s[0], c) {
      InsertSorts(s[1..], c);
      InsertHas(s[1..], c);
      assert s == [s[0]] + s[1..];
      SortedCons(s[0], Insert(s[1..], c));
    } else {
      SortedCons(c, s);
    }
  }

  /** What sort.Slice and std::sort leave behind. */
  function SortCells(s: seq<Cell>): seq<Cell> {
    if s == [] then [] else Insert(SortCells(s[1..]), s[0])
  }

  lemma {:induction false} SortSorts(s: seq<Cell>)
    ensures Sorted(SortCells(s)) && multiset(SortCells(s)) == multiset(s)
    ensures |SortCells(s)| == |s| && CellSet(SortCells(s)) == CellSet(s)
  {
    if s != [] {
      SortSorts(s[1..]);
      InsertSorts(SortCells(s[1..]), s[0]);
      assert s == [s[0]] + s[1..];
    }
    SameCells(SortCells(s), s);
  }

  ghost predicate InRange(s: seq<Cell>) {
    forall c :: c in s ==> MIN_INT32 <= c.Row < MAX_INT32 && MIN_INT32 <= c.Col < MAX_INT32
  }

  method ExpandWidth(grid: set<Cell>, visited: set<Cell>, row: int, first: int) returns (last: int)
    requires Cell(row, first) in grid - visited
    requires forall c :: c in grid ==> c.Col < MAX_INT32
    ensures first <= last < MAX_INT32
    ensures RowFree(grid - visited, row, first, last) && Cell(row, last + 1) !in grid - visited
  {
    last := first;
    while true
      invariant first <= last < MAX_INT32 && RowFree(grid - visited, row, first, last)
      decreases MAX_INT32 - last
    {
      var nextCol := last + 1;
      var nextCell := Cell(row, nextCol);
      if nextCell in grid && nextCell !in visited {
        last := nextCol;
      } else {
        break;
      }
    }
  }

  method ExpandHeight(grid: set<Cell>, visited: set<Cell>, row: int, c0: int, c1: int) returns (last: int)
    requires c0 <= c1 && RowFree(grid - visited, row, c0, c1)
    requires forall c :: c in grid ==> c.Row < MAX_INT32
    ensures row <= last < MAX_INT32
    ensures forall r :: row <= r <= last ==> RowFree(grid - visited, r, c0, c1)
    ensures !RowFree(grid - visited, last + 1, c0, c1)
  {
    last := row;
    assert Cell(row, c0) in grid;
    while true
      invariant row <= last < MAX_INT32
      invariant forall r :: row <= r <= last ==> RowFree(grid - visited, r, c0, c1)
      decreases MAX_INT32 - last
    {
      var nextRow := last + 1;
      var canExpand := true;
      var col := c0;
      while col <= c1
        invariant c0 <= col <= c1 + 1 && canExpand
        invariant RowFree(grid - visited, nextRow, c0, col - 1)
      {
        var checkCell := Cell(nextRow, col);
        if checkCell !in grid || checkCell in visited {
          canExpand := false;
          break;
        }
        col := col + 1;
      }
      if canExpand {
        assert Cell(nextRow, c0) in grid;
        last := nextRow;
      } else {
        assert !RowFree(grid - visited, nextRow, c0, c1);
        break;
      }
    }
  }

  method MarkVisited(visited: set<Cell>, rect: Rect) returns (marked: set<Cell>)
    ensures marked == visited + Cells(rect)
  {
    marked := visited;
    var r := rect.RowFirst;
    while r <= rect.RowLast
      invariant r <= rect.RowLast ==> rect.RowFirst <= r
      invariant rect.RowFirst <= r
      invariant forall c :: c in marked <==> c in visited || (rect.Has(c) && c.Row < r)
    {
      var col := rect.ColFirst;
      while col <= rect.ColLast
        invariant rect.ColFirst <= col
        invariant forall c :: c in marked <==>
          c in visited || (rect.Has(c) && (c.Row < r || (c.Row == r && c.Col < col)))
      {
        marked := marked + {Cell(r, col)};
        col := col + 1;
      }
      r := r + 1;
    }
  }

  lemma {:induction false} GreedySame(grid: set<Cell>, a: seq<Rect>, b: seq<Rect>, n: nat)
    requires n <= |a| && n <= |b| && forall i :: 0 <= i < n ==> a[i] == b[i]
    requires GreedyUpTo(grid, a, n)
    ensures GreedyUpTo(grid, b, n)
  {
    if n > 0 {
      GreedySame(grid, a, b, n - 1);
      CoveredSame(a, b, n - 1);
    }
  }

  lemma GrowMesh(grid: set<Cell>, rs: seq<Rect>, r: Rect)
    requires GreedyUpTo(grid, rs, |rs|) && Greedy(grid - CellsOf(rs), r)
    ensures GreedyUpTo(grid, rs + [r], |rs| + 1) && CellsOf(rs + [r]) == CellsOf(rs) + Cells(r)
    ensures Cells(r) <= grid
  {
    AppendCovers(rs, r);
    GreedySame(grid, rs, rs + [r], |rs|);
    GreedyIsFree(grid - CellsOf(rs), r);
  }

  lemma AppendCovers(rs: seq<Rect>, r: Rect)
    ensures Covered(rs + [r], |rs|) == CellsOf(rs)
    ensures CellsOf(rs + [r]) == CellsOf(rs) + Cells(r)
  {
    CoveredSame(rs, rs + [r], |rs|);
  }

  /** What the outer loop over sorted cells has done after n of them. */
  ghost predicate Swept(grid: set<Cell>, rects: seq<Rect>, visited: set<Cell>, sorted: seq<Cell>, n: nat) {
    && n <= |sorted|
    && visited == CellsOf(rects) && visited <= grid
    && GreedyUpTo(grid, rects, |rects|)
    && forall k :: 0 <= k < n ==> sorted[k] in visited
  }

  lemma NextIsLeast(free: set<Cell>, sorted: seq<Cell>, n: nat)
    requires n < |sorted| && Sorted(sorted) && free <= CellSet(sorted) && sorted[n] in free
    requires forall k :: 0 <= k < n ==> sorted[k] !in free
    ensures Least(free, sorted[n])
  {
    forall d | d in free ensures d == sorted[n] || Before(sorted[n], d) {
      var k :| 0 <= k < |sorted| && sorted[k] == d;
    }
  }

  lemma SweptStep(grid: set<Cell>, rects: seq<Rect>, visited: set<Cell>, sorted: seq<Cell>, n: nat, r: Rect)
    requires Swept(grid, rects, visited, sorted, n) && n < |sorted|
    requires Greedy(grid - visited, r) && r.Corner() == sorted[n]
    ensures Swept(grid, rects + [r], visited + Cells(r), sorted, n + 1)
  {
    GrowMesh(grid, rects, r);
    assert r.Has(r.Corner());
  }

  lemma SweptAll(grid: set<Cell>, rects: seq<Rect>, visited: set<Cell>, sorted: seq<Cell>)
    requires Swept(grid, rects, visited, sorted, |sorted|) && grid == CellSet(sorted)
    ensures IsMesh(grid, rects)
  {
    assert grid <= visited;
  }

  /** One turn of the outer loop: grow a rectangle from the next cell, mark it. */
  method Grow(grid: set<Cell>, visited: set<Cell>, ghost rects: seq<Rect>, ghost sorted: seq<Cell>, ghost n: nat, c: Cell)
      returns (rect: Rect, marked: set<Cell>)
    requires Swept(grid, rects, visited, sorted, n) && n < |sorted| && c == sorted[n] && c !in visited
    requires Sorted(sorted) && grid == CellSet(sorted)
    requires forall d :: d in grid ==> d.Row < MAX_INT32 && d.Col < MAX_INT32
    ensures Swept(grid, rects + [rect], marked, sorted, n + 1)
  {
    NextIsLeast(grid - visited, sorted, n);
    var cLast := ExpandWidth(grid, visited, c.Row, c.Col);
    var rLast := ExpandHeight(grid, visited, c.Row, c.Col, cLast);
    rect := Rect(c.Row, rLast, c.Col, cLast);
    marked := MarkVisited(visited, rect);
    SweptStep(grid, rects, visited, sorted, n, rect);
  }

  /** sort.Slice on the caller's own slice. */
  method SortInPlace(cells: array<Cell>)
    modifies cells
    ensures Sorted(cells[..]) && multiset(cells[..]) == multiset(old(cells[..]))
    ensures CellSet(cells[..]) == CellSet(old(cells[..])) && (InRange(old(cells[..])) ==> InRange(cells[..]))
  {
    SortSorts(cells[..]);
    var sorted := SortCells(cells[..]);
    SameCells(cells[..], sorted);
    forall i | 0 <= i < cells.Length {
      cells[i] := sorted[i];
    }
    assert cells[..] == sorted;
    assert forall k :: 0 <= k < |sorted| ==> sorted[k] in CellSet(sorted);
  }

  method GreedyMesh(cells: array<Cell>) returns (rects: seq<Rect>)
    requires InRange(cells[..])
    modifies cells
    ensures IsMesh(CellSet(old(cells[..])), rects)
    ensures Sorted(cells[..]) && multiset(cells[..]) == multiset(old(cells[..]))
  {
    if cells.Length == 0 {
      return [];
    }
    SortInPlace(cells);
    ghost var sorted := cells[..];
    var grid := CellSet(cells[..]);
    rects := [];
    var visited := {};
    for i := 0 to cells.Length
      invariant cells[..] == sorted
      invariant Swept(grid, rects, visited, sorted, i)
    {
      var c := cells[i];
      if c in visited {
        continue;
      }
      var rect, marked := Grow(grid, visited, rects, sorted, i, c);
      rects, visited := rects + [rect], marked;
    }
    SweptAll(grid, rects, visited, sorted);
  }

  /** mesh::GreedyMesh, the port that takes its cells by value. */
  method MeshGreedy(cells: seq<Cell>) returns (rects: seq<Rect>)
    requires InRange(cells)
    ensures IsMesh(CellSet(cells), rects)
  {
    if cells == [] {
      return [];
    }
    SortSorts(cells);
    var sorted := SortCells(cells);
    var grid := CellSet(sorted);
    rects := [];
    var visited: set<Cell> := {};
    var i := 0;
    while i < |sorted|
      invariant 0 <= i <= |sorted|
      invariant Swept(grid, rects, visited, sorted, i)
    {
      if sorted[i] !in visited {
        var rect, marked := Grow(grid, visited, rects, sorted, i, sorted[i]);
        rects, visited := rects + [rect], marked;
      }
      i := i + 1;
    }
    SweptAll(grid, rects, visited, sorted);
  }

  /** Whatever order and repeats the two are given, they list the same rectangles. */
  method BothPorts(cells: array<Cell>, again: seq<Cell>) returns (a: seq<Rect>, b: seq<Rect>)
    requires InRange(cells[..]) && InRange(again) && CellSet(cells[..]) == CellSet(again)
    modifies cells
    ensures a == b
  {
    ghost var grid := CellSet(again);
    a := GreedyMesh(cells);
    b := MeshGreedy(again);
    MeshIsCanonical(grid, a, b);
  }

  lemma SameCells(a: seq<Cell>, b: seq<Cell>)
    requires multiset(a) == multiset(b)
    ensures |a| == |b| && CellSet(a) == CellSet(b)
  {
    assert |multiset(a)| == |a| && |multiset(b)| == |b|;
    assert forall c :: c in a <==> c in multiset(a);
    assert forall c :: c in b <==> c in multiset(b);
  }
}
