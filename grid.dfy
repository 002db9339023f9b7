/** Positions of the recording grid and the column-major order in which the
    walk visits them: `types` columns of `count` rows each. */
module Grid {
  import opened Wrappers

  /** A cursor position: column (category) and row (attempt), both 0-based. */
  datatype Pos = Pos(col: nat, row: nat)

  const ORIGIN: Pos := Pos(0, 0)

  predicate InBounds(count: nat, types: nat, p: Pos) {
    p.col < types && p.row < count
  }

  /** Linear position of `p` in column-major order. */
  function Index(count: nat, p: Pos): nat {
    p.col * count + p.row
  }

  /** Where the cursor goes from `p` when the walk moves forward: down the
      column, then to the top of the next column; `None` is the finished
      (null) cursor. */
  function Next(count: nat, types: nat, p: Pos): (r: Option<Pos>)
    ensures r.None? <==> p.row + 1 >= count && p.col + 1 >= types
    ensures r.Some? ==> p.col <= r.value.col <= p.col + 1
  {
    if p.row < count - 1 then Some(Pos(p.col, p.row + 1))
    else if p.col < types - 1 then Some(Pos(p.col + 1, 0))
    else None
  }

  /** From an in-bounds cursor, a forward move raises the linear index by
      exactly one and stays in bounds; it finishes exactly at the last cell. */
  lemma NextStepsIndex(count: nat, types: nat, p: Pos)
    requires InBounds(count, types, p)
    ensures Next(count, types, p).Some? <==> Index(count, p) + 1 < count * types
    ensures Next(count, types, p).Some? ==>
              var q := Next(count, types, p).value;
              InBounds(count, types, q) && Index(count, q) == Index(count, p) + 1
  {
    assert (p.col + 1) * count == p.col * count + count;
    assert count * types == types * count;
    if p.row < count - 1 {
      MulMono(p.col + 1, types, count);
    } else if p.col < types - 1 {
      MulMono(p.col + 2, types, count);
      assert (p.col + 2) * count == p.col * count + count + count;
    } else {
      assert p.col + 1 == types && p.row + 1 == count;
    }
  }

  /** Where the cursor goes from `p` when the walk steps back; `None` means
      no move (the cursor is at the origin). */
  function Prev(count: nat, p: Pos): (r: Option<Pos>)
    requires count >= 1
    ensures r.Some? <==> p != ORIGIN
    ensures r.Some? && p.row < count ==>
              r.value.row < count && Index(count, r.value) + 1 == Index(count, p)
    ensures r.Some? && p.row < count ==> r.value.col <= p.col
  {
    if p.row > 0 then Some(Pos(p.col, p.row - 1))
    else if p.col > 0 then
      assert Index(count, p) == (p.col - 1) * count + count;
      Some(Pos(p.col - 1, count - 1))
    else None
  }

  /** The cursor after one forward move; a finished cursor stays finished. */
  function Advance(count: nat, types: nat, cursor: Option<Pos>): (r: Option<Pos>)
    ensures cursor.None? ==> r.None?
    ensures cursor.Some? && r.None? ==> cursor.value.row + 1 >= count && cursor.value.col + 1 >= types
  {
    match cursor
    case None => None
    case Some(p) => Next(count, types, p)
  }

  /** The cursor after starting at the origin and moving forward `k` times. */
  function Walk(count: nat, types: nat, k: nat): (r: Option<Pos>)
    requires count >= 1 && types >= 1
    ensures r.Some? <==> k < count * types
    ensures r.Some? ==> InBounds(count, types, r.value) && Index(count, r.value) == k
  {
    if k == 0 then Some(ORIGIN)
    else
      var prev := Walk(count, types, k - 1);
      if prev.Some? then NextStepsIndex(count, types, prev.value); Advance(count, types, prev)
      else Advance(count, types, prev)
  }

  lemma MulMono(a: nat, b: nat, c: nat)
    requires a <= b
    ensures a * c <= b * c
  {
  }

  /** Distinct in-bounds positions have distinct linear indices. */
  lemma IndexInjective(count: nat, types: nat, p: Pos, q: Pos)
    requires InBounds(count, types, p) && InBounds(count, types, q)
    requires Index(count, p) == Index(count, q)
    ensures p == q
  {
    if p.col < q.col {
      MulMono(p.col + 1, q.col, count);
      assert false;
    } else if q.col < p.col {
      MulMono(q.col + 1, p.col, count);
      assert false;
    }
  }

  /** Every in-bounds position has a linear index below the number of cells. */
  lemma IndexInRange(count: nat, types: nat, p: Pos)
    requires InBounds(count, types, p)
    ensures Index(count, p) < count * types
  {
    MulMono(p.col + 1, types, count);
  }

  /** The walk visits (0,0), (0,1), ..., (0,count-1), (1,0), ...: the k-th
      cursor is column k / count, row k % count. */
  lemma WalkIsColumnMajor(count: nat, types: nat, k: nat)
    requires count >= 1 && types >= 1 && k < count * types
    ensures Walk(count, types, k) == Some(Pos(k / count, k % count))
  {
    var p := Walk(count, types, k).value;
    DivModUnique(count, p.col, p.row);
  }

  lemma DivModUnique(n: nat, q: nat, r: nat)
    requires r < n
    ensures (q * n + r) / n == q && (q * n + r) % n == r
  {
    var x := q * n + r;
    var d, m := x / n, x % n;
    assert x == d * n + m;
    if d < q {
      MulMono(d + 1, q, n);
      assert false;
    } else if q < d {
      MulMono(q + 1, d, n);
      assert false;
    }
  }

  /** No position is visited twice during one walk. */
  lemma WalkVisitsEachOnce(count: nat, types: nat, i: nat, j: nat)
    requires count >= 1 && types >= 1
    requires i < j < count * types
    ensures Walk(count, types, i) != Walk(count, types, j)
  {
  }

  /** Once finished, further forward moves change nothing. */
  lemma WalkStaysFinished(count: nat, types: nat, k: nat)
    requires count >= 1 && types >= 1 && k >= count * types
    ensures Walk(count, types, k) == None
    ensures Advance(count, types, Walk(count, types, k)) == None
  {
  }

  /** Stepping back from a non-origin in-bounds cursor and then forward again
      returns to it. */
  lemma PrevThenNext(count: nat, types: nat, p: Pos)
    requires count >= 1 && InBounds(count, types, p) && p != ORIGIN
    ensures Prev(count, p).Some? && Next(count, types, Prev(count, p).value) == Some(p)
  {
  }

  /** Stepping back from any cursor other than (0,0) and then forward again
      returns to it exactly when its row is inside the grid and not the first,
      or it is the top of a column inside the grid. Its column may lie outside
      the grid: the column selector can shrink the grid under the cursor. */
  lemma PrevThenNextExactly(count: nat, types: nat, p: Pos)
    requires count >= 1 && p != ORIGIN
    ensures Prev(count, p).Some?
    ensures Next(count, types, Prev(count, p).value) == Some(p) <==>
              (0 < p.row < count) || (p.row == 0 && p.col < types)
  {
  }

  /** Stepping forward from an in-bounds cursor that has a successor and then
      back again returns to it. */
  lemma NextThenPrev(count: nat, types: nat, p: Pos)
    requires count >= 1 && InBounds(count, types, p) && Next(count, types, p).Some?
    ensures Prev(count, Next(count, types, p).value) == Some(p)
  {
  }
}
