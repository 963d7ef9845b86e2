/** The eight symmetries of a rectangle, acting on grids of cells.

A grid of width w and height h is a sequence of h rows of w cells.  Cells may be
of any type: single luma bytes, or chroma pairs, which therefore move without
being split. */
module Symmetry {

  type Grid<T> = seq<seq<T>>

  predicate IsGrid<T>(g: Grid<T>, w: nat, h: nat) {
    |g| == h && forall r :: 0 <= r < h ==> |g[r]| == w
  }

  /** If `swap` holds, the output's rows run along the source's columns.  `flipRow`
      and `flipCol` reverse the order in which source rows and columns are met. */
  datatype Sym = Sym(swap: bool, flipRow: bool, flipCol: bool)

  const IDENTITY := Sym(false, false, false)
  const RIGHT90 := Sym(true, true, false)
  const LEFT90 := Sym(true, false, true)
  const ROT180 := Sym(false, true, true)
  const HMIRROR := Sym(false, false, true)
  const VMIRROR := Sym(false, true, false)
  const TRANSPOSE := Sym(true, false, false)

  function OutWidth(s: Sym, w: nat, h: nat): nat {
    if s.swap then h else w
  }

  function OutHeight(s: Sym, w: nat, h: nat): nat {
    if s.swap then w else h
  }

  /** Row of the source cell shown at output row r, column c. */
  function SrcRow(s: Sym, w: nat, h: nat, r: nat, c: nat): (row: nat)
    requires r < OutHeight(s, w, h) && c < OutWidth(s, w, h)
    ensures row < h
  {
    var a := if s.swap then c else r;
    if s.flipRow then h - 1 - a else a
  }

  /** Column of the source cell shown at output row r, column c. */
  function SrcCol(s: Sym, w: nat, h: nat, r: nat, c: nat): (col: nat)
    requires r < OutHeight(s, w, h) && c < OutWidth(s, w, h)
    ensures col < w
  {
    var b := if s.swap then r else c;
    if s.flipCol then w - 1 - b else b
  }

  /** Output row r. */
  function ApplyRow<T>(s: Sym, g: Grid<T>, w: nat, h: nat, r: nat): (row: seq<T>)
    requires IsGrid(g, w, h) && r < OutHeight(s, w, h)
    ensures |row| == OutWidth(s, w, h)
    ensures forall c :: 0 <= c < |row| ==> row[c] == g[SrcRow(s, w, h, r, c)][SrcCol(s, w, h, r, c)]
  {
    seq(OutWidth(s, w, h), c requires 0 <= c < OutWidth(s, w, h) =>
      g[SrcRow(s, w, h, r, c)][SrcCol(s, w, h, r, c)])
  }

  /** The whole output grid. */
  function Apply<T>(s: Sym, g: Grid<T>, w: nat, h: nat): (q: Grid<T>)
    requires IsGrid(g, w, h)
    ensures IsGrid(q, OutWidth(s, w, h), OutHeight(s, w, h))
    ensures forall r :: 0 <= r < |q| ==> q[r] == ApplyRow(s, g, w, h, r)
  {
    seq(OutHeight(s, w, h), r requires 0 <= r < OutHeight(s, w, h) => ApplyRow(s, g, w, h, r))
  }

  // ---------------------------------------------------------------- group laws

  /** The symmetry that applies `first` and then `second`. */
  function Compose(second: Sym, first: Sym): Sym {
    Sym(second.swap != first.swap,
        first.flipRow != (if first.swap then second.flipCol else second.flipRow),
        first.flipCol != (if first.swap then second.flipRow else second.flipCol))
  }

  function Inverse(s: Sym): Sym {
    if s.swap then Sym(true, s.flipCol, s.flipRow) else s
  }

  /** Following the coordinates of `second` and then of `first` is following those
      of their composition. */
  lemma SrcCompose(second: Sym, first: Sym, w: nat, h: nat, r: nat, c: nat)
    requires r < OutHeight(Compose(second, first), w, h) && c < OutWidth(Compose(second, first), w, h)
    ensures
      var w1, h1 := OutWidth(first, w, h), OutHeight(first, w, h);
      var r1, c1 := SrcRow(second, w1, h1, r, c), SrcCol(second, w1, h1, r, c);
      && SrcRow(first, w, h, r1, c1) == SrcRow(Compose(second, first), w, h, r, c)
      && SrcCol(first, w, h, r1, c1) == SrcCol(Compose(second, first), w, h, r, c)
  {
  }

  lemma ApplyRowCompose<T>(second: Sym, first: Sym, g: Grid<T>, w: nat, h: nat, r: nat)
    requires IsGrid(g, w, h) && r < OutHeight(Compose(second, first), w, h)
    ensures ApplyRow(second, Apply(first, g, w, h), OutWidth(first, w, h), OutHeight(first, w, h), r)
         == ApplyRow(Compose(second, first), g, w, h, r)
  {
    hide Apply, ApplyRow, SrcRow, SrcCol;
    var both := Compose(second, first);
    var w1, h1 := OutWidth(first, w, h), OutHeight(first, w, h);
    var mid := Apply(first, g, w, h);
    var lhs, rhs := ApplyRow(second, mid, w1, h1, r), ApplyRow(both, g, w, h, r);
    forall c: nat | c < |lhs| ensures lhs[c] == rhs[c] {
      SrcCompose(second, first, w, h, r, c);
      assert mid[SrcRow(second, w1, h1, r, c)] == ApplyRow(first, g, w, h, SrcRow(second, w1, h1, r, c));
    }
  }

  /** Applying two symmetries in turn is applying their composition. */
  lemma ApplyCompose<T>(second: Sym, first: Sym, g: Grid<T>, w: nat, h: nat)
    requires IsGrid(g, w, h)
    ensures Apply(second, Apply(first, g, w, h), OutWidth(first, w, h), OutHeight(first, w, h))
         == Apply(Compose(second, first), g, w, h)
  {
    forall r: nat | r < OutHeight(Compose(second, first), w, h)
      ensures ApplyRow(second, Apply(first, g, w, h), OutWidth(first, w, h), OutHeight(first, w, h), r)
           == ApplyRow(Compose(second, first), g, w, h, r)
    {
      ApplyRowCompose(second, first, g, w, h, r);
    }
  }

  lemma ApplyIdentity<T>(g: Grid<T>, w: nat, h: nat)
    requires IsGrid(g, w, h)
    ensures Apply(IDENTITY, g, w, h) == g
  {
    forall r: nat | r < h ensures ApplyRow(IDENTITY, g, w, h, r) == g[r] {
    }
  }

  /** Every symmetry is undone by its inverse. */
  lemma ApplyInverse<T>(s: Sym, g: Grid<T>, w: nat, h: nat)
    requires IsGrid(g, w, h)
    ensures Apply(Inverse(s), Apply(s, g, w, h), OutWidth(s, w, h), OutHeight(s, w, h)) == g
  {
    ApplyCompose(Inverse(s), s, g, w, h);
    ApplyIdentity(g, w, h);
  }

  // ---------------------------------------------------------------- raster order

  /** The rows of g one after the other. */
  function Flatten<T>(g: Grid<T>): seq<T> {
    if g == [] then [] else Flatten(g[..|g| - 1]) + g[|g| - 1]
  }

  // ---------------------------------------------------------------- permutation

  /** The grid whose cell in row r and column c is the pair (r, c). */
  function Coordinates(w: nat, h: nat): (g: Grid<(nat, nat)>)
    ensures IsGrid(g, w, h)
    ensures forall r, c :: 0 <= r < h && 0 <= c < w ==> g[r][c] == (r, c)
  {
    seq(h, r => seq(w, c => (r, c)))
  }

  predicate AllInGrid(ids: seq<(nat, nat)>, w: nat, h: nat) {
    forall k :: 0 <= k < |ids| ==> ids[k].0 < h && ids[k].1 < w
  }

  /** The cells of g at the listed coordinates. */
  function Gather<T>(g: Grid<T>, w: nat, h: nat, ids: seq<(nat, nat)>): (cells: seq<T>)
    requires IsGrid(g, w, h) && AllInGrid(ids, w, h)
    ensures |cells| == |ids| && forall k :: 0 <= k < |ids| ==> cells[k] == g[ids[k].0][ids[k].1]
  {
    seq(|ids|, i requires 0 <= i < |ids| => g[ids[i].0][ids[i].1])
  }

  lemma GatherConcat<T>(g: Grid<T>, w: nat, h: nat, a: seq<(nat, nat)>, b: seq<(nat, nat)>)
    requires IsGrid(g, w, h) && AllInGrid(a, w, h) && AllInGrid(b, w, h)
    ensures AllInGrid(a + b, w, h)
    ensures Gather(g, w, h, a + b) == Gather(g, w, h, a) + Gather(g, w, h, b)
  {
  }

  lemma RowGather<T>(s: Sym, g: Grid<T>, w: nat, h: nat, r: nat)
    requires IsGrid(g, w, h) && r < OutHeight(s, w, h)
    ensures AllInGrid(ApplyRow(s, Coordinates(w, h), w, h, r), w, h)
    ensures ApplyRow(s, g, w, h, r) == Gather(g, w, h, ApplyRow(s, Coordinates(w, h), w, h, r))
  {
    var ids := ApplyRow(s, Coordinates(w, h), w, h, r);
    forall c: nat | c < |ids|
      ensures ids[c] == (SrcRow(s, w, h, r, c), SrcCol(s, w, h, r, c))
    {
    }
  }

  /** A symmetry picks its cells by position alone: it reads g where it moved the
      grid of coordinates. */
  lemma {:induction false} FlattenGather<T>(s: Sym, g: Grid<T>, w: nat, h: nat, n: nat)
    requires IsGrid(g, w, h) && n <= OutHeight(s, w, h)
    ensures AllInGrid(Flatten(Apply(s, Coordinates(w, h), w, h)[..n]), w, h)
    ensures Flatten(Apply(s, g, w, h)[..n])
         == Gather(g, w, h, Flatten(Apply(s, Coordinates(w, h), w, h)[..n]))
  {
    if n > 0 {
      FlattenGather(s, g, w, h, n - 1);
      RowGather(s, g, w, h, n - 1);
      hide Apply, ApplyRow, Coordinates, Gather, AllInGrid;
      var moved, ids := Apply(s, g, w, h), Apply(s, Coordinates(w, h), w, h);
      assert moved[..n][..n - 1] == moved[..n - 1] && ids[..n][..n - 1] == ids[..n - 1];
      GatherConcat(g, w, h, Flatten(ids[..n - 1]), ids[n - 1]);
    }
  }

  lemma {:induction false} FlattenMember<T>(g: Grid<T>, r: nat, c: nat)
    requires r < |g| && c < |g[r]|
    ensures g[r][c] in Flatten(g)
  {
    if r < |g| - 1 {
      FlattenMember(g[..|g| - 1], r, c);
    }
  }

  /** Number of cells in h rows of w.  Summing row by row keeps the products out of
      the proofs about rows; AreaIsProduct brings them back. */
  function Area(w: nat, h: nat): nat {
    if h == 0 then 0 else Area(w, h - 1) + w
  }

  lemma {:induction false} AreaIsProduct(w: nat, h: nat)
    ensures Area(w, h) == w * h == h * w
  {
    if h > 0 {
      AreaIsProduct(w, h - 1);
    }
  }

  lemma AreaSwaps(w: nat, h: nat)
    ensures Area(w, h) == Area(h, w)
  {
    AreaIsProduct(w, h);
    AreaIsProduct(h, w);
  }

  lemma {:induction false} RowBound(w: nat, h: nat, r: nat)
    requires r < h
    ensures Area(w, r) + w == Area(w, r + 1) <= Area(w, h)
  {
    if r < h - 1 {
      RowBound(w, h - 1, r);
    }
  }

  lemma {:induction false} FlattenLength<T>(g: Grid<T>, w: nat, h: nat)
    requires IsGrid(g, w, h)
    ensures |Flatten(g)| == Area(w, h)
  {
    if h > 0 {
      FlattenLength(g[..h - 1], w, h - 1);
    }
  }

  predicate Distinct<T(==)>(xs: seq<T>) {
    forall i, j :: 0 <= i < j < |xs| ==> xs[i] != xs[j]
  }

  lemma {:induction false} DistinctCount<T>(xs: seq<T>, x: T)
    requires Distinct(xs)
    ensures multiset(xs)[x] <= 1
  {
    if |xs| > 0 {
      var n := |xs| - 1;
      assert xs == xs[..n] + [xs[n]];
      DistinctCount(xs[..n], x);
      assert xs[n] !in xs[..n];
    }
  }

  /** A list as long as a duplicate-free one that misses none of its elements is a
      rearrangement of it. */
  lemma Pigeonhole<T>(a: seq<T>, b: seq<T>)
    requires |a| == |b| && Distinct(b) && forall x :: x in b ==> x in a
    ensures multiset(a) == multiset(b)
  {
    forall x | x in multiset(b) ensures multiset(b)[x] <= multiset(a)[x] {
      DistinctCount(b, x);
      assert x in b;
    }
    assert multiset(b) <= multiset(a);
    var extra := multiset(a) - multiset(b);
    assert |extra| == 0;
    assert multiset(a) == multiset(b) + extra;
  }

  lemma {:induction false} CoordinatesDistinct(w: nat, h: nat, n: nat)
    requires n <= h
    ensures Distinct(Flatten(Coordinates(w, h)[..n]))
    ensures AllInGrid(Flatten(Coordinates(w, h)[..n]), w, n)
  {
    if n > 0 {
      CoordinatesDistinct(w, h, n - 1);
      var g := Coordinates(w, h);
      var last := g[n - 1];
      assert g[..n][..n - 1] == g[..n - 1];
      assert forall c :: 0 <= c < w ==> last[c] == (n - 1, c);
    }
  }

  lemma GatherSplit<T>(g: Grid<T>, w: nat, h: nat, all: seq<(nat, nat)>, front: seq<(nat, nat)>, x: (nat, nat),
                       back: seq<(nat, nat)>)
    requires IsGrid(g, w, h) && AllInGrid(all, w, h) && all == front + [x] + back
    ensures x.0 < h && x.1 < w && AllInGrid(front + back, w, h)
    ensures multiset(Gather(g, w, h, all)) == multiset(Gather(g, w, h, front + back)) + multiset{g[x.0][x.1]}
  {
    assert all[|front|] == x;
    forall k | 0 <= k < |front + back|
      ensures (front + back)[k] == all[if k < |front| then k else k + 1]
    {
    }
    var whole, n := Gather(g, w, h, all), |front|;
    assert whole == whole[..n] + [whole[n]] + whole[n + 1..];
    assert Gather(g, w, h, front + back) == whole[..n] + whole[n + 1..];
  }

  lemma SplitAt<T>(b: seq<T>, x: T) returns (front: seq<T>, back: seq<T>)
    requires x in b
    ensures b == front + [x] + back && multiset(front + back) == multiset(b) - multiset{x}
  {
    var j :| 0 <= j < |b| && b[j] == x;
    front, back := b[..j], b[j + 1..];
    assert b == front + [x] + back;
  }

  lemma {:induction false} GatherMultiset<T>(g: Grid<T>, w: nat, h: nat, a: seq<(nat, nat)>, b: seq<(nat, nat)>)
    requires IsGrid(g, w, h) && AllInGrid(a, w, h) && AllInGrid(b, w, h)
    requires multiset(a) == multiset(b)
    ensures multiset(Gather(g, w, h, a)) == multiset(Gather(g, w, h, b))
    decreases |a|
  {
    if a == [] {
      assert |multiset(b)| == 0;
    } else {
      var x, rest := a[0], a[1..];
      assert a == [] + [x] + rest && [] + rest == rest;
      assert multiset(rest) == multiset(a) - multiset{x};
      assert x in multiset(b);
      var front, back := SplitAt(b, x);
      GatherSplit(g, w, h, a, [], x, rest);
      GatherSplit(g, w, h, b, front, x, back);
      GatherMultiset(g, w, h, rest, front + back);
    }
  }

  lemma CoordinatesInFlatten(w: nat, h: nat, k: nat)
    requires k < |Flatten(Coordinates(w, h))|
    ensures Flatten(Coordinates(w, h))[k].0 < h && Flatten(Coordinates(w, h))[k].1 < w
  {
    assert Coordinates(w, h)[..h] == Coordinates(w, h);
    CoordinatesDistinct(w, h, h);
  }

  lemma CoordinatesMoved(s: Sym, w: nat, h: nat, r: nat, c: nat)
    requires r < h && c < w
    ensures (r, c) in Flatten(Apply(s, Coordinates(w, h), w, h))
  {
    var g := Coordinates(w, h);
    var moved, w1, h1 := Apply(s, g, w, h), OutWidth(s, w, h), OutHeight(s, w, h);
    ApplyInverse(s, g, w, h);
    var r1, c1 := SrcRow(Inverse(s), w1, h1, r, c), SrcCol(Inverse(s), w1, h1, r, c);
    assert ApplyRow(Inverse(s), moved, w1, h1, r) == g[r];
    assert moved[r1][c1] == g[r][c] == (r, c);
    FlattenMember(moved, r1, c1);
  }

  /** A symmetry rearranges the cells: none is lost, none is repeated. */
  lemma ApplyPermutes<T>(s: Sym, g: Grid<T>, w: nat, h: nat)
    requires IsGrid(g, w, h)
    ensures multiset(Flatten(Apply(s, g, w, h))) == multiset(Flatten(g))
  {
    hide Apply, ApplyRow, Coordinates, Gather, Flatten, Distinct, AllInGrid;
    var ids := Coordinates(w, h);
    var moved := Apply(s, ids, w, h);
    assert moved[..|moved|] == moved && ids[..h] == ids && Apply(s, g, w, h)[..|moved|] == Apply(s, g, w, h);
    FlattenGather(s, g, w, h, OutHeight(s, w, h));
    FlattenGather(IDENTITY, g, w, h, h);
    ApplyIdentity(g, w, h);
    ApplyIdentity(ids, w, h);
    assert g[..h] == g;
    FlattenLength(moved, OutWidth(s, w, h), OutHeight(s, w, h));
    FlattenLength(ids, w, h);
    AreaSwaps(w, h);
    CoordinatesDistinct(w, h, h);
    forall x | x in Flatten(ids) ensures x in Flatten(moved) {
      var k :| 0 <= k < |Flatten(ids)| && Flatten(ids)[k] == x;
      CoordinatesInFlatten(w, h, k);
      CoordinatesMoved(s, w, h, x.0, x.1);
    }
    Pigeonhole(Flatten(moved), Flatten(ids));
    GatherMultiset(g, w, h, Flatten(moved), Flatten(ids));
  }
}
