/**
  The two kernels as in-place programs: the naive thread body, and one block of the tiled
  kernel with its threads run in turn between barriers. Every other interleaving of the tiled
  kernel is covered by GemmInterleaving.
 */
module GemmKernels {
  import opened GemmModel

  method StoreCell<F, H>(p: Problem<F, H>, C: array<H>, row: nat, col: nat, sum: F)
    requires C.Length == p.M * p.N && row < p.M && col < p.N
    modifies C
    ensures p.Cell(C[..], row, col) == p.ar.narrow(sum)
    ensures forall r: nat, c: nat | r < p.M && c < p.N && (r, c) != (row, col) ::
              p.Cell(C[..], r, c) == p.Cell(old(C[..]), r, c)
  {
    CellUpdate(p, C[..], row, col, p.ar.narrow(sum));
    var i := row * p.N + col;
    C[i] := p.ar.narrow(sum);
    assert C[..] == old(C[..])[i := p.ar.narrow(sum)];
  }

  /** A store to one cell changes that cell and no other. */
  lemma CellUpdate<F, H>(p: Problem<F, H>, C: seq<H>, row: nat, col: nat, v: H)
    requires |C| == p.M * p.N && row < p.M && col < p.N
    ensures 0 <= row * p.N + col < |C|
    ensures var C' := C[row * p.N + col := v];
            && p.Cell(C', row, col) == v
            && forall r: nat, c: nat | r < p.M && c < p.N && (r, c) != (row, col) :: p.Cell(C', r, c) == p.Cell(C, r, c)
  {
    FlatIndexInBounds(row, p.M, col, p.N);
    var C' := C[row * p.N + col := v];
    forall r: nat, c: nat | r < p.M && c < p.N && (r, c) != (row, col) ensures p.Cell(C', r, c) == p.Cell(C, r, c) {
      OtherCellKept(p, C, row, col, v, r, c);
    }
  }

  lemma OtherCellKept<F, H>(p: Problem<F, H>, C: seq<H>, row: nat, col: nat, v: H, r: nat, c: nat)
    requires |C| == p.M * p.N && row < p.M && col < p.N && r < p.M && c < p.N && (r, c) != (row, col)
    requires 0 <= row * p.N + col < |C|
    ensures p.Cell(C[row * p.N + col := v], r, c) == p.Cell(C, r, c)
  {
    var i, j := row * p.N + col, r * p.N + c;
    FlatIndexInBounds(r, p.M, c, p.N);
    if i == j {
      FlatIndexInjective(r, c, row, col, p.N);
    }
    assert C[i := v][j] == C[j];
  }

  /** The accumulator loop of the naive kernel. */
  method NaiveDot<F, H>(p: Problem<F, H>, row: nat, col: nat) returns (sum: F)
    requires p.Valid() && row < p.M && col < p.N
    ensures sum == p.Dot(row, col, p.K)
    ensures exists sums: seq<F> :: |sums| == p.K + 1 && sums[0] == p.ar.zero && sums[p.K] == sum
              && forall k | 0 <= k < p.K ::
                   sums[k + 1] == p.ar.fma(sums[k], p.ar.widen(At(p.A, p.M, p.K, row, k)), p.ar.widen(At(p.B, p.K, p.N, k, col)))
  {
    sum := p.ar.zero;
    for k := 0 to p.K
      invariant sum == p.Dot(row, col, k)
    {
      sum := p.ar.fma(sum, p.ElemA(row, k), p.ElemB(k, col));
    }
    ghost var sums := p.PartialSums(row, col);
  }

  /** The naive kernel for the thread at (row, col), which may lie outside C. */
  method NaiveThread<F, H>(p: Problem<F, H>, C: array<H>, row: nat, col: nat)
    requires p.Valid() && C.Length == p.M * p.N
    modifies C
    ensures row < p.M && col < p.N ==> p.Cell(C[..], row, col) == p.ar.narrow(p.Dot(row, col, p.K))
    ensures forall r: nat, c: nat | r < p.M && c < p.N && (r, c) != (row, col) ::
              p.Cell(C[..], r, c) == p.Cell(old(C[..]), r, c)
  {
    if row < p.M && col < p.N {
      var sum := NaiveDot(p, row, col);
      StoreCell(p, C, row, col, sum);
    }
  }

  /** A whole naive launch, its threads in any order that has one for every cell. */
  method NaiveLaunch<F, H>(p: Problem<F, H>, C: array<H>, order: seq<(nat, nat)>)
    requires p.Valid() && C.Length == p.M * p.N
    requires forall r: nat, c: nat | r < p.M && c < p.N :: (r, c) in order
    modifies C
    ensures p.IsProduct(C[..])
    ensures forall r: nat, c: nat, sums: seq<F> |
              && r < p.M && c < p.N && |sums| == p.K + 1 && sums[0] == p.ar.zero
              && (forall k | 0 <= k < p.K ::
                    sums[k + 1] == p.ar.fma(sums[k], p.ar.widen(At(p.A, p.M, p.K, r, k)), p.ar.widen(At(p.B, p.K, p.N, k, c))))
              :: At(C[..], p.M, p.N, r, c) == p.ar.narrow(sums[p.K])
  {
    for i := 0 to |order|
      invariant forall r: nat, c: nat | r < p.M && c < p.N && (r, c) in order[..i] ::
                  p.Cell(C[..], r, c) == p.ar.narrow(p.Dot(r, c, p.K))
    {
      NaiveThread(p, C, order[i].0, order[i].1);
      assert order[..i + 1] == order[..i] + [order[i]];
    }
    assert order[..|order|] == order;
    ProductCells(p, C[..]);
  }

  // ----- one block of the tiled kernel -----

  ghost predicate IsTile<F>(m: array2<F>) {
    m.Length0 == 32 && m.Length1 == 32
  }

  /** Both loads of every thread, up to the first barrier of tile t. */
  method LoadTiles<F, H>(l: Grid<F, H>, gy: nat, gx: nat, t: nat, As: array2<F>, Bs: array2<F>)
    requires IsTile(As) && IsTile(Bs) && As != Bs
    modifies As, Bs
    ensures forall y: nat, x: nat | y < 32 && x < 32 :: As[y, x] == l.a(Tile(gy) + y, Tile(t) + x)
    ensures forall y: nat, x: nat | y < 32 && x < 32 :: Bs[y, x] == l.b(Tile(t) + y, Tile(gx) + x)
  {
    for ty := 0 to TILE_SIZE
      invariant forall y: nat, x: nat | y < ty && x < 32 :: As[y, x] == l.a(Tile(gy) + y, Tile(t) + x)
      invariant forall y: nat, x: nat | y < ty && x < 32 :: Bs[y, x] == l.b(Tile(t) + y, Tile(gx) + x)
    {
      for tx := 0 to TILE_SIZE
        invariant forall y: nat, x: nat | (y < ty && x < 32) || (y == ty && x < tx) ::
                    As[y, x] == l.a(Tile(gy) + y, Tile(t) + x)
        invariant forall y: nat, x: nat | (y < ty && x < 32) || (y == ty && x < tx) ::
                    Bs[y, x] == l.b(Tile(t) + y, Tile(gx) + x)
      {
        As[ty, tx] := l.a(Tile(gy) + ty, Tile(t) + tx);
        Bs[ty, tx] := l.b(Tile(t) + ty, Tile(gx) + tx);
      }
    }
  }

  /** One thread's inner loop between the two barriers of tile t. */
  method AccumulateTile<F, H>(l: Grid<F, H>, gy: nat, gx: nat, t: nat, As: array2<F>, Bs: array2<F>,
                              ty: nat, tx: nat, start: F) returns (sum: F)
    requires IsTile(As) && IsTile(Bs) && ty < 32 && tx < 32
    requires forall x: nat | x < 32 :: As[ty, x] == l.a(Tile(gy) + ty, Tile(t) + x)
    requires forall y: nat | y < 32 :: Bs[y, tx] == l.b(Tile(t) + y, Tile(gx) + tx)
    requires start == l.Sum(Tile(gy) + ty, Tile(gx) + tx, Tile(t))
    ensures sum == l.Sum(Tile(gy) + ty, Tile(gx) + tx, Tile(t + 1))
  {
    sum := start;
    for k := 0 to TILE_SIZE
      invariant sum == l.Sum(Tile(gy) + ty, Tile(gx) + tx, Tile(t) + k)
    {
      sum := l.ar.fma(sum, As[ty, k], Bs[k, tx]);
    }
  }

  ghost predicate SumsAt<F, H>(l: Grid<F, H>, gy: nat, gx: nat, sums: array2<F>, n: nat)
    requires IsTile(sums)
    reads sums
  {
    forall y: nat, x: nat | y < 32 && x < 32 :: sums[y, x] == l.Sum(Tile(gy) + y, Tile(gx) + x, n)
  }

  method AccumulateCell<F, H>(l: Grid<F, H>, gy: nat, gx: nat, t: nat, As: array2<F>, Bs: array2<F>,
                              sums: array2<F>, ty: nat, tx: nat)
    requires IsTile(As) && IsTile(Bs) && IsTile(sums) && sums != As && sums != Bs && ty < 32 && tx < 32
    requires forall x: nat | x < 32 :: As[ty, x] == l.a(Tile(gy) + ty, Tile(t) + x)
    requires forall y: nat | y < 32 :: Bs[y, tx] == l.b(Tile(t) + y, Tile(gx) + tx)
    requires sums[ty, tx] == l.Sum(Tile(gy) + ty, Tile(gx) + tx, Tile(t))
    modifies sums
    ensures sums[ty, tx] == l.Sum(Tile(gy) + ty, Tile(gx) + tx, Tile(t + 1))
    ensures forall y: nat, x: nat | y < 32 && x < 32 && (y, x) != (ty, tx) :: sums[y, x] == old(sums[y, x])
  {
    var sum := AccumulateTile(l, gy, gx, t, As, Bs, ty, tx, sums[ty, tx]);
    sums[ty, tx] := sum;
  }

  /** The threads of row ty of the block, between the two barriers of tile t. */
  method AccumulateRow<F, H>(l: Grid<F, H>, gy: nat, gx: nat, t: nat, As: array2<F>, Bs: array2<F>,
                             sums: array2<F>, ty: nat)
    requires IsTile(As) && IsTile(Bs) && IsTile(sums) && sums != As && sums != Bs && ty < 32
    requires forall x: nat | x < 32 :: As[ty, x] == l.a(Tile(gy) + ty, Tile(t) + x)
    requires forall y: nat, x: nat | y < 32 && x < 32 :: Bs[y, x] == l.b(Tile(t) + y, Tile(gx) + x)
    requires forall x: nat | x < 32 :: sums[ty, x] == l.Sum(Tile(gy) + ty, Tile(gx) + x, Tile(t))
    modifies sums
    ensures forall x: nat | x < 32 :: sums[ty, x] == l.Sum(Tile(gy) + ty, Tile(gx) + x, Tile(t + 1))
    ensures forall y: nat, x: nat | y < 32 && x < 32 && y != ty :: sums[y, x] == old(sums[y, x])
  {
    hide Tile, Grid.Sum;
    for tx := 0 to TILE_SIZE
      invariant forall x: nat | x < tx :: sums[ty, x] == l.Sum(Tile(gy) + ty, Tile(gx) + x, Tile(t + 1))
      invariant forall x: nat | tx <= x < 32 :: sums[ty, x] == l.Sum(Tile(gy) + ty, Tile(gx) + x, Tile(t))
      invariant forall y: nat, x: nat | y < 32 && x < 32 && y != ty :: sums[y, x] == old(sums[y, x])
    {
      AccumulateCell(l, gy, gx, t, As, Bs, sums, ty, tx);
    }
  }

  method AccumulateTiles<F, H>(l: Grid<F, H>, gy: nat, gx: nat, t: nat, As: array2<F>, Bs: array2<F>, sums: array2<F>)
    requires IsTile(As) && IsTile(Bs) && IsTile(sums) && sums != As && sums != Bs
    requires forall y: nat, x: nat | y < 32 && x < 32 :: As[y, x] == l.a(Tile(gy) + y, Tile(t) + x)
    requires forall y: nat, x: nat | y < 32 && x < 32 :: Bs[y, x] == l.b(Tile(t) + y, Tile(gx) + x)
    requires SumsAt(l, gy, gx, sums, Tile(t))
    modifies sums
    ensures SumsAt(l, gy, gx, sums, Tile(t + 1))
  {
    hide Tile, Grid.Sum;
    for ty := 0 to TILE_SIZE
      invariant forall y: nat, x: nat | y < ty && x < 32 :: sums[y, x] == l.Sum(Tile(gy) + y, Tile(gx) + x, Tile(t + 1))
      invariant forall y: nat, x: nat | ty <= y < 32 && x < 32 :: sums[y, x] == l.Sum(Tile(gy) + y, Tile(gx) + x, Tile(t))
    {
      AccumulateRow(l, gy, gx, t, As, Bs, sums, ty);
    }
  }

  /** The cells of C that block (gy, gx) computes. */
  predicate InBlock(gy: nat, gx: nat, r: nat, c: nat) {
    r / 32 == gy && c / 32 == gx
  }

  /** The first n threads of the block, row by row, include the owner of the cell. */
  predicate Reached(gy: nat, gx: nat, r: nat, c: nat, n: nat) {
    InBlock(gy, gx, r, c) && r % 32 * 32 + c % 32 < n
  }

  lemma ReachedNext(gy: nat, gx: nat, ty: nat, tx: nat, r: nat, c: nat)
    requires ty < 32 && tx < 32
    ensures Reached(gy, gx, r, c, 32 * ty + tx + 1)
            <==> Reached(gy, gx, r, c, 32 * ty + tx) || (r == Tile(gy) + ty && c == Tile(gx) + tx)
    ensures r == Tile(gy) + ty && c == Tile(gx) + tx ==> InBlock(gy, gx, r, c) && r % 32 == ty && c % 32 == tx
  {
  }

  lemma ReachedEnds(gy: nat, gx: nat, r: nat, c: nat)
    ensures !Reached(gy, gx, r, c, 0)
    ensures Reached(gy, gx, r, c, 1024) <==> InBlock(gy, gx, r, c)
  {
  }

  /** C after the first n stores of a block. */
  ghost predicate PartlyStored<F, H>(p: Problem<F, H>, gy: nat, gx: nat, before: seq<H>, C: seq<H>, n: nat)
    requires p.Valid() && |before| == |C| == p.M * p.N
  {
    forall r: nat, c: nat | r < p.M && c < p.N ::
      && (Reached(gy, gx, r, c, n) ==> p.Cell(C, r, c) == p.ar.narrow(p.TiledDot(r, c)))
      && (!InBlock(gy, gx, r, c) ==> p.Cell(C, r, c) == p.Cell(before, r, c))
  }

  /** The guarded store of one thread. */
  method StoreThread<F, H>(p: Problem<F, H>, gy: nat, gx: nat, ty: nat, tx: nat, sum: F, C: array<H>, ghost before: seq<H>)
    requires p.Valid() && |before| == C.Length == p.M * p.N && ty < 32 && tx < 32
    requires Tile(gy) + ty < p.M && Tile(gx) + tx < p.N ==> sum == p.TiledDot(Tile(gy) + ty, Tile(gx) + tx)
    requires PartlyStored(p, gy, gx, before, C[..], 32 * ty + tx)
    modifies C
    ensures PartlyStored(p, gy, gx, before, C[..], 32 * ty + tx + 1)
  {
    hide Reached, InBlock;
    var row, col := Tile(gy) + ty, Tile(gx) + tx;
    if row < p.M && col < p.N {
      StoreCell(p, C, row, col, sum);
    }
    forall r: nat, c: nat | r < p.M && c < p.N
      ensures Reached(gy, gx, r, c, 32 * ty + tx + 1) ==> p.Cell(C[..], r, c) == p.ar.narrow(p.TiledDot(r, c))
      ensures !InBlock(gy, gx, r, c) ==> p.Cell(C[..], r, c) == p.Cell(before, r, c)
    {
      ReachedNext(gy, gx, ty, tx, r, c);
    }
  }

  /** The guarded stores of every thread. */
  method StoreBlock<F, H>(p: Problem<F, H>, gy: nat, gx: nat, sums: array2<F>, C: array<H>)
    requires p.Valid() && C.Length == p.M * p.N && IsTile(sums)
    requires forall r: nat, c: nat | r < p.M && c < p.N && InBlock(gy, gx, r, c) ::
               sums[r % 32, c % 32] == p.TiledDot(r, c)
    modifies C
    ensures forall r: nat, c: nat | r < p.M && c < p.N && InBlock(gy, gx, r, c) ::
              p.Cell(C[..], r, c) == p.ar.narrow(p.TiledDot(r, c))
    ensures forall r: nat, c: nat | r < p.M && c < p.N && !InBlock(gy, gx, r, c) ::
              p.Cell(C[..], r, c) == p.Cell(old(C[..]), r, c)
  {
    ghost var before := C[..];
    assert PartlyStored(p, gy, gx, before, C[..], 0) by {
      forall r: nat, c: nat ensures !Reached(gy, gx, r, c, 0) { ReachedEnds(gy, gx, r, c); }
    }
    for ty := 0 to TILE_SIZE
      invariant PartlyStored(p, gy, gx, before, C[..], 32 * ty)
    {
      for tx := 0 to TILE_SIZE
        invariant PartlyStored(p, gy, gx, before, C[..], 32 * ty + tx)
      {
        ReachedNext(gy, gx, ty, tx, Tile(gy) + ty, Tile(gx) + tx);
        hide PartlyStored, InBlock, Reached;
        StoreThread(p, gy, gx, ty, tx, sums[ty, tx], C, before);
      }
    }
    forall r: nat, c: nat ensures Reached(gy, gx, r, c, 1024) <==> InBlock(gy, gx, r, c) { ReachedEnds(gy, gx, r, c); }
  }

  lemma SumsAreDots<F, H>(p: Problem<F, H>, gy: nat, gx: nat, sums: array2<F>)
    requires p.Valid() && IsTile(sums)
    requires SumsAt(p.Launch(), gy, gx, sums, Tile(p.Launch().tiles))
    ensures forall r: nat, c: nat | r < p.M && c < p.N && InBlock(gy, gx, r, c) ::
              sums[r % 32, c % 32] == p.TiledDot(r, c)
  {
    forall r: nat, c: nat | r < p.M && c < p.N && InBlock(gy, gx, r, c)
      ensures sums[r % 32, c % 32] == p.TiledDot(r, c)
    {
      assert Tile(gy) + r % 32 == r && Tile(gx) + c % 32 == c;
      TileLoopComputesTiledDot(p, r, c);
    }
  }

  /** One block: shared tiles and accumulators start with arbitrary contents. */
  method TiledBlock<F, H>(p: Problem<F, H>, gy: nat, gx: nat,
                                As: array2<F>, Bs: array2<F>, sums: array2<F>, C: array<H>)
    requires p.Valid() && C.Length == p.M * p.N
    requires IsTile(As) && IsTile(Bs) && IsTile(sums) && As != Bs && sums != As && sums != Bs
    modifies As, Bs, sums, C
    ensures forall r: nat, c: nat | r < p.M && c < p.N && InBlock(gy, gx, r, c) ::
              p.Cell(C[..], r, c) == p.ar.narrow(p.TiledDot(r, c))
    ensures forall r: nat, c: nat | r < p.M && c < p.N && !InBlock(gy, gx, r, c) ::
              p.Cell(C[..], r, c) == p.Cell(old(C[..]), r, c)
  {
    var l := p.Launch();
    forall y, x | 0 <= y < 32 && 0 <= x < 32 {
      sums[y, x] := l.ar.zero;
    }
    for t := 0 to l.tiles
      invariant SumsAt(l, gy, gx, sums, Tile(t))
      invariant C[..] == old(C[..])
    {
      LoadTiles(l, gy, gx, t, As, Bs);
      AccumulateTiles(l, gy, gx, t, As, Bs, sums);
    }
    SumsAreDots(p, gy, gx, sums);
    StoreBlock(p, gy, gx, sums, C);
  }

  /** A whole tiled launch, its blocks in any order that has one for every block of the grid. */
  method TiledLaunch<F, H(!new)>(p: Problem<F, H>, As: array2<F>, Bs: array2<F>, sums: array2<F>,
                                 C: array<H>, order: seq<(nat, nat)>)
    requires p.Valid() && C.Length == p.M * p.N
    requires IsTile(As) && IsTile(Bs) && IsTile(sums) && As != Bs && sums != As && sums != Bs
    requires forall gy: nat, gx: nat | gy < p.Launch().gridY && gx < p.Launch().gridX :: (gy, gx) in order
    modifies As, Bs, sums, C
    ensures p.IsTiledProduct(C[..])
    ensures p.IsProduct(C[..]) <==> p.PaddingIsInvisible()
    ensures Lawful(p.ar) ==> p.IsProduct(C[..])
    ensures p.PaddingIsInvisible() ==>
              forall r: nat, c: nat, sums: seq<F> |
                && r < p.M && c < p.N && |sums| == p.K + 1 && sums[0] == p.ar.zero
                && (forall k | 0 <= k < p.K ::
                      sums[k + 1] == p.ar.fma(sums[k], p.ar.widen(At(p.A, p.M, p.K, r, k)), p.ar.widen(At(p.B, p.K, p.N, k, c))))
                :: At(C[..], p.M, p.N, r, c) == p.ar.narrow(sums[p.K])
  {
    for i := 0 to |order|
      invariant forall r: nat, c: nat | r < p.M && c < p.N && (r / 32, c / 32) in order[..i] ::
                  p.Cell(C[..], r, c) == p.ar.narrow(p.TiledDot(r, c))
    {
      TiledBlock(p, order[i].0, order[i].1, As, Bs, sums, C);
      assert order[..i + 1] == order[..i] + [order[i]];
    }
    assert order[..|order|] == order;
    p.TiledProductExactly(C[..]);
    if p.PaddingIsInvisible() {
      ProductCells(p, C[..]);
    }
    if Lawful(p.ar) {
      LawfulPaddingIsInvisible(p);
    }
  }
}

/**
  The 32-bit `int` arithmetic of the tiled launch: host sizes and grid, thread coordinates,
  tile offsets and flat indices.
 */
module GemmIndices {
  import opened GemmModel

  const INT_MAX: int := 0x7fff_ffff

  predicate Fits(x: int) {
    -INT_MAX - 1 <= x <= INT_MAX
  }

  /** The expressions of one iteration of the tile loop, each under the guard that protects it. */
  predicate TileFits(M: nat, N: nat, K: nat, row: nat, col: nat, aCol: nat, bRow: nat) {
    && Fits(aCol)
    && Fits(bRow)
    && (row < M && aCol < K ==> Fits(row * K) && Fits(row * K + aCol))
    && (bRow < K && col < N ==> Fits(bRow * N) && Fits(bRow * N + col))
  }

  predicate StoreFits(M: nat, N: nat, row: nat, col: nat) {
    Fits(row) && Fits(col) && (row < M && col < N ==> Fits(row * N) && Fits(row * N + col))
  }

  /** The expressions of thread (ty, tx) of block (gy, gx). */
  ghost predicate ThreadFits(M: nat, N: nat, K: nat, gy: nat, gx: nat, ty: nat, tx: nat) {
    && StoreFits(M, N, Tile(gy) + ty, Tile(gx) + tx)
    && Fits(K + 32)
    && forall t: nat | t < TilesFor(K) ::
         TileFits(M, N, K, Tile(gy) + ty, Tile(gx) + tx, Tile(t) + tx, Tile(t) + ty)
  }

  /** The host's buffer sizes and grid, and every thread it launches. */
  ghost predicate LaunchFits(M: nat, N: nat, K: nat) {
    && Fits(M * K) && Fits(K * N) && Fits(M * N)
    && Fits(N + 32) && Fits(M + 32)
    && forall gy: nat, gx: nat, ty: nat, tx: nat | gy < TilesFor(M) && gx < TilesFor(N) && ty < 32 && tx < 32 ::
         ThreadFits(M, N, K, gy, gx, ty, tx)
  }

  /** What a caller can check before the launch. */
  predicate SafeSizes(M: nat, N: nat, K: nat) {
    && M * K <= INT_MAX && K * N <= INT_MAX && M * N <= INT_MAX
    && M <= INT_MAX - 32 && N <= INT_MAX - 32
    && (M > 0 && N > 0 ==> K <= INT_MAX - 32)
  }

  /** Products within 31 bits are not enough: rounding K up to whole tiles can overflow. */
  lemma ProductsAloneDoNotSuffice()
    ensures Fits(1 * INT_MAX) && Fits(INT_MAX * 1) && Fits(1 * 1) && !LaunchFits(1, 1, INT_MAX)
  {
    LaunchFitsExactly(1, 1, INT_MAX);
  }

  /** No int expression of a launch overflows exactly when the sizes are safe. */
  lemma LaunchFitsExactly(M: nat, N: nat, K: nat)
    ensures LaunchFits(M, N, K) <==> SafeSizes(M, N, K)
  {
    if LaunchFits(M, N, K) && M > 0 && N > 0 {
      assert ThreadFits(M, N, K, 0, 0, 0, 0);
    }
    if SafeSizes(M, N, K) {
      forall gy: nat, gx: nat, ty: nat, tx: nat | gy < TilesFor(M) && gx < TilesFor(N) && ty < 32 && tx < 32
        ensures ThreadFits(M, N, K, gy, gx, ty, tx)
      {
        SafeThread(M, N, K, gy, gx, ty, tx);
      }
    }
  }

  lemma SafeThread(M: nat, N: nat, K: nat, gy: nat, gx: nat, ty: nat, tx: nat)
    requires SafeSizes(M, N, K) && gy < TilesFor(M) && gx < TilesFor(N) && ty < 32 && tx < 32
    ensures ThreadFits(M, N, K, gy, gx, ty, tx)
  {
    var row, col := Tile(gy) + ty, Tile(gx) + tx;
    SafeStore(M, N, row, col);
    forall t: nat | t < TilesFor(K) ensures TileFits(M, N, K, row, col, Tile(t) + tx, Tile(t) + ty) {
      SafeTile(M, N, K, row, col, Tile(t) + tx, Tile(t) + ty);
    }
  }

  lemma SafeStore(M: nat, N: nat, row: nat, col: nat)
    requires M * N <= INT_MAX && row <= INT_MAX && col <= INT_MAX
    ensures StoreFits(M, N, row, col)
  {
    if row < M && col < N {
      FlatIndexInBounds(row, M, col, N);
    }
  }

  lemma SafeTile(M: nat, N: nat, K: nat, row: nat, col: nat, aCol: nat, bRow: nat)
    requires M * K <= INT_MAX && K * N <= INT_MAX && aCol <= INT_MAX && bRow <= INT_MAX
    ensures TileFits(M, N, K, row, col, aCol, bRow)
  {
    if row < M && aCol < K {
      FlatIndexInBounds(row, M, aCol, K);
    }
    if bRow < K && col < N {
      FlatIndexInBounds(bRow, K, col, N);
    }
  }
}
