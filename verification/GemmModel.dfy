/**
  The matrix product that both CUDA kernels compute, over an abstract arithmetic.

  A kernel widens `half` elements to `float`, accumulates `sum += a * b` along k and
  narrows the sum back to `half`. Nothing is assumed about rounding: `fma` is whatever the
  device does for one accumulation, fused or not, and no reassociation law is available.
 */
module GemmModel {

  const TILE_SIZE: nat := 32

  /** Offset of the first cell of tile t. */
  function Tile(t: nat): nat {
    32 * t
  }

  /** `H` is the storage type (`half`), `F` the accumulator type (`float`). */
  datatype Arithmetic<!F, !H> = Arithmetic(
    zero: F,
    fma: (F, F, F) -> F,
    widen: H -> F,
    narrow: F -> H)

  /** The sum reached from zero by accumulating the given products in order. */
  function Accumulate<F, H>(ar: Arithmetic<F, H>, products: seq<(F, F)>): F {
    if products == [] then ar.zero
    else
      var last := products[|products| - 1];
      ar.fma(Accumulate(ar, products[..|products| - 1]), last.0, last.1)
  }

  function Widened<F, H>(ar: Arithmetic<F, H>, stored: seq<(H, H)>): (products: seq<(F, F)>)
    ensures |products| == |stored|
  {
    seq(|stored|, k requires 0 <= k < |stored| => (ar.widen(stored[k].0), ar.widen(stored[k].1)))
  }

  /** Accumulating 0 * 0 leaves every sum of widened stored values unchanged. IEEE arithmetic
      qualifies, fused or not, although x + 0 = x fails for x = -0: sums of products of halves
      start at +0 and are multiples of 2^-48, so none of them rounds to -0. */
  ghost predicate Lawful<F, H(!new)>(ar: Arithmetic<F, H>) {
    forall stored: seq<(H, H)> ::
      var sum := Accumulate(ar, Widened(ar, stored)); ar.fma(sum, ar.zero, ar.zero) == sum
  }

  /** An unfused `x + a * b` is lawful as soon as 0 * 0 = 0 and x + 0 = x. */
  lemma SeparateRoundingIsLawful<F(!new), H(!new)>(ar: Arithmetic<F, H>, add: (F, F) -> F, mul: (F, F) -> F)
    requires forall x, a, b :: ar.fma(x, a, b) == add(x, mul(a, b))
    requires mul(ar.zero, ar.zero) == ar.zero
    requires forall x :: add(x, ar.zero) == x
    ensures Lawful(ar)
  {
  }

  /** A sum after m more accumulations of 0 * 0. */
  function AddZeros<F, H>(ar: Arithmetic<F, H>, sum: F, m: nat): F {
    if m == 0 then sum else ar.fma(AddZeros(ar, sum, m - 1), ar.zero, ar.zero)
  }

  /** A row-major cell lies inside the flat buffer. */
  lemma FlatIndexInBounds(r: nat, rows: nat, c: nat, cols: nat)
    requires r < rows && c < cols
    ensures r * cols <= r * cols + c < rows * cols
  {
    assert (r + 1) * cols <= rows * cols;
    assert r * cols + cols == (r + 1) * cols;
  }

  /** A later row starts at least one full row later. */
  lemma RowStride(r1: nat, r2: nat, cols: nat)
    ensures r1 < r2 ==> r1 * cols + cols <= r2 * cols
  {
    if r1 < r2 {
      assert (r1 + 1) * cols <= r2 * cols;
    }
  }

  /** Distinct row-major cells have distinct flat indices. */
  lemma FlatIndexInjective(r1: nat, c1: nat, r2: nat, c2: nat, cols: nat)
    requires c1 < cols && c2 < cols
    requires r1 * cols + c1 == r2 * cols + c2
    ensures r1 == r2 && c1 == c2
  {
    RowStride(r1, r2, cols);
    RowStride(r2, r1, cols);
  }

  /** Every flat index is the index of a cell. */
  lemma FlatIndexSurjective(i: nat, rows: nat, cols: nat) returns (r: nat, c: nat)
    requires i < rows * cols
    ensures r < rows && c < cols && i == r * cols + c
  {
    assert cols == 0 ==> rows * cols == 0;
    r, c := i / cols, i % cols;
    assert i == cols * (i / cols) + i % cols;
    assert cols * r == r * cols;
    RowStride(rows, r + 1, cols);
    assert (r + 1) * cols == r * cols + cols;
  }

  /** The element at row r and column c of a row-major matrix. */
  function At<X>(m: seq<X>, rows: nat, cols: nat, r: nat, c: nat): X
    requires r < rows && c < cols && |m| == rows * cols
  {
    FlatIndexInBounds(r, rows, c, cols);
    m[r * cols + c]
  }

  lemma AtIsRowMajor<X>(m: seq<X>, rows: nat, cols: nat, r: nat, c: nat)
    requires r < rows && c < cols && |m| == rows * cols
    ensures r * cols + c < |m| && At(m, rows, cols, r, c) == m[r * cols + c]
  {
    FlatIndexInBounds(r, rows, c, cols);
  }

  /** The arguments of a kernel launch. */
  datatype Problem<!F, !H> = Problem(ar: Arithmetic<F, H>, A: seq<H>, B: seq<H>, M: nat, N: nat, K: nat) {

    predicate Valid() {
      |A| == M * K && |B| == K * N
    }

    function ElemA(r: nat, k: nat): F
      requires Valid() && r < M && k < K
    {
      ar.widen(At(A, M, K, r, k))
    }

    function ElemB(k: nat, c: nat): F
      requires Valid() && k < K && c < N
    {
      ar.widen(At(B, K, N, k, c))
    }

    /** The reference: the inner product of row r and column c, first n terms in k order. */
    function Dot(r: nat, c: nat, n: nat): F
      requires Valid() && r < M && c < N && n <= K
    {
      if n == 0 then ar.zero else ar.fma(Dot(r, c, n - 1), ElemA(r, n - 1), ElemB(n - 1, c))
    }

    /** C holds the product: one narrowed inner product per cell. */
    ghost predicate IsProduct(C: seq<H>)
      requires Valid()
    {
      && |C| == M * N
      && forall r: nat, c: nat | r < M && c < N :: Cell(C, r, c) == ar.narrow(Dot(r, c, K))
    }

    function Cell<X>(C: seq<X>, r: nat, c: nat): X
      requires r < M && c < N && |C| == M * N
    {
      At(C, M, N, r, c)
    }

    /** The sum the tiled kernel arrives at: the same, and a 0 * 0 for each padded column. */
    function TiledDot(r: nat, c: nat): F
      requires Valid() && r < M && c < N
    {
      AddZeros(ar, Dot(r, c, K), Tile(TilesFor(K)) - K)
    }

    ghost predicate IsTiledProduct(C: seq<H>)
      requires Valid()
    {
      && |C| == M * N
      && forall r: nat, c: nat | r < M && c < N :: Cell(C, r, c) == ar.narrow(TiledDot(r, c))
    }

    /** The padding changes no stored result. */
    ghost predicate PaddingIsInvisible()
      requires Valid()
    {
      forall r: nat, c: nat | r < M && c < N :: ar.narrow(TiledDot(r, c)) == ar.narrow(Dot(r, c, K))
    }

    /** What the tiled kernel computes is the product exactly when the padding is invisible. */
    lemma TiledProductExactly(C: seq<H>)
      requires Valid() && IsTiledProduct(C)
      ensures IsProduct(C) <==> PaddingIsInvisible()
    {
      forall r: nat, c: nat | r < M && c < N ensures Cell(C, r, c) == ar.narrow(TiledDot(r, c)) {
      }
    }

    /** The stored values the first n terms of the inner product multiply. */
    function Pairs(r: nat, c: nat, n: nat): (pairs: seq<(H, H)>)
      requires Valid() && r < M && c < N && n <= K
      ensures |pairs| == n
    {
      seq(n, k requires 0 <= k < n => (At(A, M, K, r, k), At(B, K, N, k, c)))
    }

    lemma {:induction false} DotAccumulates(r: nat, c: nat, n: nat)
      requires Valid() && r < M && c < N && n <= K
      ensures Dot(r, c, n) == Accumulate(ar, Widened(ar, Pairs(r, c, n)))
    {
      if n > 0 {
        DotAccumulates(r, c, n - 1);
        var all := Widened(ar, Pairs(r, c, n));
        assert Pairs(r, c, n)[..n - 1] == Pairs(r, c, n - 1);
        assert all[..n - 1] == Widened(ar, Pairs(r, c, n - 1));
        assert all[n - 1] == (ElemA(r, n - 1), ElemB(n - 1, c));
      }
    }

    /** The accumulator's values while the loop multiplies row r of A by column c of B. */
    lemma PartialSums(r: nat, c: nat) returns (sums: seq<F>)
      requires Valid() && r < M && c < N
      ensures |sums| == K + 1 && sums[0] == ar.zero && sums[K] == Dot(r, c, K)
      ensures forall k | 0 <= k < K ::
                sums[k + 1] == ar.fma(sums[k], ar.widen(At(A, M, K, r, k)), ar.widen(At(B, K, N, k, c)))
    {
      hide At;
      sums := seq(K + 1, k requires 0 <= k <= K => Dot(r, c, k));
    }

    lemma {:induction false} OnlyPartialSums(r: nat, c: nat, sums: seq<F>, n: nat)
      requires Valid() && r < M && c < N && n <= K && |sums| == K + 1 && sums[0] == ar.zero
      requires forall k | 0 <= k < K ::
                 sums[k + 1] == ar.fma(sums[k], ar.widen(At(A, M, K, r, k)), ar.widen(At(B, K, N, k, c)))
      ensures sums[n] == Dot(r, c, n)
    {
      hide At;
      if n > 0 {
        OnlyPartialSums(r, c, sums, n - 1);
        assert sums[n] == ar.fma(sums[n - 1], ar.widen(At(A, M, K, r, n - 1)), ar.widen(At(B, K, N, n - 1, c)));
      }
    }

    /** One cell of the product in flat indices. */
    lemma ProductCell(C: seq<H>, r: nat, c: nat) returns (sums: seq<F>)
      requires Valid() && IsProduct(C) && r < M && c < N
      ensures |sums| == K + 1 && sums[0] == ar.zero
      ensures forall k | 0 <= k < K ::
                (FlatIndexInBounds(r, M, k, K); FlatIndexInBounds(k, K, c, N);
                 sums[k + 1] == ar.fma(sums[k], ar.widen(A[r * K + k]), ar.widen(B[k * N + c])))
      ensures r * N + c < |C| && C[r * N + c] == ar.narrow(sums[K])
    {
      sums := PartialSums(r, c);
      AtIsRowMajor(C, M, N, r, c);
      assert Cell(C, r, c) == ar.narrow(Dot(r, c, K));
    }

    /** `IsProduct` fixes the whole output buffer. */
    lemma ProductIsUnique(C1: seq<H>, C2: seq<H>)
      requires Valid() && IsProduct(C1) && IsProduct(C2)
      ensures C1 == C2
    {
      forall i | 0 <= i < |C1| ensures C1[i] == C2[i] {
        var r, c := FlatIndexSurjective(i, M, N);
        assert Cell(C1, r, c) == Cell(C2, r, c);
      }
    }

    // ----- the tiled kernel's view: both operands zero-padded outside the matrices -----

    function PadA(r: nat, k: nat): F {
      if Valid() && r < M && k < K then ElemA(r, k) else ar.zero
    }

    function PadB(k: nat, c: nat): F {
      if Valid() && k < K && c < N then ElemB(k, c) else ar.zero
    }

    /** The launch arithmetic of the host code and the operands the threads load. */
    function Launch(): Grid<F, H> {
      Grid(ar, (r: nat, k: nat) => PadA(r, k), (k: nat, c: nat) => PadB(k, c), (r: nat, c: nat) => r * N + c, M, N,
                    TilesFor(K), TilesFor(M), TilesFor(N))
    }

    /** Inside the matrices padding changes nothing. */
    lemma {:induction false} PaddedSumInside(r: nat, c: nat, n: nat)
      requires Valid() && r < M && c < N && n <= K
      ensures Launch().Sum(r, c, n) == Dot(r, c, n)
    {
      if n == 0 {
      } else {
        PaddedSumInside(r, c, n - 1);
      }
    }
  }

  /** What `IsProduct` says of every cell. */
  lemma ProductCells<F, H>(p: Problem<F, H>, C: seq<H>)
    requires p.Valid() && p.IsProduct(C)
    ensures forall r: nat, c: nat, sums: seq<F> |
              && r < p.M && c < p.N && |sums| == p.K + 1 && sums[0] == p.ar.zero
              && (forall k | 0 <= k < p.K ::
                    sums[k + 1] == p.ar.fma(sums[k], p.ar.widen(At(p.A, p.M, p.K, r, k)), p.ar.widen(At(p.B, p.K, p.N, k, c))))
              :: At(C, p.M, p.N, r, c) == p.ar.narrow(sums[p.K])
  {
    hide At;
    forall r: nat, c: nat, sums: seq<F> |
      && r < p.M && c < p.N && |sums| == p.K + 1 && sums[0] == p.ar.zero
      && (forall k | 0 <= k < p.K ::
            sums[k + 1] == p.ar.fma(sums[k], p.ar.widen(At(p.A, p.M, p.K, r, k)), p.ar.widen(At(p.B, p.K, p.N, k, c))))
      ensures At(C, p.M, p.N, r, c) == p.ar.narrow(sums[p.K])
    {
      p.OnlyPartialSums(r, c, sums, p.K);
      assert p.Cell(C, r, c) == p.ar.narrow(sums[p.K]);
    }
  }

  /** What the threads of a launch read, zeros outside the matrices, and where they write. */
  lemma LaunchOperands<F, H>(p: Problem<F, H>, r: nat, k: nat, c: nat)
    requires p.Valid()
    ensures p.Launch().a(r, k) == if r < p.M && k < p.K then p.ar.widen(At(p.A, p.M, p.K, r, k)) else p.ar.zero
    ensures p.Launch().b(k, c) == if k < p.K && c < p.N then p.ar.widen(At(p.B, p.K, p.N, k, c)) else p.ar.zero
    ensures p.Launch().index(r, c) == r * p.N + c
    ensures p.Launch().tiles == (p.K + 31) / 32 && p.Launch().gridY == (p.M + 31) / 32 && p.Launch().gridX == (p.N + 31) / 32
  {
  }

  /** The fewest tiles that cover n cells: (n + TILE_SIZE - 1) / TILE_SIZE. */
  function TilesFor(n: nat): (t: nat)
    ensures n <= Tile(t) < n + TILE_SIZE
  {
    (n + 31) / 32
  }

  /** One launch of the tiled kernel: padded operands, flat output index, output extent, tiles
      along k, grid dimensions. */
  datatype Grid<!F, !H> = Grid(
    ar: Arithmetic<F, H>,
    a: (nat, nat) -> F,
    b: (nat, nat) -> F,
    index: (nat, nat) -> nat,
    M: nat,
    N: nat,
    tiles: nat,
    gridY: nat,
    gridX: nat)
  {
    /** The inner product of padded row r and padded column c, first n terms in k order. */
    function Sum(r: nat, c: nat, n: nat): F {
      if n == 0 then ar.zero else ar.fma(Sum(r, c, n - 1), a(r, n - 1), b(n - 1, c))
    }
  }

  /** Past K both paddings are zero, so the remaining terms of the last tile are 0 * 0. */
  lemma {:induction false} PaddedSumAddsZeros<F, H>(p: Problem<F, H>, r: nat, c: nat, n: nat)
    requires p.Valid() && r < p.M && c < p.N && p.K <= n
    ensures p.Launch().Sum(r, c, n) == AddZeros(p.ar, p.Dot(r, c, p.K), n - p.K)
  {
    if n == p.K {
      p.PaddedSumInside(r, c, n);
    } else {
      PaddedSumAddsZeros(p, r, c, n - 1);
    }
  }

  /** The whole tile loop computes the tiled inner product, over any arithmetic and for every K. */
  lemma TileLoopComputesTiledDot<F, H>(p: Problem<F, H>, r: nat, c: nat)
    requires p.Valid() && r < p.M && c < p.N
    ensures p.Launch().Sum(r, c, Tile(p.Launch().tiles)) == p.TiledDot(r, c)
  {
    PaddedSumAddsZeros(p, r, c, Tile(p.Launch().tiles));
  }

  lemma {:induction false} ZerosChangeNothing<F, H(!new)>(p: Problem<F, H>, r: nat, c: nat, m: nat)
    requires p.Valid() && Lawful(p.ar) && r < p.M && c < p.N
    ensures AddZeros(p.ar, p.Dot(r, c, p.K), m) == p.Dot(r, c, p.K)
  {
    if m > 0 {
      ZerosChangeNothing(p, r, c, m - 1);
      p.DotAccumulates(r, c, p.K);
    }
  }

  /** Over lawful arithmetic the remaining terms change no sum. */
  lemma PaddedSumPastK<F, H(!new)>(p: Problem<F, H>, r: nat, c: nat, n: nat)
    requires p.Valid() && Lawful(p.ar) && r < p.M && c < p.N && p.K <= n
    ensures p.Launch().Sum(r, c, n) == p.Dot(r, c, p.K)
  {
    PaddedSumAddsZeros(p, r, c, n);
    ZerosChangeNothing(p, r, c, n - p.K);
  }

  /** Over lawful arithmetic the whole tile loop computes the reference inner product, for every K. */
  lemma TileLoopComputesDot<F, H(!new)>(p: Problem<F, H>, r: nat, c: nat)
    requires p.Valid() && Lawful(p.ar) && r < p.M && c < p.N
    ensures p.Launch().Sum(r, c, Tile(p.Launch().tiles)) == p.Dot(r, c, p.K)
  {
    PaddedSumPastK(p, r, c, Tile(p.Launch().tiles));
  }

  lemma LawfulPaddingIsInvisible<F, H(!new)>(p: Problem<F, H>)
    requires p.Valid() && Lawful(p.ar)
    ensures p.PaddingIsInvisible()
  {
    forall r: nat, c: nat | r < p.M && c < p.N ensures p.TiledDot(r, c) == p.Dot(r, c, p.K) {
      ZerosChangeNothing(p, r, c, Tile(TilesFor(p.K)) - p.K);
    }
  }
}
