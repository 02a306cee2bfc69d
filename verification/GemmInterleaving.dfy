/**
  The tiled kernel as a transition system over all threads of all blocks of a launch.

  A thread takes one step at a time: one shared-memory store, one accumulation, one barrier,
  one global store. Any thread that is not held at a barrier may take the next step, so a
  schedule is an arbitrary sequence of thread identities.
 */
module GemmInterleaving {
  import opened GemmModel

  /** A thread, and also the shared-memory slot it fills in its block. */
  datatype Gid = Gid(gy: nat, gx: nat, ty: nat, tx: nat) {
    function Row(): nat { Tile(gy) + ty }
    function Col(): nat { Tile(gx) + tx }

    predicate SameBlock(other: Gid) {
      gy == other.gy && gx == other.gx
    }
  }

  /** Where a thread is in the tile loop. `AwaitLoaded(t)` is barrier 2t, `AwaitUsed(t)` is 2t + 1. */
  datatype Pc =
    | LoadA(t: nat)
    | LoadB(t: nat)
    | AwaitLoaded(t: nat)
    | Mac(t: nat, k: nat)
    | AwaitUsed(t: nat)
    | StoreC
    | Done
  {
    /** How many barriers the thread has passed. */
    function Passed(tiles: nat): nat {
      match this
      case LoadA(t) => 2 * t
      case LoadB(t) => 2 * t
      case AwaitLoaded(t) => 2 * t
      case Mac(t, _) => 2 * t + 1
      case AwaitUsed(t) => 2 * t + 1
      case StoreC => 2 * tiles
      case Done => 2 * tiles
    }

    predicate Waiting() {
      AwaitLoaded? || AwaitUsed?
    }

    /** How many barriers the thread has arrived at. */
    function Arrived(tiles: nat): nat {
      Passed(tiles) + if Waiting() then 1 else 0
    }

    /** Steps left until the thread is done. */
    function Remaining(tiles: nat): int {
      match this
      case LoadA(t) => 36 * (tiles - t) + 1
      case LoadB(t) => 36 * (tiles - t)
      case AwaitLoaded(t) => 36 * (tiles - t) - 1
      case Mac(t, k) => 36 * (tiles - t) - 2 - k
      case AwaitUsed(t) => 36 * (tiles - t) - 34
      case StoreC => 1
      case Done => 0
    }

    predicate InRange(tiles: nat) {
      match this
      case LoadA(t) => t < tiles
      case LoadB(t) => t < tiles
      case AwaitLoaded(t) => t < tiles
      case Mac(t, k) => t < tiles && k < TILE_SIZE
      case AwaitUsed(t) => t < tiles
      case StoreC => true
      case Done => true
    }
  }

  datatype Thread<F> = Thread(pc: Pc, sum: F)

  /** `As[g]` and `Bs[g]` are the cells [g.ty][g.tx] of the two tiles of g's block. `C` is device
      memory by flat index, so a store outside the buffer would add a key; `stores` counts the
      stores to each index. */
  datatype State<F, H> = State(
    threads: map<Gid, Thread<F>>,
    As: map<Gid, F>,
    Bs: map<Gid, F>,
    C: map<nat, H>,
    stores: map<nat, nat>)

  predicate Launched<F, H>(l: Grid<F, H>, g: Gid) {
    g.gy < l.gridY && g.gx < l.gridX && g.ty < TILE_SIZE && g.tx < TILE_SIZE
  }

  ghost predicate WellFormed<F, H>(l: Grid<F, H>, s: State<F, H>) {
    && (forall g :: g in s.threads <==> Launched(l, g))
    && s.As.Keys == s.threads.Keys
    && s.Bs.Keys == s.threads.Keys
    && forall g | g in s.threads :: s.threads[g].pc.InRange(l.tiles)
  }

  function FirstPc(tiles: nat): Pc {
    if tiles == 0 then StoreC else LoadA(0)
  }

  /** Shared memory starts with arbitrary contents, C with the caller's. */
  ghost predicate Init<F, H>(l: Grid<F, H>, C0: map<nat, H>, s: State<F, H>) {
    && WellFormed(l, s)
    && s.C == C0
    && s.stores == map[]
    && forall g | g in s.threads :: s.threads[g] == Thread(FirstPc(l.tiles), l.ar.zero)
  }

  /** A barrier lets a thread through once every thread of its block has arrived. */
  ghost predicate Enabled<F, H>(l: Grid<F, H>, s: State<F, H>, g: Gid) {
    && g in s.threads
    && !s.threads[g].pc.Done?
    && (s.threads[g].pc.Waiting() ==>
          forall h | h in s.threads && h.SameBlock(g) ::
            s.threads[h].pc.Arrived(l.tiles) > s.threads[g].pc.Passed(l.tiles))
  }

  /** The program counter after one step. */
  function Advance(pc: Pc, tiles: nat): Pc {
    match pc
    case LoadA(t) => LoadB(t)
    case LoadB(t) => AwaitLoaded(t)
    case AwaitLoaded(t) => Mac(t, 0)
    case Mac(t, k) => if k + 1 < TILE_SIZE then Mac(t, k + 1) else AwaitUsed(t)
    case AwaitUsed(t) => if t + 1 < tiles then LoadA(t + 1) else StoreC
    case StoreC => Done
    case Done => Done
  }

  function StoreCount(stores: map<nat, nat>, i: nat): nat {
    if i in stores then stores[i] else 0
  }

  /** Only threads that own a cell of C store one. */
  predicate OwnsCell<F, H>(l: Grid<F, H>, g: Gid) {
    g.Row() < l.M && g.Col() < l.N
  }

  function Index<F, H>(l: Grid<F, H>, g: Gid): nat {
    l.index(g.Row(), g.Col())
  }

  /** One step of thread g. */
  function Next<F, H>(l: Grid<F, H>, s: State<F, H>, g: Gid): State<F, H>
    requires WellFormed(l, s) && g in s.threads
  {
    State(NextThreads(l, s, g), NextAs(l, s, g), NextBs(l, s, g), NextC(l, s, g), NextStores(l, s, g))
  }

  function NextThreads<F, H>(l: Grid<F, H>, s: State<F, H>, g: Gid): map<Gid, Thread<F>>
    requires WellFormed(l, s) && g in s.threads
  {
    var th := s.threads[g];
    var sum :=
      if th.pc.Mac? then
        l.ar.fma(th.sum, s.As[LeftSlot(g, th.pc.k)], s.Bs[AboveSlot(g, th.pc.k)])
      else th.sum;
    s.threads[g := Thread(Advance(th.pc, l.tiles), sum)]
  }

  function NextAs<F, H>(l: Grid<F, H>, s: State<F, H>, g: Gid): map<Gid, F>
    requires g in s.threads
  {
    if s.threads[g].pc.LoadA? then s.As[g := TileA(l, g, s.threads[g].pc.t)] else s.As
  }

  function NextBs<F, H>(l: Grid<F, H>, s: State<F, H>, g: Gid): map<Gid, F>
    requires g in s.threads
  {
    if s.threads[g].pc.LoadB? then s.Bs[g := TileB(l, g, s.threads[g].pc.t)] else s.Bs
  }

  function NextC<F, H>(l: Grid<F, H>, s: State<F, H>, g: Gid): map<nat, H>
    requires g in s.threads
  {
    if s.threads[g].pc.StoreC? && OwnsCell(l, g)
    then s.C[Index(l, g) := l.ar.narrow(s.threads[g].sum)] else s.C
  }

  function NextStores<F, H>(l: Grid<F, H>, s: State<F, H>, g: Gid): map<nat, nat>
    requires g in s.threads
  {
    if s.threads[g].pc.StoreC? && OwnsCell(l, g)
    then s.stores[Index(l, g) := StoreCount(s.stores, Index(l, g)) + 1] else s.stores
  }

  /** The elements of tile t that thread g loads. */
  function TileA<F, H>(l: Grid<F, H>, g: Gid, t: nat): F {
    l.a(g.Row(), Tile(t) + g.tx)
  }

  function TileB<F, H>(l: Grid<F, H>, g: Gid, t: nat): F {
    l.b(Tile(t) + g.ty, g.Col())
  }

  // ----- the invariant -----

  /** A barrier some thread has passed is one every thread of the block has arrived at. */
  ghost predicate Lockstep<F>(tiles: nat, threads: map<Gid, Thread<F>>) {
    forall g, h | g in threads && h in threads && g.SameBlock(h) ::
      threads[g].pc.Passed(tiles) <= threads[h].pc.Arrived(tiles)
  }

  /** How many terms of the padded inner product the thread has accumulated. */
  function Terms(pc: Pc, tiles: nat): nat {
    match pc
    case LoadA(t) => Tile(t)
    case LoadB(t) => Tile(t)
    case AwaitLoaded(t) => Tile(t)
    case Mac(t, k) => Tile(t) + k
    case AwaitUsed(t) => Tile(t + 1)
    case StoreC => Tile(tiles)
    case Done => Tile(tiles)
  }

  ghost predicate SumsCorrect<F, H>(l: Grid<F, H>, threads: map<Gid, Thread<F>>) {
    forall g | g in threads ::
      threads[g].sum == l.Sum(g.Row(), g.Col(), Terms(threads[g].pc, l.tiles))
  }

  predicate HoldsA(pc: Pc) {
    pc.LoadB? || HoldsB(pc)
  }

  predicate HoldsB(pc: Pc) {
    pc.AwaitLoaded? || pc.Mac? || pc.AwaitUsed?
  }

  /** A slot holds its element of tile t from its owner's load until the owner's next load. */
  ghost predicate LoadedA<F, H>(l: Grid<F, H>, threads: map<Gid, Thread<F>>, As: map<Gid, F>) {
    forall g | g in threads && HoldsA(threads[g].pc) :: g in As && As[g] == TileA(l, g, threads[g].pc.t)
  }

  ghost predicate LoadedB<F, H>(l: Grid<F, H>, threads: map<Gid, Thread<F>>, Bs: map<Gid, F>) {
    forall g | g in threads && HoldsB(threads[g].pc) :: g in Bs && Bs[g] == TileB(l, g, threads[g].pc.t)
  }

  /** Each index is stored at most once, by the last step of the thread whose cell it is. */
  ghost predicate OutputCorrect<F, H>(l: Grid<F, H>, C0: map<nat, H>, threads: map<Gid, Thread<F>>,
                                      C: map<nat, H>, stores: map<nat, nat>) {
    && (forall g | g in threads && threads[g].pc.Done? && OwnsCell(l, g) :: StoredBy(l, g, C, stores))
    && (forall i: nat | i in stores :: stores[i] == 1 && exists g :: HasStored(l, threads, g, i))
    && (forall i: nat | i !in stores :: (i in C <==> i in C0) && (i in C ==> C[i] == C0[i]))
  }

  ghost predicate StoredBy<F, H>(l: Grid<F, H>, g: Gid, C: map<nat, H>, stores: map<nat, nat>) {
    && Index(l, g) in stores
    && Index(l, g) in C
    && C[Index(l, g)] == l.ar.narrow(l.Sum(g.Row(), g.Col(), Tile(l.tiles)))
  }

  ghost predicate HasStored<F, H>(l: Grid<F, H>, threads: map<Gid, Thread<F>>, g: Gid, i: nat) {
    g in threads && threads[g].pc.Done? && OwnsCell(l, g) && i == Index(l, g)
  }

  ghost predicate Inv<F, H>(l: Grid<F, H>, C0: map<nat, H>, s: State<F, H>) {
    && WellFormed(l, s)
    && Lockstep(l.tiles, s.threads)
    && SumsCorrect(l, s.threads)
    && LoadedA(l, s.threads, s.As)
    && LoadedB(l, s.threads, s.Bs)
    && OutputCorrect(l, C0, s.threads, s.C, s.stores)
  }

  /** Two launched threads never own the same index of C. */
  ghost predicate OneThreadPerCell<F, H>(l: Grid<F, H>) {
    forall g, h | Launched(l, g) && Launched(l, h) && OwnsCell(l, g) && OwnsCell(l, h) ::
      Index(l, g) == Index(l, h) ==> g == h
  }

  lemma InitEstablishesInv<F, H>(l: Grid<F, H>, C0: map<nat, H>, s: State<F, H>)
    requires Init(l, C0, s)
    ensures Inv(l, C0, s)
  {
  }

  lemma StepKeepsWellFormed<F, H>(l: Grid<F, H>, s: State<F, H>, g: Gid)
    requires WellFormed(l, s) && g in s.threads
    ensures WellFormed(l, Next(l, s, g))
    ensures Next(l, s, g).threads.Keys == s.threads.Keys
  {
    assert NextThreads(l, s, g).Keys == s.threads.Keys;
    assert NextAs(l, s, g).Keys == s.As.Keys;
    assert NextBs(l, s, g).Keys == s.Bs.Keys;
  }

  /** A step that leaves a barrier passes it; no other step changes the number passed. */
  lemma AdvanceCounts(pc: Pc, tiles: nat)
    requires pc.InRange(tiles)
    ensures Advance(pc, tiles).Passed(tiles) == pc.Arrived(tiles)
    ensures Advance(pc, tiles).Arrived(tiles) >= pc.Arrived(tiles)
  {
  }

  lemma StepKeepsLockstep<F, H>(l: Grid<F, H>, s: State<F, H>, g: Gid)
    requires WellFormed(l, s) && Enabled(l, s, g) && Lockstep(l.tiles, s.threads)
    ensures Lockstep(l.tiles, NextThreads(l, s, g))
  {
    var threads := NextThreads(l, s, g);
    AdvanceCounts(s.threads[g].pc, l.tiles);
    hide Advance, Pc.Passed, Pc.Waiting;
    forall x, y | x in threads && y in threads && x.SameBlock(y)
      ensures threads[x].pc.Passed(l.tiles) <= threads[y].pc.Arrived(l.tiles)
    {
      assert x in s.threads && y in s.threads;
      assert s.threads[x].pc.Passed(l.tiles) <= s.threads[y].pc.Arrived(l.tiles);
    }
  }

  lemma SameTile(pc: Pc, other: Pc, tiles: nat)
    requires pc.InRange(tiles) && other.InRange(tiles) && pc.Mac?
    requires pc.Passed(tiles) <= other.Arrived(tiles) && other.Passed(tiles) <= pc.Arrived(tiles)
    ensures HoldsB(other) && other.t == pc.t
  {
  }

  /** A thread between the two barriers of tile t holds its whole block inside tile t. */
  lemma BlockInsideTile<F, H>(l: Grid<F, H>, s: State<F, H>, g: Gid, h: Gid)
    requires WellFormed(l, s) && Lockstep(l.tiles, s.threads)
    requires g in s.threads && s.threads[g].pc.Mac?
    requires h in s.threads && h.SameBlock(g)
    ensures HoldsB(s.threads[h].pc) && s.threads[h].pc.t == s.threads[g].pc.t
  {
    SameTile(s.threads[g].pc, s.threads[h].pc, l.tiles);
  }

  /** The slots an accumulation reads. */
  function LeftSlot(g: Gid, k: nat): Gid { Gid(g.gy, g.gx, g.ty, k) }
  function AboveSlot(g: Gid, k: nat): Gid { Gid(g.gy, g.gx, k, g.tx) }

  lemma SlotsAreInTheBlock<F, H>(l: Grid<F, H>, s: State<F, H>, g: Gid)
    requires WellFormed(l, s) && Lockstep(l.tiles, s.threads)
    requires g in s.threads && s.threads[g].pc.Mac?
    ensures var Mac(t, k) := s.threads[g].pc;
            && LeftSlot(g, k) in s.threads && HoldsB(s.threads[LeftSlot(g, k)].pc) && s.threads[LeftSlot(g, k)].pc.t == t
            && AboveSlot(g, k) in s.threads && HoldsB(s.threads[AboveSlot(g, k)].pc) && s.threads[AboveSlot(g, k)].pc.t == t
  {
    var k := s.threads[g].pc.k;
    assert Launched(l, g) && k < TILE_SIZE;
    assert Launched(l, LeftSlot(g, k)) && Launched(l, AboveSlot(g, k));
    BlockInsideTile(l, s, g, LeftSlot(g, k));
    BlockInsideTile(l, s, g, AboveSlot(g, k));
  }

  lemma SlotsHoldTheTile<F, H>(l: Grid<F, H>, threads: map<Gid, Thread<F>>, As: map<Gid, F>, Bs: map<Gid, F>,
                               left: Gid, above: Gid, t: nat)
    requires LoadedA(l, threads, As) && LoadedB(l, threads, Bs)
    requires left in threads && HoldsB(threads[left].pc) && threads[left].pc.t == t
    requires above in threads && HoldsB(threads[above].pc) && threads[above].pc.t == t
    ensures left in As && As[left] == TileA(l, left, t)
    ensures above in Bs && Bs[above] == TileB(l, above, t)
  {
  }

  /** What an accumulation reads is the current tile, whatever the other threads are doing. */
  lemma MacReadsTheTile<F, H>(l: Grid<F, H>, s: State<F, H>, g: Gid)
    requires WellFormed(l, s) && Lockstep(l.tiles, s.threads)
    requires LoadedA(l, s.threads, s.As) && LoadedB(l, s.threads, s.Bs)
    requires g in s.threads && s.threads[g].pc.Mac?
    ensures var Mac(t, k) := s.threads[g].pc;
            && LeftSlot(g, k) in s.As && s.As[LeftSlot(g, k)] == TileA(l, LeftSlot(g, k), t)
            && AboveSlot(g, k) in s.Bs && s.Bs[AboveSlot(g, k)] == TileB(l, AboveSlot(g, k), t)
  {
    var Mac(t, k) := s.threads[g].pc;
    SlotsAreInTheBlock(l, s, g);
    SlotsHoldTheTile(l, s.threads, s.As, s.Bs, LeftSlot(g, k), AboveSlot(g, k), t);
  }

  lemma AdvanceTerms(pc: Pc, tiles: nat)
    requires pc.InRange(tiles)
    ensures Terms(Advance(pc, tiles), tiles) == Terms(pc, tiles) + if pc.Mac? then 1 else 0
    ensures !pc.Done? ==> Advance(pc, tiles).Remaining(tiles) == pc.Remaining(tiles) - 1
  {
  }

  lemma MacAddsOneTerm<F, H>(l: Grid<F, H>, g: Gid, t: nat, k: nat)
    ensures l.ar.fma(l.Sum(g.Row(), g.Col(), Tile(t) + k), TileA(l, LeftSlot(g, k), t), TileB(l, AboveSlot(g, k), t))
            == l.Sum(g.Row(), g.Col(), Tile(t) + k + 1)
  {
  }

  lemma MacSum<F, H>(l: Grid<F, H>, s: State<F, H>, g: Gid)
    requires WellFormed(l, s) && g in s.threads && Lockstep(l.tiles, s.threads) && s.threads[g].pc.Mac?
    requires LoadedA(l, s.threads, s.As) && LoadedB(l, s.threads, s.Bs)
    ensures var Mac(t, k) := s.threads[g].pc;
            NextThreads(l, s, g)[g].sum
            == l.ar.fma(s.threads[g].sum, TileA(l, LeftSlot(g, k), t), TileB(l, AboveSlot(g, k), t))
  {
    MacReadsTheTile(l, s, g);
  }

  lemma OtherStepKeepsSum<F, H>(l: Grid<F, H>, s: State<F, H>, g: Gid)
    requires WellFormed(l, s) && g in s.threads && !s.threads[g].pc.Mac?
    ensures NextThreads(l, s, g)[g].sum == s.threads[g].sum
  {
  }

  lemma InRangeOf<F, H>(l: Grid<F, H>, s: State<F, H>, g: Gid)
    requires WellFormed(l, s) && g in s.threads
    ensures s.threads[g].pc.InRange(l.tiles)
  {
  }

  /** One step keeps a thread's sum equal to the terms its program counter says it has added. */
  lemma SteppedSum<F, H>(l: Grid<F, H>, s: State<F, H>, g: Gid)
    requires WellFormed(l, s) && g in s.threads && Lockstep(l.tiles, s.threads)
    requires LoadedA(l, s.threads, s.As) && LoadedB(l, s.threads, s.Bs)
    requires s.threads[g].sum == l.Sum(g.Row(), g.Col(), Terms(s.threads[g].pc, l.tiles))
    ensures NextThreads(l, s, g)[g].sum
            == l.Sum(g.Row(), g.Col(), Terms(Advance(s.threads[g].pc, l.tiles), l.tiles))
  {
    hide LoadedA, LoadedB, Lockstep, TileA, TileB, Advance, NextThreads, Grid.Sum, WellFormed, Gid.Row, Gid.Col, Pc.InRange;
    var pc := s.threads[g].pc;
    InRangeOf(l, s, g);
    AdvanceTerms(pc, l.tiles);
    if pc.Mac? {
      MacSum(l, s, g);
      MacAddsOneTerm(l, g, pc.t, pc.k);
    } else {
      OtherStepKeepsSum(l, s, g);
    }
  }

  lemma StepKeepsSums<F, H>(l: Grid<F, H>, s: State<F, H>, g: Gid)
    requires WellFormed(l, s) && Enabled(l, s, g) && Lockstep(l.tiles, s.threads)
    requires LoadedA(l, s.threads, s.As) && LoadedB(l, s.threads, s.Bs) && SumsCorrect(l, s.threads)
    ensures SumsCorrect(l, NextThreads(l, s, g))
  {
    SteppedSum(l, s, g);
  }

  lemma StepKeepsLoaded<F, H>(l: Grid<F, H>, s: State<F, H>, g: Gid)
    requires WellFormed(l, s) && g in s.threads
    requires LoadedA(l, s.threads, s.As) && LoadedB(l, s.threads, s.Bs)
    ensures LoadedA(l, NextThreads(l, s, g), NextAs(l, s, g))
    ensures LoadedB(l, NextThreads(l, s, g), NextBs(l, s, g))
  {
    StepKeepsLoadedA(l, s, g);
    hide LoadedA;
  }

  lemma StepKeepsLoadedA<F, H>(l: Grid<F, H>, s: State<F, H>, g: Gid)
    requires WellFormed(l, s) && g in s.threads && LoadedA(l, s.threads, s.As)
    ensures LoadedA(l, NextThreads(l, s, g), NextAs(l, s, g))
  {
  }

  /** The index a thread is about to store has not been stored yet. */
  lemma CellNotYetStored<F, H>(l: Grid<F, H>, C0: map<nat, H>, s: State<F, H>, g: Gid)
    requires WellFormed(l, s) && OneThreadPerCell(l) && OutputCorrect(l, C0, s.threads, s.C, s.stores)
    requires g in s.threads && !s.threads[g].pc.Done? && OwnsCell(l, g)
    ensures Index(l, g) !in s.stores
    ensures forall h | h in s.threads && s.threads[h].pc.Done? && OwnsCell(l, h) :: Index(l, h) != Index(l, g)
  {
    assert forall h | HasStored(l, s.threads, h, Index(l, g)) :: h == g;
  }

  /** Cells stored before the step keep their value, and its own thread's cell is stored by it. */
  lemma StepKeepsStored<F, H>(l: Grid<F, H>, C0: map<nat, H>, s: State<F, H>, g: Gid)
    requires WellFormed(l, s) && OneThreadPerCell(l) && SumsCorrect(l, s.threads)
    requires OutputCorrect(l, C0, s.threads, s.C, s.stores) && Enabled(l, s, g)
    ensures forall h | h in NextThreads(l, s, g) && NextThreads(l, s, g)[h].pc.Done? && OwnsCell(l, h) ::
              StoredBy(l, h, NextC(l, s, g), NextStores(l, s, g))
  {
    var threads, C, stores := NextThreads(l, s, g), NextC(l, s, g), NextStores(l, s, g);
    if OwnsCell(l, g) {
      CellNotYetStored(l, C0, s, g);
    }
    hide Lockstep, Grid.Sum, Gid.Row, Gid.Col, Index;
    forall h | h in threads && threads[h].pc.Done? && OwnsCell(l, h) ensures StoredBy(l, h, C, stores) {
      if h != g {
        assert StoredBy(l, h, s.C, s.stores);
      }
    }
  }

  /** Every cell is stored once, by the thread that owns it. */
  lemma StepStoresOnce<F, H>(l: Grid<F, H>, C0: map<nat, H>, s: State<F, H>, g: Gid)
    requires WellFormed(l, s) && OneThreadPerCell(l)
    requires OutputCorrect(l, C0, s.threads, s.C, s.stores) && Enabled(l, s, g)
    ensures forall i: nat | i in NextStores(l, s, g) ::
              NextStores(l, s, g)[i] == 1 && exists h :: HasStored(l, NextThreads(l, s, g), h, i)
  {
    var threads, stores := NextThreads(l, s, g), NextStores(l, s, g);
    if OwnsCell(l, g) {
      CellNotYetStored(l, C0, s, g);
    }
    hide Lockstep, Grid.Sum, Gid.Row, Gid.Col, Index, StoredBy;
    forall i: nat | i in stores ensures stores[i] == 1 && exists h :: HasStored(l, threads, h, i) {
      if i in s.stores {
        var h :| HasStored(l, s.threads, h, i);
        assert HasStored(l, threads, h, i);
      } else {
        assert HasStored(l, threads, g, i);
      }
    }
  }

  lemma StepKeepsOutput<F, H>(l: Grid<F, H>, C0: map<nat, H>, s: State<F, H>, g: Gid)
    requires WellFormed(l, s) && OneThreadPerCell(l) && SumsCorrect(l, s.threads)
    requires OutputCorrect(l, C0, s.threads, s.C, s.stores) && Enabled(l, s, g)
    ensures OutputCorrect(l, C0, NextThreads(l, s, g), NextC(l, s, g), NextStores(l, s, g))
  {
    StepKeepsStored(l, C0, s, g);
    StepStoresOnce(l, C0, s, g);
    hide StoredBy, HasStored, WellFormed, Lockstep, SumsCorrect, OneThreadPerCell, NextThreads, Gid.Row, Gid.Col;
  }

  lemma StepKeepsInv<F, H>(l: Grid<F, H>, C0: map<nat, H>, s: State<F, H>, g: Gid)
    requires Inv(l, C0, s) && OneThreadPerCell(l) && Enabled(l, s, g)
    ensures Inv(l, C0, Next(l, s, g))
  {
    StepKeepsWellFormed(l, s, g);
    StepKeepsLockstep(l, s, g);
    StepKeepsSums(l, s, g);
    StepKeepsLoaded(l, s, g);
    StepKeepsOutput(l, C0, s, g);
  }

  // ----- schedules -----

  /** Each entry is a thread that may step when its turn comes. */
  ghost predicate Legal<F, H>(l: Grid<F, H>, s: State<F, H>, schedule: seq<Gid>)
    requires WellFormed(l, s)
    decreases |schedule|
  {
    schedule == [] ||
    (Enabled(l, s, schedule[0]) &&
     (StepKeepsWellFormed(l, s, schedule[0]);
      Legal(l, Next(l, s, schedule[0]), schedule[1..])))
  }

  ghost function Execute<F, H>(l: Grid<F, H>, s: State<F, H>, schedule: seq<Gid>): State<F, H>
    requires WellFormed(l, s) && Legal(l, s, schedule)
    decreases |schedule|
  {
    if schedule == [] then s
    else
      StepKeepsWellFormed(l, s, schedule[0]);
      Execute(l, Next(l, s, schedule[0]), schedule[1..])
  }

  lemma {:induction false} InvOnEverySchedule<F, H>(l: Grid<F, H>, C0: map<nat, H>, s: State<F, H>, schedule: seq<Gid>)
    requires Inv(l, C0, s) && OneThreadPerCell(l) && Legal(l, s, schedule)
    ensures Inv(l, C0, Execute(l, s, schedule))
    decreases |schedule|
  {
    if schedule == [] {
    } else {
      StepKeepsInv(l, C0, s, schedule[0]);
      InvOnEverySchedule(l, C0, Next(l, s, schedule[0]), schedule[1..]);
    }
  }

  ghost predicate AllDone<F, H>(s: State<F, H>) {
    forall g | g in s.threads :: s.threads[g].pc.Done?
  }

  /** No schedule can get stuck at a barrier: some thread may step until all are done. */
  lemma NoDeadlock<F, H>(l: Grid<F, H>, s: State<F, H>) returns (g: Gid)
    requires WellFormed(l, s) && Lockstep(l.tiles, s.threads) && !AllDone(s)
    ensures Enabled(l, s, g)
  {
    g :| g in s.threads && !s.threads[g].pc.Done?;
    if !Enabled(l, s, g) {
      var late :| late in s.threads && late.SameBlock(g) && s.threads[late].pc.Arrived(l.tiles) <= s.threads[g].pc.Passed(l.tiles);
      // If the late thread waits at all, it waits at the barrier g has just passed.
      forall h | h in s.threads && h.SameBlock(late)
        ensures s.threads[late].pc.Waiting() ==> s.threads[h].pc.Arrived(l.tiles) > s.threads[late].pc.Passed(l.tiles)
      {
        assert s.threads[g].pc.Passed(l.tiles) <= s.threads[h].pc.Arrived(l.tiles);
      }
      g := late;
    }
  }

  // ----- termination: every step uses up one unit of a fixed total amount of work -----

  ghost function Work<F>(tiles: nat, ids: set<Gid>, threads: map<Gid, Thread<F>>): int
    requires ids <= threads.Keys
    decreases |ids|
  {
    if ids == {} then 0
    else
      var g :| g in ids;
      threads[g].pc.Remaining(tiles) + Work(tiles, ids - {g}, threads)
  }

  /** The sum does not depend on the order the threads are listed in. */
  lemma {:induction false} WorkSplit<F>(tiles: nat, ids: set<Gid>, threads: map<Gid, Thread<F>>, g: Gid)
    requires ids <= threads.Keys && g in ids
    ensures Work(tiles, ids, threads) == threads[g].pc.Remaining(tiles) + Work(tiles, ids - {g}, threads)
    decreases |ids|
  {
    var h :| h in ids && Work(tiles, ids, threads) == threads[h].pc.Remaining(tiles) + Work(tiles, ids - {h}, threads);
    if h != g {
      WorkSplit(tiles, ids - {h}, threads, g);
      WorkSplit(tiles, ids - {g}, threads, h);
      assert ids - {h} - {g} == ids - {g} - {h};
    }
  }

  lemma {:induction false} WorkFrame<F>(tiles: nat, ids: set<Gid>, threads: map<Gid, Thread<F>>, threads': map<Gid, Thread<F>>)
    requires ids <= threads.Keys && ids <= threads'.Keys
    requires forall g | g in ids :: threads[g].pc == threads'[g].pc
    ensures Work(tiles, ids, threads) == Work(tiles, ids, threads')
    decreases |ids|
  {
    if ids == {} {
    } else {
      var g :| g in ids;
      WorkSplit(tiles, ids, threads, g);
      WorkSplit(tiles, ids, threads', g);
      WorkFrame(tiles, ids - {g}, threads, threads');
    }
  }

  lemma StepUsesOneUnit<F, H>(l: Grid<F, H>, s: State<F, H>, g: Gid)
    requires WellFormed(l, s) && Enabled(l, s, g)
    ensures WellFormed(l, Next(l, s, g)) && Next(l, s, g).threads.Keys == s.threads.Keys
    ensures Work(l.tiles, s.threads.Keys, Next(l, s, g).threads) == Work(l.tiles, s.threads.Keys, s.threads) - 1
  {
    StepKeepsWellFormed(l, s, g);
    var s', tiles, ids := Next(l, s, g), l.tiles, s.threads.Keys;
    assert s'.threads.Keys == ids;
    WorkSplit(tiles, ids, s.threads, g);
    WorkSplit(tiles, ids, s'.threads, g);
    AdvanceTerms(s.threads[g].pc, tiles);
    WorkFrame(tiles, ids - {g}, s.threads, s'.threads);
  }

  lemma {:induction false} ScheduleUsesItsLength<F, H>(l: Grid<F, H>, s: State<F, H>, schedule: seq<Gid>)
    requires WellFormed(l, s) && Legal(l, s, schedule)
    ensures Execute(l, s, schedule).threads.Keys == s.threads.Keys
    ensures |schedule| + Work(l.tiles, s.threads.Keys, Execute(l, s, schedule).threads)
            == Work(l.tiles, s.threads.Keys, s.threads)
    decreases |schedule|
  {
    if schedule == [] {
    } else {
      StepUsesOneUnit(l, s, schedule[0]);
      ScheduleUsesItsLength(l, Next(l, s, schedule[0]), schedule[1..]);
    }
  }

  lemma {:induction false} UniformWork<F>(tiles: nat, ids: set<Gid>, threads: map<Gid, Thread<F>>, w: int)
    requires ids <= threads.Keys
    requires forall g | g in ids :: threads[g].pc.Remaining(tiles) == w
    ensures Work(tiles, ids, threads) == |ids| * w
    decreases |ids|
  {
    if ids == {} {
    } else {
      var g :| g in ids;
      WorkSplit(tiles, ids, threads, g);
      UniformWork(tiles, ids - {g}, threads, w);
      assert |ids| * w == (|ids| - 1) * w + w;
    }
  }

  lemma {:induction false} WorkPositive<F>(tiles: nat, ids: set<Gid>, threads: map<Gid, Thread<F>>)
    requires ids <= threads.Keys && forall g | g in ids :: threads[g].pc.InRange(tiles)
    ensures Work(tiles, ids, threads) >= 0
    ensures Work(tiles, ids, threads) == 0 <==> forall g | g in ids :: threads[g].pc.Done?
    decreases |ids|
  {
    if ids == {} {
    } else {
      var g :| g in ids;
      WorkSplit(tiles, ids, threads, g);
      WorkPositive(tiles, ids - {g}, threads);
    }
  }

  /** The schedule has at most `total` steps; it has exactly that many when all threads are done,
      which is when no thread may step. */
  ghost predicate BoundedBy<F, H>(l: Grid<F, H>, s: State<F, H>, schedule: seq<Gid>, total: nat)
    requires WellFormed(l, s) && Legal(l, s, schedule)
  {
    var final := Execute(l, s, schedule);
    && |schedule| <= total
    && (|schedule| == total <==> AllDone(final))
    && (AllDone(final) <==> forall g :: !Enabled(l, final, g))
  }

  lemma ScheduleIsBounded<F, H>(l: Grid<F, H>, C0: map<nat, H>, s: State<F, H>, schedule: seq<Gid>)
    requires Init(l, C0, s) && OneThreadPerCell(l) && Legal(l, s, schedule)
    ensures Work(l.tiles, s.threads.Keys, s.threads) >= 0
    ensures BoundedBy(l, s, schedule, Work(l.tiles, s.threads.Keys, s.threads))
  {
    var final, ids := Execute(l, s, schedule), s.threads.Keys;
    assert WellFormed(l, final) && Lockstep(l.tiles, final.threads) by {
      InitEstablishesInv(l, C0, s);
      InvOnEverySchedule(l, C0, s, schedule);
    }
    ScheduleUsesItsLength(l, s, schedule);
    WorkPositive(l.tiles, ids, final.threads);
    if !AllDone(final) {
      var g := NoDeadlock(l, final);
    }
  }

  // ----- races -----

  datatype Location = SharedA(slot: Gid) | SharedB(slot: Gid) | Global(index: nat)

  ghost function Writes<F, H>(l: Grid<F, H>, s: State<F, H>, g: Gid): set<Location>
    requires g in s.threads
  {
    match s.threads[g].pc
    case LoadA(_) => {SharedA(g)}
    case LoadB(_) => {SharedB(g)}
    case StoreC => if OwnsCell(l, g) then {Global(Index(l, g))} else {}
    case _ => {}
  }

  /** A and B are never written, so only shared memory and C can race. */
  ghost function Reads<F, H>(l: Grid<F, H>, s: State<F, H>, g: Gid): set<Location>
    requires g in s.threads
  {
    match s.threads[g].pc
    case Mac(_, k) => {SharedA(LeftSlot(g, k)), SharedB(AboveSlot(g, k))}
    case _ => {}
  }

  lemma NextStepsDoNotRace<F, H>(l: Grid<F, H>, s: State<F, H>, g: Gid, h: Gid)
    requires WellFormed(l, s) && Lockstep(l.tiles, s.threads) && OneThreadPerCell(l)
    requires g != h && g in s.threads && h in s.threads
    ensures Writes(l, s, g) !! (Writes(l, s, h) + Reads(l, s, h))
  {
    if s.threads[h].pc.Mac? && h.SameBlock(g) {
      BlockInsideTile(l, s, h, g);
    }
  }

  // ----- from a launch back to the problem it solves -----

  /** The thread whose output is cell (r, c). */
  function Owner(r: nat, c: nat): Gid {
    Gid(r / 32, c / 32, r % 32, c % 32)
  }

  /** The grid covers every cell of C. */
  lemma OwnerIsLaunched<F, H>(p: Problem<F, H>, r: nat, c: nat)
    requires r < p.M && c < p.N
    ensures Launched(p.Launch(), Owner(r, c))
    ensures Owner(r, c).Row() == r && Owner(r, c).Col() == c
  {
  }

  lemma PositionDeterminesThread(g: Gid, h: Gid)
    requires g.ty < TILE_SIZE && g.tx < TILE_SIZE && h.ty < TILE_SIZE && h.tx < TILE_SIZE
    requires g.Row() == h.Row() && g.Col() == h.Col()
    ensures g == h
  {
  }

  lemma IndexDeterminesThread<F, H>(p: Problem<F, H>, g: Gid, h: Gid)
    requires Launched(p.Launch(), g) && Launched(p.Launch(), h)
    requires OwnsCell(p.Launch(), g) && OwnsCell(p.Launch(), h)
    requires Index(p.Launch(), g) == Index(p.Launch(), h)
    ensures g == h
  {
    FlatIndexInjective(g.Row(), g.Col(), h.Row(), h.Col(), p.N);
    PositionDeterminesThread(g, h);
  }

  /** Distinct cells of C have distinct owners and flat indices. */
  lemma LaunchHasOneThreadPerCell<F, H>(p: Problem<F, H>)
    ensures OneThreadPerCell(p.Launch())
  {
    var l := p.Launch();
    forall g, h | Launched(l, g) && Launched(l, h) && OwnsCell(l, g) && OwnsCell(l, h) && Index(l, g) == Index(l, h)
      ensures g == h
    {
      IndexDeterminesThread(p, g, h);
    }
  }

  /** The flat buffer C as a sequence of its M * N elements. */
  ghost predicate IsBuffer<H>(C: map<nat, H>, size: nat) {
    forall i: nat :: i in C <==> i < size
  }

  ghost function Buffer<H>(C: map<nat, H>, size: nat): (r: seq<H>)
    requires IsBuffer(C, size)
    ensures |r| == size && forall i | 0 <= i < size :: r[i] == C[i]
  {
    seq(size, i requires 0 <= i < size => C[i])
  }

  /** A store never leaves the buffer. */
  lemma StoresStayInBounds<F, H>(l: Grid<F, H>, C0: map<nat, H>, s: State<F, H>, size: nat)
    requires OutputCorrect(l, C0, s.threads, s.C, s.stores) && IsBuffer(C0, size)
    requires forall g | OwnsCell(l, g) :: Index(l, g) < size
    ensures IsBuffer(s.C, size)
    ensures forall i: nat | i in s.stores :: i < size
  {
    forall i: nat | i in s.stores ensures i < size && i in s.C {
      assert s.stores[i] == 1;
      var g :| HasStored(l, s.threads, g, i);
      assert StoredBy(l, g, s.C, s.stores);
    }
  }

  lemma IndicesFitTheBuffer<F, H>(p: Problem<F, H>)
    ensures forall g | OwnsCell(p.Launch(), g) :: Index(p.Launch(), g) < p.M * p.N
  {
    forall g | OwnsCell(p.Launch(), g) ensures Index(p.Launch(), g) < p.M * p.N {
      FlatIndexInBounds(g.Row(), p.M, g.Col(), p.N);
    }
  }

  /** Main result: over any arithmetic and however the threads are interleaved, no store leaves C,
      and when all threads are done C is the tiled product and each of its cells was stored exactly
      once. It is the product exactly when the padding is invisible, as over lawful arithmetic. */
  lemma EveryScheduleComputesProduct<F, H(!new)>(
    p: Problem<F, H>, C0: map<nat, H>, s: State<F, H>, schedule: seq<Gid>)
    requires p.Valid() && IsBuffer(C0, p.M * p.N)
    requires Init(p.Launch(), C0, s) && Legal(p.Launch(), s, schedule)
    ensures var final := Execute(p.Launch(), s, schedule);
            && IsBuffer(final.C, p.M * p.N)
            && (AllDone(final) ==>
                  && p.IsTiledProduct(Buffer(final.C, p.M * p.N))
                  && (p.IsProduct(Buffer(final.C, p.M * p.N)) <==> p.PaddingIsInvisible())
                  && (Lawful(p.ar) ==> p.IsProduct(Buffer(final.C, p.M * p.N)))
                  && forall i: nat :: StoreCount(final.stores, i) == if i < p.M * p.N then 1 else 0)
    ensures var final := Execute(p.Launch(), s, schedule);
            AllDone(final) && p.PaddingIsInvisible() ==>
              forall r: nat, c: nat, sums: seq<F> |
                && r < p.M && c < p.N && |sums| == p.K + 1 && sums[0] == p.ar.zero
                && (forall k | 0 <= k < p.K ::
                      sums[k + 1] == p.ar.fma(sums[k], p.ar.widen(At(p.A, p.M, p.K, r, k)), p.ar.widen(At(p.B, p.K, p.N, k, c))))
                :: At(Buffer(final.C, p.M * p.N), p.M, p.N, r, c) == p.ar.narrow(sums[p.K])
  {
    var l := p.Launch();
    LaunchHasOneThreadPerCell(p);
    InitEstablishesInv(l, C0, s);
    InvOnEverySchedule(l, C0, s, schedule);
    var final := Execute(l, s, schedule);
    IndicesFitTheBuffer(p);
    StoresStayInBounds(l, C0, final, p.M * p.N);
    if AllDone(final) {
      DoneMeansStored(l, C0, final);
      StoredBufferIsProduct(p, final.C, final.stores);
      p.TiledProductExactly(Buffer(final.C, p.M * p.N));
      if p.PaddingIsInvisible() {
        ProductCells(p, Buffer(final.C, p.M * p.N));
      }
      if Lawful(p.ar) {
        LawfulPaddingIsInvisible(p);
      }
    }
  }

  /** Every cell's owner has stored it. */
  ghost predicate AllStored<F, H>(l: Grid<F, H>, C: map<nat, H>, stores: map<nat, nat>) {
    forall g | Launched(l, g) && OwnsCell(l, g) :: StoredBy(l, g, C, stores)
  }

  lemma DoneMeansStored<F, H>(l: Grid<F, H>, C0: map<nat, H>, s: State<F, H>)
    requires Inv(l, C0, s) && AllDone(s)
    ensures AllStored(l, s.C, s.stores)
  {
  }

  lemma StoredCellIsDot<F, H>(p: Problem<F, H>, C: map<nat, H>, stores: map<nat, nat>, r: nat, c: nat)
    requires p.Valid() && AllStored(p.Launch(), C, stores) && r < p.M && c < p.N
    ensures r * p.N + c in stores && r * p.N + c in C
    ensures C[r * p.N + c] == p.ar.narrow(p.TiledDot(r, c))
  {
    OwnerIsLaunched(p, r, c);
    TileLoopComputesTiledDot(p, r, c);
    assert StoredBy(p.Launch(), Owner(r, c), C, stores);
  }

  lemma StoredBufferIsProduct<F, H>(p: Problem<F, H>, C: map<nat, H>, stores: map<nat, nat>)
    requires p.Valid() && AllStored(p.Launch(), C, stores) && IsBuffer(C, p.M * p.N)
    ensures p.IsTiledProduct(Buffer(C, p.M * p.N))
    ensures forall i: nat | i < p.M * p.N :: i in stores
  {
    forall r: nat, c: nat | r < p.M && c < p.N
      ensures p.Cell(Buffer(C, p.M * p.N), r, c) == p.ar.narrow(p.TiledDot(r, c))
    {
      StoredCellIsDot(p, C, stores, r, c);
      FlatIndexInBounds(r, p.M, c, p.N);
    }
    forall i: nat | i < p.M * p.N ensures i in stores {
      var r, c := FlatIndexSurjective(i, p.M, p.N);
      StoredCellIsDot(p, C, stores, r, c);
    }
  }

  /** Main result: every complete schedule of the tiled kernel leaves in C exactly what any launch of
      the naive kernel leaves, cell for cell, if and only if the padding is invisible. Over lawful
      arithmetic it always is. */
  lemma EveryScheduleMatchesNaive<F, H(!new)>(
    p: Problem<F, H>, C0: map<nat, H>, s: State<F, H>, schedule: seq<Gid>, naive: seq<H>)
    requires p.Valid() && IsBuffer(C0, p.M * p.N) && p.IsProduct(naive)
    requires Init(p.Launch(), C0, s) && Legal(p.Launch(), s, schedule)
    requires AllDone(Execute(p.Launch(), s, schedule))
    ensures var final := Execute(p.Launch(), s, schedule);
            && IsBuffer(final.C, p.M * p.N)
            && (Buffer(final.C, p.M * p.N) == naive <==> p.PaddingIsInvisible())
            && (Lawful(p.ar) ==> Buffer(final.C, p.M * p.N) == naive)
  {
    hide Lawful, AllDone;
    EveryScheduleComputesProduct(p, C0, s, schedule);
    var final := Execute(p.Launch(), s, schedule);
    if p.IsProduct(Buffer(final.C, p.M * p.N)) {
      p.ProductIsUnique(Buffer(final.C, p.M * p.N), naive);
    }
  }

  /** Main result: every schedule is finite, all complete schedules have the same length, and a
      schedule that cannot be extended is complete. */
  lemma EveryScheduleTerminates<F, H>(p: Problem<F, H>, C0: map<nat, H>, s: State<F, H>, schedule: seq<Gid>)
    requires Init(p.Launch(), C0, s) && Legal(p.Launch(), s, schedule)
    ensures BoundedBy(p.Launch(), s, schedule, |s.threads| * (36 * p.Launch().tiles + 1))
  {
    LaunchHasOneThreadPerCell(p);
    ScheduleIsBounded(p.Launch(), C0, s, schedule);
    UniformWork(p.Launch().tiles, s.threads.Keys, s.threads, 36 * p.Launch().tiles + 1);
    assert |s.threads| == |s.threads.Keys|;
  }

  /** Main result: in no reachable state do two threads' next steps touch a common location
      that either writes. */
  lemma NoDataRace<F, H>(p: Problem<F, H>, C0: map<nat, H>, s: State<F, H>, schedule: seq<Gid>, g: Gid, h: Gid)
    requires Init(p.Launch(), C0, s) && Legal(p.Launch(), s, schedule)
    requires g != h && g in s.threads && h in s.threads
    ensures var now := Execute(p.Launch(), s, schedule);
            && g in now.threads && h in now.threads
            && Writes(p.Launch(), now, g) !! (Writes(p.Launch(), now, h) + Reads(p.Launch(), now, h))
  {
    LaunchHasOneThreadPerCell(p);
    ScheduleUsesItsLength(p.Launch(), s, schedule);
    InitEstablishesInv(p.Launch(), C0, s);
    InvOnEverySchedule(p.Launch(), C0, s, schedule);
    NextStepsDoNotRace(p.Launch(), Execute(p.Launch(), s, schedule), g, h);
  }
}
