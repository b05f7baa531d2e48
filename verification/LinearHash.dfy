/** The dynamically growing hash table (rts/Hash.c), after Larson: buckets in segments, one bucket
    split at a time, cells from a free list. */
module LinearHash {
  import opened Masks

  const HSEGSIZE := 1024
  const HDIRSIZE := 1024
  const HLOAD := 5
  const HCHUNK := 341

  /** A list cell, with the number that tells it from all others. */
  datatype Cell = Cell(id: nat, key: Key, data: nat)

  /** A bucket; malloc leaves the slots of a new segment unset. */
  datatype Slot = Unset | Chain(cells: seq<Cell>)

  /** The segments; one that is not allocated is empty. */
  type Directory = seq<seq<Slot>>

  datatype Pair = Pair(key: Key, data: nat)

  // ---------------------------------------------------------------- the directory

  /** The segments that exist hold the buckets below bcount, all of them set. */
  predicate DirOk(dir: Directory, bcount: nat) {
    && |dir| == HDIRSIZE && bcount <= HDIRSIZE * HSEGSIZE
    && (forall s :: 0 <= s < HDIRSIZE ==> |dir[s]| == if s * HSEGSIZE < bcount then HSEGSIZE else 0)
    && (forall b :: 0 <= b < bcount ==> SlotAt(dir, b).Chain?)
  }

  function SlotAt(dir: Directory, b: nat): Slot {
    if b / HSEGSIZE < |dir| && b % HSEGSIZE < |dir[b / HSEGSIZE]| then dir[b / HSEGSIZE][b % HSEGSIZE] else Unset
  }

  function Cells(dir: Directory, b: nat): seq<Cell> {
    match SlotAt(dir, b)
    case Unset => []
    case Chain(cells) => cells
  }

  function WithSlot(dir: Directory, b: nat, cells: seq<Cell>): Directory {
    if b / HSEGSIZE < |dir| && b % HSEGSIZE < |dir[b / HSEGSIZE]| then
      dir[b / HSEGSIZE := dir[b / HSEGSIZE][b % HSEGSIZE := Chain(cells)]]
    else dir
  }

  lemma SlotExists(dir: Directory, bcount: nat, b: nat)
    requires DirOk(dir, bcount) && b < bcount
    ensures b / HSEGSIZE < |dir| && |dir[b / HSEGSIZE]| == HSEGSIZE && b % HSEGSIZE < HSEGSIZE
  {
  }

  lemma WithSlotAt(dir: Directory, bcount: nat, b: nat, cells: seq<Cell>)
    requires DirOk(dir, bcount) && b < bcount
    ensures b / HSEGSIZE < |dir| && b % HSEGSIZE < |dir[b / HSEGSIZE]|
    ensures DirOk(WithSlot(dir, b, cells), bcount)
    ensures forall c: nat :: SlotAt(WithSlot(dir, b, cells), c) == if c == b then Chain(cells) else SlotAt(dir, c)
  {
    SlotExists(dir, bcount, b);
    var dir' := WithSlot(dir, b, cells);
    forall c: nat ensures SlotAt(dir', c) == if c == b then Chain(cells) else SlotAt(dir, c) {
      assert c / HSEGSIZE == b / HSEGSIZE && c % HSEGSIZE == b % HSEGSIZE ==> c == b;
    }
  }

  /** One bucket more: in the last segment, or the first of a new one. */
  function Grown(dir: Directory, bcount: nat): Directory {
    if bcount / HSEGSIZE < |dir| && bcount % HSEGSIZE == 0 then dir[bcount / HSEGSIZE := seq(HSEGSIZE, _ => Unset)] else dir
  }

  lemma GrownOk(dir: Directory, bcount: nat, cells: seq<Cell>)
    requires DirOk(dir, bcount) && bcount < HDIRSIZE * HSEGSIZE
    ensures bcount / HSEGSIZE < |dir| && bcount % HSEGSIZE < |Grown(dir, bcount)[bcount / HSEGSIZE]|
    ensures DirOk(WithSlot(Grown(dir, bcount), bcount, cells), bcount + 1)
    ensures forall c: nat :: c < bcount ==> SlotAt(WithSlot(Grown(dir, bcount), bcount, cells), c) == SlotAt(dir, c)
    ensures SlotAt(WithSlot(Grown(dir, bcount), bcount, cells), bcount) == Chain(cells)
  {
    var g := Grown(dir, bcount);
    var s0 := bcount / HSEGSIZE;
    assert |dir[s0]| == if bcount % HSEGSIZE == 0 then 0 else HSEGSIZE;
    assert |g[s0]| == HSEGSIZE;
    var dir' := WithSlot(g, bcount, cells);
    forall c: nat | c <= bcount ensures SlotAt(dir', c) == if c == bcount then Chain(cells) else SlotAt(dir, c) {
      assert c / HSEGSIZE == s0 && c % HSEGSIZE == bcount % HSEGSIZE ==> c == bcount;
      assert c / HSEGSIZE == s0 && bcount % HSEGSIZE == 0 ==> c >= bcount;
    }
    assert forall c :: 0 <= c < bcount + 1 ==> SlotAt(dir', c).Chain?;
  }

  // ---------------------------------------------------------------- what is in the table

  function PairsOf(cells: seq<Cell>): multiset<Pair> {
    if cells == [] then multiset{}
    else multiset{Pair(cells[0].key, cells[0].data)} + PairsOf(cells[1..])
  }

  lemma {:induction false} PairsOfTwo(a: seq<Cell>, b: seq<Cell>)
    ensures PairsOf(a + b) == PairsOf(a) + PairsOf(b)
  {
    if a == [] {
      assert a + b == b;
    } else {
      assert (a + b)[1..] == a[1..] + b;
      PairsOfTwo(a[1..], b);
    }
  }

  lemma {:induction false} PairHasCell(cells: seq<Cell>, p: Pair)
    ensures p in PairsOf(cells) <==> exists c :: c in cells && Pair(c.key, c.data) == p
  {
    if cells != [] {
      PairHasCell(cells[1..], p);
      assert forall c :: c in cells <==> c == cells[0] || c in cells[1..];
    }
  }

  /** Bucket b holds the pair as often as the table does if its key hashes to b, and else not. */
  predicate FiledAt(cells: seq<Cell>, max: nat, split: nat, b: nat, table: multiset<Pair>, p: Pair)
    requires max >= 1
  {
    && (p in table ==> KeyOk(p.key))
    && PairsOf(cells)[p] == if p in table && Bucket(Raw(p.key), max, split) == b then table[p] else 0
  }

  /** Every pair of the table is in the bucket that its key hashes to, and in no other. */
  ghost predicate Filed(dir: Directory, max: nat, split: nat, bcount: nat, table: multiset<Pair>)
    requires max >= 1
  {
    forall b, p: Pair :: 0 <= b < bcount ==> FiledAt(Cells(dir, b), max, split, b, table, p)
  }

  /** The directory after bucket `split` has been divided between itself and the new last bucket. */
  function Divided(dir: Directory, bcount: nat, split: nat, stay: seq<Cell>, move: seq<Cell>): Directory {
    WithSlot(WithSlot(Grown(dir, bcount), split, stay), bcount, move)
  }

  lemma SlotsCommute(dir: Directory, a: nat, b: nat, x: seq<Cell>, y: seq<Cell>)
    requires a / HSEGSIZE < |dir| && a % HSEGSIZE < |dir[a / HSEGSIZE]|
    requires b / HSEGSIZE < |dir| && b % HSEGSIZE < |dir[b / HSEGSIZE]| && a != b
    ensures b % HSEGSIZE < |WithSlot(dir, a, x)[b / HSEGSIZE]| && a % HSEGSIZE < |WithSlot(dir, b, y)[a / HSEGSIZE]|
    ensures WithSlot(WithSlot(dir, a, x), b, y) == WithSlot(WithSlot(dir, b, y), a, x)
  {
    var s, t := a / HSEGSIZE, b / HSEGSIZE;
    assert forall k :: 0 <= k < |dir| ==> |WithSlot(dir, a, x)[k]| == |dir[k]| == |WithSlot(dir, b, y)[k]|;
    var l, r := WithSlot(WithSlot(dir, a, x), b, y), WithSlot(WithSlot(dir, b, y), a, x);
    assert s == t ==> a % HSEGSIZE != b % HSEGSIZE;
    forall k | 0 <= k < |dir| ensures l[k] == r[k] {
    }
  }

  lemma DividedOk(dir: Directory, bcount: nat, split: nat, stay: seq<Cell>, move: seq<Cell>)
    requires DirOk(dir, bcount) && split < bcount < HDIRSIZE * HSEGSIZE
    ensures DirOk(Divided(dir, bcount, split, stay, move), bcount + 1)
    ensures forall c: nat :: c < bcount + 1 ==>
              Cells(Divided(dir, bcount, split, stay, move), c)
              == if c == split then stay else if c == bcount then move else Cells(dir, c)
  {
    var g := WithSlot(Grown(dir, bcount), bcount, move);
    GrownOk(dir, bcount, move);
    WithSlotAt(g, bcount + 1, split, stay);
    SlotExists(dir, bcount, split);
    SlotsCommute(Grown(dir, bcount), split, bcount, stay, move);
    forall c: nat | c < bcount + 1
      ensures Cells(Divided(dir, bcount, split, stay, move), c)
           == if c == split then stay else if c == bcount then move else Cells(dir, c)
    {
      assert c < bcount ==> SlotAt(g, c) == SlotAt(dir, c);
    }
  }

  /** What the loop of expand() makes of the chain. */
  ghost predicate Parted(chain: seq<Cell>, stay: seq<Cell>, move: seq<Cell>, max: nat, split: nat, bucket: nat)
    requires max >= 1
  {
    && PairsOf(stay) + PairsOf(move) == PairsOf(chain)
    && (forall c <- stay :: KeyOk(c.key) && Bucket(Raw(c.key), max, split) != bucket)
    && (forall c <- move :: KeyOk(c.key) && Bucket(Raw(c.key), max, split) == bucket)
  }

  function NextMax(max: nat, split: nat): (m: nat)
    ensures m >= max
  {
    if split + 1 == max then 2 * max else max
  }

  function NextSplit(max: nat, split: nat): nat {
    if split + 1 == max then 0 else split + 1
  }

  /** Splitting bucket `split` keeps every pair where the enlarged table looks for it. */
  lemma SplitKeepsFiled(dir: Directory, max: nat, split: nat, table: multiset<Pair>, stay: seq<Cell>, move: seq<Cell>)
    requires max >= 1 && split < max && DirOk(dir, max + split) && max + split < HDIRSIZE * HSEGSIZE
    requires Filed(dir, max, split, max + split, table)
    requires Parted(Cells(dir, split), stay, move, NextMax(max, split), NextSplit(max, split), max + split)
    ensures Filed(Divided(dir, max + split, split, stay, move), NextMax(max, split), NextSplit(max, split),
                  max + split + 1, table)
  {
    hide DirOk, Divided, Bucket, Cells, Parted, FiledAt, PairsOf, NextMax, NextSplit;
    var bcount := max + split;
    DividedOk(dir, bcount, split, stay, move);
    forall b, p: Pair | 0 <= b < bcount + 1
      ensures FiledAt(Cells(Divided(dir, bcount, split, stay, move), b), NextMax(max, split), NextSplit(max, split), b, table, p)
    {
      assert FiledAt(Cells(dir, split), max, split, split, table, p);
      if b == split || b == bcount {
        SplitKeepsPair(Cells(dir, split), max, split, table, stay, move, p);
      } else {
        assert FiledAt(Cells(dir, b), max, split, b, table, p);
        OtherBucketsStay(Cells(dir, b), max, split, b, table, p);
      }
    }
  }

  lemma OtherBucketsStay(cells: seq<Cell>, max: nat, split: nat, b: nat, table: multiset<Pair>, p: Pair)
    requires max >= 1 && split < max && b < max + split && b != split && FiledAt(cells, max, split, b, table, p)
    ensures FiledAt(cells, NextMax(max, split), NextSplit(max, split), b, table, p)
  {
    hide Bucket, PairsOf;
    if p in table {
      GrowthMovesOneBucket(Raw(p.key), max, split);
    }
  }

  /** The two buckets concerned. */
  lemma SplitKeepsPair(chain: seq<Cell>, max: nat, split: nat, table: multiset<Pair>,
                       stay: seq<Cell>, move: seq<Cell>, p: Pair)
    requires max >= 1 && split < max && FiledAt(chain, max, split, split, table, p)
    requires Parted(chain, stay, move, NextMax(max, split), NextSplit(max, split), max + split)
    ensures var max', split' := NextMax(max, split), NextSplit(max, split);
      FiledAt(stay, max', split', split, table, p) && FiledAt(move, max', split', max + split, table, p)
  {
    hide PairsOf, Bucket;
    PairHasCell(stay, p);
    PairHasCell(move, p);
    assert PairsOf(chain)[p] == PairsOf(stay)[p] + PairsOf(move)[p];
    if p in table {
      GrowthMovesOneBucket(Raw(p.key), max, split);
    }
  }

  // ---------------------------------------------------------------- where the cells are

  const FREE := -1
  const IN_HAND := -2

  /** Where a cell is: in a bucket, on the free list, or with the operation under way. */
  type Homes = seq<int>

  ghost predicate Housed(cells: seq<Cell>, b: int, home: Homes) {
    && (forall i, j :: 0 <= i < j < |cells| ==> cells[i].id != cells[j].id)
    && (forall c <- cells :: c.id < |home| && home[c.id] == b)
    && (forall id :: 0 <= id < |home| && home[id] == b ==> exists c :: c in cells && c.id == id)
  }

  ghost predicate FreeOk(free: seq<nat>, home: Homes) {
    && (forall i, j :: 0 <= i < j < |free| ==> free[i] != free[j])
    && (forall id <- free :: id < |home| && home[id] == FREE)
    && (forall id :: 0 <= id < |home| && home[id] == FREE ==> id in free)
  }

  /** The chains and the free list share out the cells of all chunks among them. */
  ghost predicate Stored(dir: Directory, bcount: nat, free: seq<nat>, home: Homes) {
    && (forall b :: 0 <= b < bcount ==> Housed(Cells(dir, b), b, home))
    && FreeOk(free, home)
    && (forall id :: 0 <= id < |home| ==> IN_HAND <= home[id] < bcount)
  }

  lemma {:induction false} NewChunk(home: Homes, free: seq<nat>)
    requires FreeOk(free, home) && free == []
    ensures var id := |home|;
      var home' := home + [IN_HAND] + seq(HCHUNK - 1, _ => FREE);
      FreeOk(seq(HCHUNK - 1, i requires i >= 0 => id + 1 + i), home')
  {
    var home' := home + [IN_HAND] + seq(HCHUNK - 1, _ => FREE);
    var free' := seq(HCHUNK - 1, i requires i >= 0 => |home| + 1 + i);
    forall id | 0 <= id < |home'| && home'[id] == FREE ensures id in free' {
      assert id > |home|;
      assert free'[id - |home| - 1] == id;
    }
  }

  lemma FreeTaken(free: seq<nat>, home: Homes)
    requires FreeOk(free, home) && free != []
    ensures free[0] in free && free[0] < |home| && FreeOk(free[1..], home[free[0] := IN_HAND])
  {
    assert free[0] in free;
    forall id | id in free[1..] ensures id < |home| && home[free[0] := IN_HAND][id] == FREE {
      var i :| 0 <= i < |free| - 1 && free[1..][i] == id;
      assert free[i + 1] == id && id in free;
    }
    forall id | 0 <= id < |home| && id != free[0] && home[id] == FREE ensures id in free[1..] {
      var i :| 0 <= i < |free| && free[i] == id;
      assert free[1..][i - 1] == id;
    }
  }

  lemma HousedElsewhere(cells: seq<Cell>, b: int, home: Homes, home': Homes)
    requires Housed(cells, b, home) && |home| <= |home'|
    requires forall id :: 0 <= id < |home| && (home[id] == b || home'[id] == b) ==> home'[id] == home[id]
    requires forall id :: |home| <= id < |home'| ==> home'[id] != b
    ensures Housed(cells, b, home')
  {
  }

  lemma HousedOneMore(cells: seq<Cell>, b: int, home: Homes, c: Cell)
    requires Housed(cells, b, home) && c.id < |home| && home[c.id] != b
    ensures Housed([c] + cells, b, home[c.id := b])
  {
    var home' := home[c.id := b];
    forall id | 0 <= id < |home'| && home'[id] == b ensures exists d :: d in [c] + cells && d.id == id {
      if id == c.id {
        assert c in [c] + cells;
      } else {
        var d :| d in cells && d.id == id;
        assert d in [c] + cells;
      }
    }
  }

  lemma HousedOneLess(cells: seq<Cell>, b: int, home: Homes, i: nat)
    requires Housed(cells, b, home) && i < |cells| && b != IN_HAND
    ensures Housed(cells[..i] + cells[i + 1..], b, home[cells[i].id := IN_HAND])
  {
    var home' := home[cells[i].id := IN_HAND];
    var less := cells[..i] + cells[i + 1..];
    forall id | 0 <= id < |home'| && home'[id] == b ensures exists d :: d in less && d.id == id {
      var d :| d in cells && d.id == id;
      var k :| 0 <= k < |cells| && cells[k] == d;
      assert less[if k < i then k else k - 1] == d;
    }
  }

  lemma {:induction false} PairsOfOneLess(cells: seq<Cell>, i: nat)
    requires i < |cells|
    ensures PairsOf(cells) == PairsOf(cells[..i] + cells[i + 1..]) + multiset{Pair(cells[i].key, cells[i].data)}
  {
    assert cells == cells[..i] + ([cells[i]] + cells[i + 1..]);
    PairsOfTwo(cells[..i], [cells[i]] + cells[i + 1..]);
    PairsOfTwo([cells[i]], cells[i + 1..]);
    PairsOfTwo(cells[..i], cells[i + 1..]);
    assert [cells[i]][1..] == [];
  }

  // ---------------------------------------------------------------- the sizes

  /** max is a power of two, the masks go with it, and the last bucket number fits the directory. */
  ghost predicate Sized(n: nat, max: nat, split: nat, mask1: nat, mask2: nat, bcount: nat) {
    && 10 <= n <= 20 && max == Pow2(n) && mask1 == max - 1 && mask2 == 2 * max - 1
    && split < max && bcount == max + split && bcount <= HDIRSIZE * HSEGSIZE
  }

  lemma Pow2Of10()
    ensures Pow2(10) == HSEGSIZE
  {
    assert Pow2(5) == 32;
    Pow2Adds(5, 5);
  }

  lemma Pow2Of20()
    ensures Pow2(20) == HDIRSIZE * HSEGSIZE
  {
    Pow2Of10();
    Pow2Adds(10, 10);
  }

  lemma SizesGrow(n: nat, max: nat, split: nat, mask1: nat, mask2: nat, bcount: nat)
    requires Sized(n, max, split, mask1, mask2, bcount) && bcount < HDIRSIZE * HSEGSIZE
    ensures n < 20
    ensures var wrap := split + 1 == max;
      Sized(if wrap then n + 1 else n, NextMax(max, split), NextSplit(max, split), if wrap then mask2 else mask1,
            if wrap then 2 * mask2 + 1 else mask2, bcount + 1)
  {
    Pow2Of20();
    hide Pow2;
    assert n != 20;
    DoublePow2(n);
  }

  lemma DoublePow2(n: nat)
    ensures Pow2(n + 1) == 2 * Pow2(n)
  {
  }

  /** The cells of bucket b, all taken in hand. */
  function TakenUp(home: Homes, b: int): (h: Homes)
    ensures |h| == |home|
  {
    seq(|home|, i requires 0 <= i < |home| => if home[i] == b then IN_HAND else home[i])
  }

  /** The first k cells of the chain have been put into one of the two buckets again. */
  ghost predicate Placing(chain: seq<Cell>, k: nat, stay: seq<Cell>, move: seq<Cell>, b: int, bucket: int,
                          home: Homes, h: Homes)
  {
    && k <= |chain| && |h| == |home| && Housed(stay, b, h) && Housed(move, bucket, h)
    && (forall i :: k <= i < |chain| ==> chain[i].id < |h| && h[chain[i].id] == IN_HAND)
    && (forall id :: 0 <= id < |home| && home[id] != b ==> h[id] == home[id])
    && (forall id :: 0 <= id < |home| && home[id] == b ==> h[id] == b || h[id] == bucket || h[id] == IN_HAND)
    && (forall id :: 0 <= id < |home| && home[id] == b && h[id] == IN_HAND ==>
          exists i :: k <= i < |chain| && chain[i].id == id)
  }

  lemma PlacingStarts(chain: seq<Cell>, b: nat, bucket: nat, home: Homes)
    requires Housed(chain, b, home) && b != bucket
    requires forall id :: 0 <= id < |home| ==> home[id] != bucket
    ensures Placing(chain, 0, [], [], b, bucket, home, TakenUp(home, b))
  {
    forall id | 0 <= id < |home| && home[id] == b ensures exists i :: 0 <= i < |chain| && chain[i].id == id {
      var c :| c in chain && c.id == id;
      var i :| 0 <= i < |chain| && chain[i] == c;
    }
  }

  lemma PlacingStep(chain: seq<Cell>, k: nat, stay: seq<Cell>, move: seq<Cell>, b: nat, bucket: nat,
                    home: Homes, h: Homes, moves: bool)
    requires Placing(chain, k, stay, move, b, bucket, home, h) && k < |chain| && b != bucket
    requires forall i, j :: 0 <= i < j < |chain| ==> chain[i].id != chain[j].id
    requires forall c <- chain :: c.id < |home| && home[c.id] == b
    ensures Placing(chain, k + 1, if moves then stay else [chain[k]] + stay, if moves then [chain[k]] + move else move,
                    b, bucket, home, h[chain[k].id := if moves then bucket else b])
  {
    var c := chain[k];
    var h' := h[c.id := if moves then bucket else b];
    if moves {
      HousedOneMore(move, bucket, h, c);
      HousedElsewhere(stay, b, h, h');
    } else {
      HousedOneMore(stay, b, h, c);
      HousedElsewhere(move, bucket, h, h');
    }
    hide Housed;
    assert home[c.id] == b;
    forall id | 0 <= id < |home| && home[id] == b && h'[id] == IN_HAND
      ensures exists i :: k + 1 <= i < |chain| && chain[i].id == id
    {
      var i :| k <= i < |chain| && chain[i].id == id;
      assert i != k;
    }
  }

  /** What the storage looks like after bucket b was replaced and nothing else was touched. */
  lemma StoredAfter(dir: Directory, bcount: nat, free: seq<nat>, home: Homes,
                    b: nat, cells: seq<Cell>, free': seq<nat>, home': Homes)
    requires DirOk(dir, bcount) && b < bcount && Stored(dir, bcount, free, home)
    requires |home| <= |home'| && Housed(cells, b, home') && FreeOk(free', home')
    requires forall id :: 0 <= id < |home| && home[id] >= 0 && home[id] != b ==> home'[id] == home[id]
    requires forall id :: 0 <= id < |home'| && !(id < |home| && home'[id] == home[id]) ==>
               home'[id] == FREE || home'[id] == IN_HAND || home'[id] == b
    ensures b / HSEGSIZE < |dir| && b % HSEGSIZE < |dir[b / HSEGSIZE]|
    ensures Stored(WithSlot(dir, b, cells), bcount, free', home')
  {
    WithSlotAt(dir, bcount, b, cells);
    hide DirOk, FreeOk;
    var dir' := WithSlot(dir, b, cells);
    forall c | 0 <= c < bcount ensures Housed(Cells(dir', c), c, home') {
      assert SlotAt(dir', c) == if c == b then Chain(cells) else SlotAt(dir, c);
      if c != b {
        assert Housed(Cells(dir, c), c, home);
        HousedElsewhere(Cells(dir, c), c, home, home');
      }
    }
  }

  /** The storage after a bucket was split. */
  lemma StoredDivided(dir: Directory, bcount: nat, free: seq<nat>, home: Homes, split: nat,
                      stay: seq<Cell>, move: seq<Cell>, h: Homes)
    requires DirOk(dir, bcount) && split < bcount < HDIRSIZE * HSEGSIZE && Stored(dir, bcount, free, home)
    requires Placing(Cells(dir, split), |Cells(dir, split)|, stay, move, split, bcount, home, h)
    ensures Stored(Divided(dir, bcount, split, stay, move), bcount + 1, free, h)
    ensures (forall id :: 0 <= id < |home| ==> home[id] != IN_HAND) ==> (forall id :: 0 <= id < |h| ==> h[id] != IN_HAND)
  {
    DividedOk(dir, bcount, split, stay, move);
    hide DirOk, Divided;
    var dir' := Divided(dir, bcount, split, stay, move);
    forall c: nat | 0 <= c < bcount + 1 ensures Housed(Cells(dir', c), c, h) {
      if c != split && c != bcount {
        assert Housed(Cells(dir, c), c, home);
        HousedElsewhere(Cells(dir, c), c, home, h);
      }
    }
  }

  lemma PartedStep(chain: seq<Cell>, k: nat, stay: seq<Cell>, move: seq<Cell>, max: nat, split: nat, bucket: nat)
    requires max >= 1 && k < |chain| && KeyOk(chain[k].key)
    requires Parted(chain[..k], stay, move, max, split, bucket)
    ensures var moves := Bucket(Raw(chain[k].key), max, split) == bucket;
      Parted(chain[..k + 1], if moves then stay else [chain[k]] + stay, if moves then [chain[k]] + move else move,
             max, split, bucket)
  {
    hide Bucket, PairsOf, Raw;
    var c := chain[k];
    assert chain[..k + 1] == chain[..k] + [c];
    PairsOfTwo(chain[..k], [c]);
    PairsOfTwo([c], stay);
    PairsOfTwo([c], move);
  }
}
