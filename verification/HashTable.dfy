/** The operations of the hash table (rts/Hash.c). */
module HashTable {
  import opened Masks
  import opened LinearHash

  /** The chunks' first cells, newest chunk first: no two chunks overlap. */
  ghost predicate ChunksOk(chunks: seq<nat>) {
    forall i :: 0 <= i < |chunks| ==> chunks[i] == (|chunks| - 1 - i) * HCHUNK
  }

  predicate InChunk(chunk: nat, id: nat) {
    chunk <= id < chunk + HCHUNK
  }

  /** The cell lies in one of the chunks, and in one only. */
  ghost predicate InOneChunk(chunks: seq<nat>, id: nat) {
    exists i :: 0 <= i < |chunks| && InChunk(chunks[i], id)
      && forall j :: 0 <= j < |chunks| && j != i ==> !InChunk(chunks[j], id)
  }

  lemma CellsAreInChunks(chunks: seq<nat>, id: nat)
    requires ChunksOk(chunks) && id < |chunks| * HCHUNK
    ensures InOneChunk(chunks, id)
  {
    var i := |chunks| - 1 - id / HCHUNK;
    assert 0 <= i < |chunks|;
    assert InChunk(chunks[i], id);
    forall j | 0 <= j < |chunks| && j != i ensures !InChunk(chunks[j], id) {
      assert chunks[j] == (|chunks| - 1 - j) * HCHUNK;
      if j < i {
        assert chunks[j] >= chunks[i] + HCHUNK;
      } else {
        assert chunks[j] + HCHUNK <= chunks[i];
      }
    }
  }

  class Table {
    var split: nat
    var max: nat
    var mask1: nat
    var mask2: nat
    var kcount: nat
    var bcount: nat
    var dir: Directory
    var freeList: seq<nat>
    /** The first cells of the chunks, newest chunk first. */
    var chunks: seq<nat>
    /** max is 2^n. */
    ghost var n: nat
    ghost var home: Homes
    /** What the table holds. */
    ghost var table: multiset<Pair>

    ghost predicate Indexed()
      reads this
    {
      && Sized(n, max, split, mask1, mask2, bcount) && DirOk(dir, bcount)
      && Filed(dir, max, split, bcount, table)
    }

    ghost predicate Housekeeping()
      reads this
    {
      Stored(dir, bcount, freeList, home) && |home| == |chunks| * HCHUNK && ChunksOk(chunks)
    }

    /** Between two operations no cell is in hand, kcount cells are in use, and on average there are
        fewer than HLOAD keys to a bucket, until the directory is full. */
    ghost predicate Valid()
      reads this
    {
      && Indexed() && Housekeeping()
      && NoneInHand(home)
      && kcount == |table| && kcount + |freeList| == |home|
      && (kcount < HLOAD * bcount || bcount == HDIRSIZE * HSEGSIZE)
    }

    /** hashWord() and hashStr() */
    method Hash(key: Key) returns (bucket: nat)
      requires Sized(n, max, split, mask1, mask2, bcount) && KeyOk(key)
      ensures bucket == Bucket(Raw(key), max, split) && bucket < bcount
    {
      match key {
        case Word(w) =>
          bucket := HashWord(w);
        case Str(chars, at) =>
          bucket := HashStr(chars);
      }
    }

    method HashWord(w: nat) returns (bucket: nat)
      requires Sized(n, max, split, mask1, mask2, bcount)
      ensures bucket == Bucket(w / 8, max, split) && bucket < bcount
    {
      hide And, Pow2;
      BucketInRange(w / 8, max, split);
      var k := w / 8;
      MaskIsMod(k, n);
      MaskIsMod(k, n + 1);
      DoublePow2(n);
      bucket := And(k, mask1);
      if bucket < split {
        bucket := And(k, mask2);
      }
    }

    method HashStr(chars: seq<int>) returns (bucket: nat)
      requires Sized(n, max, split, mask1, mask2, bcount) && Chars(chars)
      ensures bucket == Bucket(StrHash(chars), max, split) && bucket < bcount
    {
      hide And, Pow2;
      BucketInRange(StrHash(chars), max, split);
      var h := StrLoop(chars);
      MaskedHash(h, n);
      MaskedHash(h, n + 1);
      DoublePow2(n);
      bucket := And(Bits(h), mask1);
      if bucket < split {
        bucket := And(Bits(h), mask2);
      }
    }

    method StrLoop(chars: seq<int>) returns (h: int)
      requires Chars(chars)
      ensures h == StrHash(chars)
    {
      h := 0;
      for i := 0 to |chars|
        invariant h == StrHash(chars[..i])
      {
        assert chars[..i + 1][..i] == chars[..i];
        h := h * 128;
        h := h + chars[i];
        h := CMod(h, HASH_PRIME);
      }
      assert chars[..|chars|] == chars;
    }

    /** The loop of expand() over the chain of the bucket being split. */
    method Part(chain: seq<Cell>, b: nat, newBucket: nat) returns (stay: seq<Cell>, move: seq<Cell>, ghost h: Homes)
      requires max >= 1 && Sized(n, max, split, mask1, mask2, bcount) && b != newBucket && Housed(chain, b, home)
      requires forall c <- chain :: KeyOk(c.key)
      requires forall id :: 0 <= id < |home| ==> home[id] != newBucket
      ensures Placing(chain, |chain|, stay, move, b, newBucket, home, h)
      ensures Parted(chain, stay, move, max, split, newBucket)
    {
      hide Placing, Parted, Housed, Sized, Bucket, Raw, TakenUp;
      stay, move := [], [];
      h := TakenUp(home, b);
      PartingStarts(chain, b, newBucket, home, max, split);
      var k := 0;
      while k < |chain|
        invariant k <= |chain|
        invariant Placing(chain, k, stay, move, b, newBucket, home, h)
        invariant Parted(chain[..k], stay, move, max, split, newBucket)
      {
        var c := chain[k];
        assert c in chain;
        PartingStep(chain, k, stay, move, b, newBucket, home, h, max, split);
        var bucket := Hash(c.key);
        h := h[c.id := if bucket == newBucket then newBucket else b];
        if bucket == newBucket {
          move := [c] + move;
        } else {
          stay := [c] + stay;
        }
        k := k + 1;
      }
      assert chain[..k] == chain;
    }

    /** The part of expand() on the sizes: the next bucket to split, and when all are split, twice
        as many. */
    method GrowSizes()
      requires Sized(n, max, split, mask1, mask2, bcount) && bcount < HDIRSIZE * HSEGSIZE
      modifies this
      ensures Sized(n, max, split, mask1, mask2, bcount)
      ensures max == NextMax(old(max), old(split)) && split == NextSplit(old(max), old(split)) && bcount == old(bcount) + 1
      ensures dir == old(dir) && freeList == old(freeList) && chunks == old(chunks) && kcount == old(kcount)
      ensures home == old(home) && table == old(table)
    {
      SizesGrow(n, max, split, mask1, mask2, bcount);
      hide Sized;
      split := split + 1;
      if split == max {
        split := 0;
        max := max * 2;
        mask1 := mask2;
        mask2 := mask2 * 2 + 1;
        n := n + 1;
      }
      bcount := bcount + 1;
    }

    /** expand(): one more bucket, unless the directory is full. */
    method Expand()
      requires Indexed() && Housekeeping()
      modifies this
      ensures Indexed() && Housekeeping()
      ensures table == old(table) && freeList == old(freeList) && chunks == old(chunks) && kcount == old(kcount)
      ensures bcount == if old(bcount) < HDIRSIZE * HSEGSIZE then old(bcount) + 1 else old(bcount)
      ensures |home| == |old(home)|
      ensures NoneInHand(old(home)) ==> NoneInHand(home)
    {
      hide Filed, Stored, Divided, Placing, Parted, Sized, DirOk, Grown, Cells, Housed, NextMax, NextSplit;
      SizedCount(n, max, split, mask1, mask2, bcount);
      if split + max >= HDIRSIZE * HSEGSIZE {
        return;
      }
      var oldBucket, newBucket := split, max + split;
      var oldSegment, oldIndex := split / HSEGSIZE, split % HSEGSIZE;
      var newSegment, newIndex := newBucket / HSEGSIZE, newBucket % HSEGSIZE;
      ghost var d, max0, home0 := dir, max, home;
      BeforeSplit(d, max, split, newBucket, table, freeList, home);
      SlotOfSplit(d, newBucket, oldBucket);
      if newIndex == 0 {
        dir := dir[newSegment := seq(HSEGSIZE, _ => Unset)];
      }
      GrowSizes();
      SizedCount(n, max, split, mask1, mask2, bcount);
      var stay, move;
      ghost var h;
      stay, move, h := Part(dir[oldSegment][oldIndex].cells, oldBucket, newBucket);
      AfterSplit(d, max0, oldBucket, table, freeList, home0, stay, move, h);
      CodeDivides(d, newBucket, oldBucket, stay, move);
      home := h;
      dir := dir[oldSegment := dir[oldSegment][oldIndex := Chain(stay)]];
      dir := dir[newSegment := dir[newSegment][newIndex := Chain(move)]];
    }

    /** lookupHashTable(): the data of some pair with the key, or NULL. A word stands for itself, a
        string for all strings with the same characters, wherever they are in memory. */
    method Lookup(key: Key) returns (data: nat)
      requires Valid() && KeyOk(key)
      ensures key.Word? ==>
        || (exists p :: p in table && p.key == key && p.data == data)
        || (data == 0 && forall p :: p in table ==> p.key != key)
      ensures key.Str? ==>
        || (exists p :: p in table && p.key.Str? && p.key.chars == key.chars && p.data == data)
        || (data == 0 && forall p :: p in table && p.key.Str? ==> p.key.chars != key.chars)
    {
      var bucket := Hash(key);
      ChainOfKey(dir, max, split, bcount, table, key);
      SlotExists(dir, bcount, bucket);
      hide Filed, Stored, DirOk, Sized, Bucket;
      var chain := dir[bucket / HSEGSIZE][bucket % HSEGSIZE].cells;
      for k := 0 to |chain|
        invariant forall c <- chain[..k] :: !Same(c.key, key)
      {
        var c := chain[k];
        assert c in chain;
        if Same(c.key, key) {
          assert Pair(c.key, c.data) in table;
          return c.data;
        }
        assert chain[..k + 1] == chain[..k] + [c];
      }
      assert chain[..|chain|] == chain;
      data := 0;
    }

    /** allocHashList(): a cell from the free list, or the first of a new chunk. */
    method AllocHashList() returns (id: nat)
      requires Indexed() && Housekeeping()
      modifies this`freeList, this`chunks, this`home
      ensures Indexed() && Housekeeping()
      ensures id < |home| && home[id] == IN_HAND
      ensures |home| - |freeList| == |old(home)| - |old(freeList)| + 1
      ensures NoneInHand(old(home)) ==> NoneInHand(home[id := FREE])
    {
      hide Filed, DirOk, Sized, Housed;
      ghost var f, h := freeList, home;
      if freeList != [] {
        id := freeList[0];
        assert id in f && id < |home|;
        FreeTaken(freeList, home);
        freeList := freeList[1..];
        home := home[id := IN_HAND];
      } else {
        id := |chunks| * HCHUNK;
        chunks := [id] + chunks;
        NewChunk(home, freeList);
        freeList := seq(HCHUNK - 1, i requires i >= 0 => id + 1 + i);
        home := home + [IN_HAND] + seq(HCHUNK - 1, _ => FREE);
      }
      forall b | 0 <= b < bcount ensures Housed(Cells(dir, b), b, home) {
        HousedElsewhere(Cells(dir, b), b, h, home);
      }
    }

    /** freeHashList(): a cell goes back to the free list. */
    method FreeHashList(id: nat)
      requires Indexed() && Housekeeping() && id < |home| && home[id] == IN_HAND
      modifies this`freeList, this`home
      ensures Indexed() && Housekeeping()
      ensures home == old(home)[id := FREE] && |freeList| == |old(freeList)| + 1
    {
      hide Filed, DirOk, Sized;
      ghost var h := home;
      freeList := [id] + freeList;
      home := home[id := FREE];
      forall b | 0 <= b < bcount ensures Housed(Cells(dir, b), b, home) {
        HousedElsewhere(Cells(dir, b), b, h, home);
      }
    }

    /** insertHashTable(): one pair more, also if the key is there already. */
    method Insert(key: Key, data: nat)
      requires Valid() && KeyOk(key)
      modifies this
      ensures Valid() && table == old(table) + multiset{Pair(key, data)}
    {
      hide Filed, Stored, DirOk, Sized, Bucket, Raw, Same;
      SizedCount(n, max, split, mask1, mask2, bcount);
      kcount := kcount + 1;
      if kcount >= HLOAD * bcount {
        Expand();
      }
      var bucket := Hash(key);
      var id := AllocHashList();
      ghost var h := home;
      Link(bucket, Cell(id, key, data));
      assert forall j :: 0 <= j < |home| && j != id ==> home[j] == h[id := FREE][j];
    }

    /** A cell in hand is put at the head of a chain. */
    method Link(bucket: nat, c: Cell)
      requires Indexed() && Housekeeping() && KeyOk(c.key) && bucket < bcount
      requires bucket == Bucket(Raw(c.key), max, split) && c.id < |home| && home[c.id] == IN_HAND
      modifies this`dir, this`home, this`table
      ensures Indexed() && Housekeeping()
      ensures table == old(table) + multiset{Pair(c.key, c.data)} && home == old(home)[c.id := bucket]
    {
      hide Filed, Stored, Sized, Bucket, DirOk, SlotAt, WithSlot, Cells;
      SizedCount(n, max, split, mask1, mask2, bcount);
      InsertKeeps(dir, max, split, bcount, table, freeList, home, c);
      CodeSlot(dir, bcount, bucket, [c] + Cells(dir, bucket));
      var segment, index := bucket / HSEGSIZE, bucket % HSEGSIZE;
      dir := dir[segment := dir[segment][index := Chain([c] + dir[segment][index].cells)]];
      home := home[c.id := bucket];
      table := table + multiset{Pair(c.key, c.data)};
    }

    /** Cell k of a chain is taken out of it. */
    method Unlink(bucket: nat, k: nat) returns (c: Cell)
      requires Indexed() && Housekeeping() && bucket < bcount && k < |Cells(dir, bucket)|
      modifies this`dir, this`home, this`table
      ensures Indexed() && Housekeeping()
      ensures c == Cells(old(dir), bucket)[k] && c.id < |old(home)| && home == old(home)[c.id := IN_HAND]
      ensures Pair(c.key, c.data) in old(table) && table == old(table) - multiset{Pair(c.key, c.data)}
    {
      hide Filed, Stored, Sized, Bucket, DirOk, SlotAt, WithSlot, Cells;
      SizedCount(n, max, split, mask1, mask2, bcount);
      RemoveKeeps(dir, max, split, bcount, table, freeList, home, bucket, k);
      CodeSlot(dir, bcount, bucket, Cells(dir, bucket)[..k] + Cells(dir, bucket)[k + 1..]);
      var segment, index := bucket / HSEGSIZE, bucket % HSEGSIZE;
      var chain := dir[segment][index].cells;
      c := chain[k];
      dir := dir[segment := dir[segment][index := Chain(chain[..k] + chain[k + 1..])]];
      home := home[c.id := IN_HAND];
      table := table - multiset{Pair(c.key, c.data)};
    }

    /** The loop of removeHashTable(): the first matching cell of a chain, or its length. */
    static method Search(chain: seq<Cell>, key: Key, data: nat) returns (k: nat)
      ensures k <= |chain|
      ensures k < |chain| ==> Same(chain[k].key, key) && (data == 0 || chain[k].data == data)
      ensures forall i :: 0 <= i < k ==> !(Same(chain[i].key, key) && (data == 0 || chain[i].data == data))
    {
      hide Same;
      k := 0;
      while k < |chain| && !(Same(chain[k].key, key) && (data == 0 || chain[k].data == data))
        invariant k <= |chain|
        invariant forall i :: 0 <= i < k ==> !(Same(chain[i].key, key) && (data == 0 || chain[i].data == data))
      {
        k := k + 1;
      }
    }

    /** removeHashTable(): a pair with the key, and with the data unless that is NULL, goes; its data
        are returned, NULL if there is none. */
    method Remove(key: Key, data: nat) returns (r: nat)
      requires Valid() && KeyOk(key)
      modifies this
      ensures Valid()
      ensures key.Word? ==>
        || (exists p :: p in old(table) && p.key == key && (data == 0 || p.data == data)
              && r == p.data && table == old(table) - multiset{p})
        || (r == 0 && table == old(table) && forall p :: p in table && p.key == key ==> data != 0 && p.data != data)
      ensures key.Str? ==>
        || (exists p :: p in old(table) && p.key.Str? && p.key.chars == key.chars && (data == 0 || p.data == data)
              && r == p.data && table == old(table) - multiset{p})
        || (r == 0 && table == old(table)
              && forall p :: p in table && p.key.Str? && p.key.chars == key.chars ==> data != 0 && p.data != data)
    {
      r := RemoveSame(key, data);
    }

    /** Its search goes by the table's comparison function. */
    method RemoveSame(key: Key, data: nat) returns (r: nat)
      requires Valid() && KeyOk(key)
      modifies this
      ensures Valid()
      ensures (exists p :: p in old(table) && Same(p.key, key) && (data == 0 || p.data == data)
                        && r == p.data && table == old(table) - multiset{p})
           || (r == 0 && table == old(table) && forall p :: p in table ==> !(Same(p.key, key) && (data == 0 || p.data == data)))
    {
      hide Filed, Stored, Sized, Bucket, Raw, PairsOf, FiledAt;
      var bucket := Hash(key);
      ChainOfKey(dir, max, split, bcount, table, key);
      SlotExists(dir, bcount, bucket);
      hide DirOk, Same;
      var chain := dir[bucket / HSEGSIZE][bucket % HSEGSIZE].cells;
      var k := Search(chain, key, data);
      if k == |chain| {
        return 0;
      }
      var c := Unlink(bucket, k);
      FreeHashList(c.id);
      kcount := kcount - 1;
      r := c.data;
    }

    /** allocHashTable_(): one segment of empty buckets. */
    constructor ()
      ensures Valid() && table == multiset{} && bcount == HSEGSIZE && home == []
    {
      split, max, mask1, mask2 := 0, HSEGSIZE, HSEGSIZE - 1, 2 * HSEGSIZE - 1;
      kcount, bcount := 0, HSEGSIZE;
      dir := FirstDirectory();
      freeList, chunks := [], [];
      n, home, table := 10, [], multiset{};
      new;
      Pow2Of10();
      FirstOk();
    }

    /** The loop of freeHashTable() over one chain. */
    static method FreeChain(chain: seq<Cell>, before: seq<Pair>) returns (visited: seq<Pair>)
      ensures multiset(visited) == multiset(before) + PairsOf(chain)
    {
      hide PairsOf;
      visited := before;
      NoPairs();
      for k := 0 to |chain|
        invariant multiset(visited) == multiset(before) + PairsOf(chain[..k])
      {
        PairsOfOneMore(chain, k);
        visited := visited + [Pair(chain[k].key, chain[k].data)];
      }
      assert chain[..|chain|] == chain;
    }

    /** The loop of freeHashTable() over the buckets of one segment, from the given one down. */
    method FreeSegment(segment: nat, last: nat, before: seq<Pair>) returns (visited: seq<Pair>)
      requires DirOk(dir, bcount) && last < HSEGSIZE && segment * HSEGSIZE + last < bcount
      requires VisitedFrom(dir, bcount, segment * HSEGSIZE + last + 1, before)
      ensures VisitedFrom(dir, bcount, segment * HSEGSIZE, visited)
    {
      hide DirOk, VisitedFrom, PairsOf, Cells, SlotAt;
      visited := before;
      var index: int := last;
      while index >= 0
        invariant -1 <= index <= last
        invariant VisitedFrom(dir, bcount, segment * HSEGSIZE + index + 1, visited)
      {
        ghost var b, v := segment * HSEGSIZE + index, visited;
        assert b < bcount;
        ReachBucket(dir, bcount, segment, index);
        var chain := dir[segment][index].cells;
        assert chain == Cells(dir, b);
        visited := FreeChain(chain, visited);
        OneMoreVisited(dir, bcount, b, v, visited);
        index := index - 1;
      }
    }

    /** The loop of freeHashTable() over the chunks: each cell, in use or not, is freed with one of
        them and with no other. */
    method FreeChunks() returns (freed: seq<nat>)
      requires Housekeeping()
      ensures forall id :: 0 <= id < |home| ==> InOneChunk(freed, id)
    {
      hide Stored, ChunksOk, InOneChunk;
      freed := [];
      for k := 0 to |chunks|
        invariant freed == chunks[..k]
      {
        freed := freed + [chunks[k]];
      }
      assert freed == chunks;
      forall id: nat | id < |home| ensures InOneChunk(freed, id) {
        CellsAreInChunks(chunks, id);
      }
    }

    /** freeHashTable(): from the last bucket downwards each pair's data are handed to the caller's
        function, and each segment and each chunk is freed. */
    method FreeHashTable() returns (visited: seq<Pair>, segments: seq<nat>, freed: seq<nat>)
      requires Valid()
      ensures multiset(visited) == table
      ensures forall i :: 0 <= i < |segments| ==> segments[i] == |segments| - 1 - i
      ensures forall s :: 0 <= s < HDIRSIZE ==> (|dir[s]| > 0 <==> s < |segments|)
      ensures forall id :: 0 <= id < |home| ==> InOneChunk(freed, id)
    {
      hide Filed, Stored, Sized, VisitedFrom, DirOk;
      SizedCount(n, max, split, mask1, mask2, bcount);
      SegmentsOf(dir, bcount);
      visited, segments := [], [];
      var segment: int, index := (max + split - 1) / HSEGSIZE, (max + split - 1) % HSEGSIZE;
      ghost var last := segment;
      NothingVisited(dir, bcount);
      while segment >= 0
        invariant -1 <= segment <= last
        invariant index == if segment == last then (bcount - 1) % HSEGSIZE else HSEGSIZE - 1
        invariant VisitedFrom(dir, bcount, if segment == last then bcount else (segment + 1) * HSEGSIZE, visited)
        invariant |segments| == last - segment
        invariant forall i :: 0 <= i < |segments| ==> segments[i] == last - i
      {
        visited := FreeSegment(segment, index, visited);
        segments := segments + [segment];
        segment := segment - 1;
        index := HSEGSIZE - 1;
      }
      AllVisited(dir, max, split, bcount, table, visited);
      freed := FreeChunks();
    }
  }

  lemma NoPairs()
    ensures forall s: seq<Cell> :: s == [] ==> PairsOf(s) == multiset{}
  {
  }

  lemma PairsOfOneMore(chain: seq<Cell>, k: nat)
    requires k < |chain|
    ensures PairsOf(chain[..k + 1]) == PairsOf(chain[..k]) + multiset{Pair(chain[k].key, chain[k].data)}
  {
    assert chain[..k + 1] == chain[..k] + [chain[k]];
    PairsOfTwo(chain[..k], [chain[k]]);
    assert [chain[k]][1..] == [];
  }

  lemma ReachBucket(dir: Directory, bcount: nat, segment: nat, index: nat)
    requires DirOk(dir, bcount) && index < HSEGSIZE && segment * HSEGSIZE + index < bcount
    ensures segment < |dir| && index < |dir[segment]|
    ensures dir[segment][index] == Chain(Cells(dir, segment * HSEGSIZE + index))
  {
    var b := segment * HSEGSIZE + index;
    assert b / HSEGSIZE == segment && b % HSEGSIZE == index;
    SlotExists(dir, bcount, b);
    assert SlotAt(dir, b).Chain?;
  }

  lemma OneMoreVisited(dir: Directory, bcount: nat, b: nat, before: seq<Pair>, visited: seq<Pair>)
    requires b < bcount && VisitedFrom(dir, bcount, b + 1, before)
    requires multiset(visited) == multiset(before) + PairsOf(Cells(dir, b))
    ensures VisitedFrom(dir, bcount, b, visited)
  {
  }

  lemma SegmentsOf(dir: Directory, bcount: nat)
    requires DirOk(dir, bcount) && bcount >= 1
    ensures |dir| == HDIRSIZE
    ensures forall s :: 0 <= s < HDIRSIZE ==> (|dir[s]| > 0 <==> s <= (bcount - 1) / HSEGSIZE)
  {
  }

  lemma NothingVisited(dir: Directory, bcount: nat)
    ensures VisitedFrom(dir, bcount, bcount, [])
  {
  }

  /** The pairs of the buckets from b on. */
  function PairsFrom(dir: Directory, bcount: nat, b: nat): multiset<Pair>
    decreases bcount - b
  {
    if b >= bcount then multiset{} else PairsOf(Cells(dir, b)) + PairsFrom(dir, bcount, b + 1)
  }

  predicate VisitedFrom(dir: Directory, bcount: nat, b: int, visited: seq<Pair>) {
    0 <= b <= bcount && multiset(visited) == PairsFrom(dir, bcount, b)
  }

  lemma {:induction false} PairsFromAre(dir: Directory, max: nat, split: nat, bcount: nat, table: multiset<Pair>,
                                        b: nat, p: Pair)
    requires max >= 1 && Filed(dir, max, split, bcount, table) && b <= bcount
    requires p in table ==> KeyOk(p.key) && Bucket(Raw(p.key), max, split) < bcount
    ensures PairsFrom(dir, bcount, b)[p] ==
            if p in table && b <= Bucket(Raw(p.key), max, split) then table[p] else 0
    decreases bcount - b
  {
    if b < bcount {
      PairsFromAre(dir, max, split, bcount, table, b + 1, p);
      assert FiledAt(Cells(dir, b), max, split, b, table, p);
    }
  }

  lemma AllVisited(dir: Directory, max: nat, split: nat, bcount: nat, table: multiset<Pair>, visited: seq<Pair>)
    requires split < max && bcount == max + split && Filed(dir, max, split, bcount, table)
    requires VisitedFrom(dir, bcount, 0, visited)
    ensures multiset(visited) == table
  {
    forall p: Pair ensures multiset(visited)[p] == table[p] {
      assert FiledAt(Cells(dir, 0), max, split, 0, table, p);
      if p in table {
        BucketInRange(Raw(p.key), max, split);
      }
      PairsFromAre(dir, max, split, bcount, table, 0, p);
    }
  }

  function FirstDirectory(): Directory {
    seq(HDIRSIZE, s => if s == 0 then seq(HSEGSIZE, _ => Chain([])) else [])
  }

  lemma FirstOk()
    ensures DirOk(FirstDirectory(), HSEGSIZE)
    ensures Filed(FirstDirectory(), HSEGSIZE, 0, HSEGSIZE, multiset{})
    ensures Stored(FirstDirectory(), HSEGSIZE, [], [])
  {
    var dir := FirstDirectory();
    assert forall b :: 0 <= b < HSEGSIZE ==> SlotAt(dir, b) == Chain([]);
    forall b, p: Pair | 0 <= b < HSEGSIZE ensures FiledAt(Cells(dir, b), HSEGSIZE, 0, b, multiset{}, p) {
      assert SlotAt(dir, b) == Chain([]);
    }
    forall b | 0 <= b < HSEGSIZE ensures Housed(Cells(dir, b), b, []) {
      assert SlotAt(dir, b) == Chain([]);
    }
  }

  /** The chain of a key's bucket has a cell for every pair with an equal key, and only cells of
      pairs of the table. */
  lemma ChainOfKey(dir: Directory, max: nat, split: nat, bcount: nat, table: multiset<Pair>, key: Key)
    requires max >= 1 && DirOk(dir, bcount) && Filed(dir, max, split, bcount, table) && KeyOk(key)
    requires Bucket(Raw(key), max, split) < bcount
    ensures var b := Bucket(Raw(key), max, split);
      && SlotAt(dir, b) == Chain(Cells(dir, b))
      && (forall c <- Cells(dir, b) :: Pair(c.key, c.data) in table)
      && (forall p :: p in table && Same(p.key, key) ==> exists c :: c in Cells(dir, b) && Pair(c.key, c.data) == p)
  {
    var b := Bucket(Raw(key), max, split);
    assert SlotAt(dir, b).Chain?;
    hide DirOk, Bucket;
    forall c | c in Cells(dir, b) ensures Pair(c.key, c.data) in table {
      PairHasCell(Cells(dir, b), Pair(c.key, c.data));
      assert FiledAt(Cells(dir, b), max, split, b, table, Pair(c.key, c.data));
    }
    forall p | p in table && Same(p.key, key) ensures exists c :: c in Cells(dir, b) && Pair(c.key, c.data) == p {
      assert FiledAt(Cells(dir, b), max, split, b, table, p);
      SameHash(p.key, key);
      PairHasCell(Cells(dir, b), p);
    }
  }

  /** Reading and writing a bucket the way the code does. */
  lemma CodeSlot(dir: Directory, bcount: nat, b: nat, cells: seq<Cell>)
    requires DirOk(dir, bcount) && b < bcount
    ensures b / HSEGSIZE < |dir| && b % HSEGSIZE < |dir[b / HSEGSIZE]|
    ensures dir[b / HSEGSIZE][b % HSEGSIZE] == Chain(Cells(dir, b))
    ensures dir[b / HSEGSIZE := dir[b / HSEGSIZE][b % HSEGSIZE := Chain(cells)]] == WithSlot(dir, b, cells)
  {
    SlotExists(dir, bcount, b);
    assert SlotAt(dir, b).Chain?;
  }

  /** One pair more or less in bucket b and in the table. */
  lemma FiledAfter(dir: Directory, max: nat, split: nat, bcount: nat, table: multiset<Pair>,
                   b: nat, cells: seq<Cell>, table': multiset<Pair>, q: Pair)
    requires max >= 1 && DirOk(dir, bcount) && b < bcount && Filed(dir, max, split, bcount, table)
    requires KeyOk(q.key) && Bucket(Raw(q.key), max, split) == b
    requires forall p: Pair :: p != q ==> PairsOf(cells)[p] == PairsOf(Cells(dir, b))[p] && table'[p] == table[p]
    requires PairsOf(cells)[q] + table[q] == PairsOf(Cells(dir, b))[q] + table'[q]
    ensures Filed(WithSlot(dir, b, cells), max, split, bcount, table')
  {
    hide DirOk, Bucket, PairsOf, WithSlot, SlotAt, Raw;
    WithSlotAt(dir, bcount, b, cells);
    var dir' := WithSlot(dir, b, cells);
    forall c, p: Pair | 0 <= c < bcount ensures FiledAt(Cells(dir', c), max, split, c, table', p) {
      assert SlotAt(dir', c) == if c == b then Chain(cells) else SlotAt(dir, c);
      assert FiledAt(Cells(dir, c), max, split, c, table, p);
      assert FiledAt(Cells(dir, b), max, split, b, table, p);
    }
  }

  lemma InsertKeeps(dir: Directory, max: nat, split: nat, bcount: nat, table: multiset<Pair>,
                    free: seq<nat>, home: Homes, c: Cell)
    requires max >= 1 && DirOk(dir, bcount) && Filed(dir, max, split, bcount, table) && Stored(dir, bcount, free, home)
    requires KeyOk(c.key) && Bucket(Raw(c.key), max, split) < bcount && c.id < |home| && home[c.id] == IN_HAND
    ensures var b := Bucket(Raw(c.key), max, split);
      var dir' := WithSlot(dir, b, [c] + Cells(dir, b));
      && SlotAt(dir, b) == Chain(Cells(dir, b))
      && DirOk(dir', bcount) && Filed(dir', max, split, bcount, table + multiset{Pair(c.key, c.data)})
      && Stored(dir', bcount, free, home[c.id := b])
  {
    var b := Bucket(Raw(c.key), max, split);
    var cells := Cells(dir, b);
    assert SlotAt(dir, b).Chain?;
    WithSlotAt(dir, bcount, b, [c] + cells);
    HousedOneMore(cells, b, home, c);
    StoredAfter(dir, bcount, free, home, b, [c] + cells, free, home[c.id := b]);
    PairsOfTwo([c], cells);
    assert [c][1..] == [] && PairsOf([c]) == multiset{Pair(c.key, c.data)};
    hide DirOk, Stored, Bucket, PairsOf, Filed, WithSlot;
    FiledAfter(dir, max, split, bcount, table, b, [c] + cells, table + multiset{Pair(c.key, c.data)},
               Pair(c.key, c.data));
  }

  lemma RemoveKeeps(dir: Directory, max: nat, split: nat, bcount: nat, table: multiset<Pair>,
                    free: seq<nat>, home: Homes, b: nat, k: nat)
    requires max >= 1 && DirOk(dir, bcount) && Filed(dir, max, split, bcount, table) && Stored(dir, bcount, free, home)
    requires b < bcount && k < |Cells(dir, b)|
    ensures Pair(Cells(dir, b)[k].key, Cells(dir, b)[k].data) in table
    ensures var c := Cells(dir, b)[k];
      var dir' := WithSlot(dir, b, Cells(dir, b)[..k] + Cells(dir, b)[k + 1..]);
      && SlotAt(dir, b) == Chain(Cells(dir, b)) && c.id < |home|
      && DirOk(dir', bcount) && Filed(dir', max, split, bcount, table - multiset{Pair(c.key, c.data)})
      && Stored(dir', bcount, free, home[c.id := IN_HAND])
  {
    var cells := Cells(dir, b);
    var c := cells[k];
    var less := cells[..k] + cells[k + 1..];
    assert SlotAt(dir, b).Chain?;
    WithSlotAt(dir, bcount, b, less);
    HousedOneLess(cells, b, home, k);
    StoredAfter(dir, bcount, free, home, b, less, free, home[c.id := IN_HAND]);
    var q := Pair(c.key, c.data);
    PairsOfOneLess(cells, k);
    PairHasCell(cells, q);
    assert FiledAt(cells, max, split, b, table, q);
    hide DirOk, Stored, Bucket, PairsOf, Filed, WithSlot;
    FiledAfter(dir, max, split, bcount, table, b, less, table - multiset{q}, q);
  }


  lemma SizedCount(n: nat, max: nat, split: nat, mask1: nat, mask2: nat, bcount: nat)
    requires Sized(n, max, split, mask1, mask2, bcount)
    ensures max >= 1 && split < max && bcount == max + split <= HDIRSIZE * HSEGSIZE
  {
  }

  /** Reading the bucket to be split after a new segment was allocated. */
  lemma SlotOfSplit(dir: Directory, bcount: nat, split: nat)
    requires DirOk(dir, bcount) && split < bcount < HDIRSIZE * HSEGSIZE
    ensures bcount / HSEGSIZE < |dir|
    ensures var dir1 := if bcount % HSEGSIZE == 0 then dir[bcount / HSEGSIZE := seq(HSEGSIZE, _ => Unset)] else dir;
      && split / HSEGSIZE < |dir1| && split % HSEGSIZE < |dir1[split / HSEGSIZE]|
      && dir1[split / HSEGSIZE][split % HSEGSIZE] == Chain(Cells(dir, split))
  {
    SlotExists(dir, bcount, split);
    assert SlotAt(dir, split).Chain?;
    assert bcount % HSEGSIZE == 0 ==> split / HSEGSIZE != bcount / HSEGSIZE;
  }

  /** The statements of expand() on the directory make it the divided one. */
  lemma CodeDivides(dir: Directory, bcount: nat, split: nat, stay: seq<Cell>, move: seq<Cell>)
    requires DirOk(dir, bcount) && split < bcount < HDIRSIZE * HSEGSIZE
    ensures bcount / HSEGSIZE < |dir|
    ensures var s, t := split / HSEGSIZE, bcount / HSEGSIZE;
      var dir1 := if bcount % HSEGSIZE == 0 then dir[t := seq(HSEGSIZE, _ => Unset)] else dir;
      && s < |dir1| && split % HSEGSIZE < |dir1[s]|
      && var dir2 := dir1[s := dir1[s][split % HSEGSIZE := Chain(stay)]];
      && t < |dir2| && bcount % HSEGSIZE < |dir2[t]|
      && dir2[t := dir2[t][bcount % HSEGSIZE := Chain(move)]] == Divided(dir, bcount, split, stay, move)
  {
    SlotOfSplit(dir, bcount, split);
    GrownOk(dir, bcount, move);
  }

  /** The whole effect of a split on the contents and the storage. */
  lemma AfterSplit(dir: Directory, max: nat, split: nat, table: multiset<Pair>, free: seq<nat>, home: Homes,
                   stay: seq<Cell>, move: seq<Cell>, h: Homes)
    requires max >= 1 && split < max && max + split < HDIRSIZE * HSEGSIZE && DirOk(dir, max + split)
    requires Filed(dir, max, split, max + split, table) && Stored(dir, max + split, free, home)
    requires Placing(Cells(dir, split), |Cells(dir, split)|, stay, move, split, max + split, home, h)
    requires Parted(Cells(dir, split), stay, move, NextMax(max, split), NextSplit(max, split), max + split)
    ensures var dir' := Divided(dir, max + split, split, stay, move);
      && DirOk(dir', max + split + 1) && Stored(dir', max + split + 1, free, h) && |h| == |home|
      && (NoneInHand(home) ==> NoneInHand(h))
      && Filed(dir', NextMax(max, split), NextSplit(max, split), max + split + 1, table)
  {
    hide Filed, Stored, Parted, Divided, DirOk, Cells, SlotAt, NextMax, NextSplit;
    DividedOk(dir, max + split, split, stay, move);
    SplitKeepsFiled(dir, max, split, table, stay, move);
    StoredDivided(dir, max + split, free, home, split, stay, move, h);
  }

  lemma PartingStarts(chain: seq<Cell>, b: nat, newBucket: nat, home: Homes, max: nat, split: nat)
    requires max >= 1 && b != newBucket && Housed(chain, b, home)
    requires forall id :: 0 <= id < |home| ==> home[id] != newBucket
    ensures Placing(chain, 0, [], [], b, newBucket, home, TakenUp(home, b))
    ensures Parted(chain[..0], [], [], max, split, newBucket)
  {
    PlacingStarts(chain, b, newBucket, home);
    assert chain[..0] == [];
  }

  lemma PartingStep(chain: seq<Cell>, k: nat, stay: seq<Cell>, move: seq<Cell>, b: nat, newBucket: nat,
                    home: Homes, h: Homes, max: nat, split: nat)
    requires max >= 1 && b != newBucket && Housed(chain, b, home) && k < |chain| && KeyOk(chain[k].key)
    requires Placing(chain, k, stay, move, b, newBucket, home, h)
    requires Parted(chain[..k], stay, move, max, split, newBucket)
    ensures chain[k].id < |h|
    ensures var moves := Bucket(Raw(chain[k].key), max, split) == newBucket;
      var stay', move' := if moves then stay else [chain[k]] + stay, if moves then [chain[k]] + move else move;
      && Placing(chain, k + 1, stay', move', b, newBucket, home, h[chain[k].id := if moves then newBucket else b])
      && Parted(chain[..k + 1], stay', move', max, split, newBucket)
  {
    PartedStep(chain, k, stay, move, max, split, newBucket);
    PlacingStep(chain, k, stay, move, b, newBucket, home, h, Bucket(Raw(chain[k].key), max, split) == newBucket);
    hide Parted, Bucket;
  }

  predicate NoneInHand(home: Homes) {
    forall id :: 0 <= id < |home| ==> home[id] != IN_HAND
  }

  /** The chain that is going to be split, and the slot it is in. */
  lemma BeforeSplit(dir: Directory, max: nat, split: nat, bcount: nat, table: multiset<Pair>,
                    free: seq<nat>, home: Homes)
    requires max >= 1 && split < bcount < HDIRSIZE * HSEGSIZE && DirOk(dir, bcount)
    requires Filed(dir, max, split, bcount, table) && Stored(dir, bcount, free, home)
    ensures split / HSEGSIZE < |dir| && split % HSEGSIZE < |dir[split / HSEGSIZE]|
    ensures dir[split / HSEGSIZE][split % HSEGSIZE] == Chain(Cells(dir, split))
    ensures bcount % HSEGSIZE == 0 ==> split / HSEGSIZE != bcount / HSEGSIZE
    ensures Housed(Cells(dir, split), split, home)
    ensures forall c <- Cells(dir, split) :: KeyOk(c.key)
    ensures forall id :: 0 <= id < |home| ==> home[id] != bcount
  {
    SlotExists(dir, bcount, split);
    assert SlotAt(dir, split).Chain?;
    var cells := Cells(dir, split);
    forall c | c in cells ensures KeyOk(c.key) {
      var p := Pair(c.key, c.data);
      PairHasCell(cells, p);
      assert FiledAt(cells, max, split, split, table, p);
    }
  }
}
