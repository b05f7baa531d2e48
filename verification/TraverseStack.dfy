/** The retainer profiler's traverse stack: a doubly linked chain of fixed-size blocks in which
    elements are pushed downwards (rts/RetainerProfile.c). Addresses are numbers. */
module TraverseStack {

  const BLOCK_SIZE := 4096
  const ELEMENT_SIZE := 40
  const PER_BLOCK := 102

  /** A block group: where it starts, and the saved stack top while it is not the current one. */
  datatype Block = Block(start: nat, free: nat)

  function Limit(b: Block): nat {
    b.start + BLOCK_SIZE
  }

  predicate Apart(s: nat, t: nat) {
    s + BLOCK_SIZE <= t || t + BLOCK_SIZE <= s
  }

  predicate Disjoint(blocks: seq<Block>) {
    forall i, j :: 0 <= i < j < |blocks| ==> Apart(blocks[i].start, blocks[j].start)
  }

  /** The address of element number j, counted from the bottom of the whole stack. */
  function Address(blocks: seq<Block>, j: nat): nat
    requires j < |blocks| * PER_BLOCK
  {
    Limit(blocks[j / PER_BLOCK]) - (j % PER_BLOCK + 1) * ELEMENT_SIZE
  }

  /** The stack top when the stack holds d elements. */
  function TopAt(blocks: seq<Block>, d: nat): nat
    requires |blocks| > 0 && d <= |blocks| * PER_BLOCK
  {
    if d == 0 then Limit(blocks[0]) else Address(blocks, d - 1)
  }

  /** Different elements have different addresses; since 102 elements leave 16 bytes over at the
      start of a block, none has the address of the limit of a neighbouring block either. */
  lemma AddressesDiffer(blocks: seq<Block>, i: nat, j: nat)
    requires Disjoint(blocks) && i < j < |blocks| * PER_BLOCK
    ensures Address(blocks, i) != Address(blocks, j)
    ensures Address(blocks, j) != Limit(blocks[0])
  {
    var p, q := i / PER_BLOCK, j / PER_BLOCK;
    assert p == q ==> i % PER_BLOCK < j % PER_BLOCK;
    assert p < q ==> Apart(blocks[p].start, blocks[q].start);
    assert 0 < q ==> Apart(blocks[0].start, blocks[q].start);
  }

  /** The depth of the stack can be read off its top. */
  lemma TopTellsDepth(blocks: seq<Block>, d: nat, e: nat)
    requires Disjoint(blocks) && |blocks| > 0 && d < e <= |blocks| * PER_BLOCK
    ensures TopAt(blocks, d) != TopAt(blocks, e)
  {
    if d == 0 && e == 1 {
    } else if d == 0 {
      AddressesDiffer(blocks, 0, e - 1);
    } else {
      AddressesDiffer(blocks, d - 1, e - 1);
    }
  }

  /** Appending blocks or saving stack tops moves no element. */
  lemma AddressesStay(blocks: seq<Block>, more: seq<Block>, j: nat)
    requires j < |blocks| * PER_BLOCK && |blocks| <= |more|
    requires forall i :: 0 <= i < |blocks| ==> more[i].start == blocks[i].start
    ensures j < |more| * PER_BLOCK && Address(more, j) == Address(blocks, j)
  {
  }

  /** The elements s lie at their addresses. */
  ghost predicate Holds<T>(blocks: seq<Block>, memory: map<nat, T>, s: seq<T>) {
    && |s| <= |blocks| * PER_BLOCK
    && forall j :: 0 <= j < |s| ==> Address(blocks, j) in memory && memory[Address(blocks, j)] == s[j]
  }

  lemma HoldsOneMore<T>(blocks: seq<Block>, memory: map<nat, T>, s: seq<T>, more: seq<Block>, e: T)
    requires Disjoint(more) && Holds(blocks, memory, s)
    requires |blocks| <= |more| && |s| < |more| * PER_BLOCK
    requires forall i :: 0 <= i < |blocks| ==> more[i].start == blocks[i].start
    ensures Holds(more, memory[Address(more, |s|) := e], s + [e])
  {
    forall j | 0 <= j < |s| ensures Address(more, j) == Address(blocks, j) != Address(more, |s|) {
      AddressesStay(blocks, more, j);
      AddressesDiffer(more, j, |s|);
    }
  }

  lemma HoldsElsewhere<T>(blocks: seq<Block>, memory: map<nat, T>, s: seq<T>, more: seq<Block>)
    requires Holds(blocks, memory, s) && |blocks| <= |more|
    requires forall i :: 0 <= i < |blocks| ==> more[i].start == blocks[i].start
    ensures forall k :: 0 <= k <= |s| ==> Holds(more, memory, s[..k])
  {
    forall j | 0 <= j < |s| ensures Address(more, j) == Address(blocks, j) {
      AddressesStay(blocks, more, j);
    }
  }

  lemma TopAtStays(blocks: seq<Block>, more: seq<Block>)
    requires 0 < |blocks| <= |more|
    requires forall i :: 0 <= i < |blocks| ==> more[i].start == blocks[i].start
    ensures forall d: nat :: d <= |blocks| * PER_BLOCK ==> TopAt(more, d) == TopAt(blocks, d)
  {
    forall d: nat | d <= |blocks| * PER_BLOCK ensures TopAt(more, d) == TopAt(blocks, d) {
      if d > 0 {
        AddressesStay(blocks, more, d - 1);
      }
    }
  }

  class Stack<T> {
    var blocks: seq<Block>
    var current: nat
    var stackTop: nat
    var stackBottom: nat
    var stackLimit: nat
    var memory: map<nat, T>
    var boundary: nat
    ghost var contents: seq<T>

    /** Elements in the current block. */
    function InBlock(): int
      reads this
    {
      (stackLimit - stackTop) / ELEMENT_SIZE
    }

    function Depth(): int
      reads this
    {
      current * PER_BLOCK + InBlock()
    }

    ghost predicate Valid()
      reads this
    {
      && Shape() && (stackTop == stackLimit ==> current == 0)
      && Holds(blocks, memory, contents)
    }

    /** The pointers, as they may be during a push. */
    ghost predicate Shape()
      reads this
    {
      && current < |blocks| && Disjoint(blocks)
      && stackBottom == blocks[current].start && stackLimit == Limit(blocks[current])
      && blocks[current].free == stackLimit
      && stackBottom + BLOCK_SIZE % ELEMENT_SIZE <= stackTop <= stackLimit
      && (stackLimit - stackTop) % ELEMENT_SIZE == 0
      && (forall b :: 0 <= b < current ==> blocks[b].free == blocks[b].start + BLOCK_SIZE % ELEMENT_SIZE)
      && |contents| == Depth()
    }

    lemma TopIsTopAt()
      requires Valid()
      ensures 0 <= Depth() <= |blocks| * PER_BLOCK && stackTop == TopAt(blocks, Depth())
    {
    }

    /** initializeTraverseStack(): one block group, and nothing on the stack. */
    constructor (start: nat)
      ensures Valid() && contents == []
    {
      blocks := [Block(start, start + BLOCK_SIZE)];
      current := 0;
      stackTop, stackBottom, stackLimit := start + BLOCK_SIZE, start, start + BLOCK_SIZE;
      memory := map[];
      boundary := start + BLOCK_SIZE;
      contents := [];
    }

    /** newStackBlock(): the block with number b becomes the current one, empty. */
    method NewStackBlock(b: nat)
      requires b < |blocks|
      modifies this
      ensures current == b && blocks == old(blocks)[b := Block(old(blocks[b].start), Limit(old(blocks[b])))]
      ensures stackBottom == blocks[b].start && stackLimit == stackTop == Limit(blocks[b])
      ensures memory == old(memory) && boundary == old(boundary) && contents == old(contents)
    {
      current := b;
      stackTop := blocks[b].start + BLOCK_SIZE;
      stackBottom := blocks[b].start;
      stackLimit := stackTop;
      blocks := blocks[b := blocks[b].(free := stackLimit)];
    }

    /** returnToOldStack(): the block with number b becomes the current one, with the stack top that
        was saved in it. */
    method ReturnToOldStack(b: nat)
      requires b < |blocks|
      modifies this
      ensures current == b && blocks == old(blocks)[b := Block(old(blocks[b].start), Limit(old(blocks[b])))]
      ensures stackBottom == blocks[b].start && stackLimit == Limit(blocks[b]) && stackTop == old(blocks[b].free)
      ensures memory == old(memory) && boundary == old(boundary) && contents == old(contents)
    {
      current := b;
      stackTop := blocks[b].free;
      stackBottom := blocks[b].start;
      stackLimit := blocks[b].start + BLOCK_SIZE;
      blocks := blocks[b := blocks[b].(free := stackLimit)];
    }

    /** isEmptyRetainerStack() */
    method IsEmpty() returns (b: bool)
      requires Valid()
      ensures b <==> contents == []
    {
      b := current == 0 && stackTop == stackLimit;
    }

    /** A stack chunk begins here: the boundary is the current stack top. */
    method MarkBoundary()
      requires Valid()
      modifies this
      ensures Valid() && contents == old(contents) && blocks == old(blocks)
      ensures BoundaryAt(|contents|)
    {
      TopIsTopAt();
      boundary := stackTop;
    }

    /** The boundary was recorded when the stack held d elements. */
    ghost predicate BoundaryAt(d: nat)
      reads this
    {
      |blocks| > 0 && d <= |blocks| * PER_BLOCK && boundary == TopAt(blocks, d)
    }

    /** isOnBoundary(): comparing addresses tells whether the depth is that of the boundary. */
    method IsOnBoundary(ghost d: nat) returns (b: bool)
      requires Valid() && BoundaryAt(d)
      ensures b <==> |contents| == d
    {
      TopIsTopAt();
      if d < Depth() {
        TopTellsDepth(blocks, d, Depth());
      } else if Depth() < d {
        TopTellsDepth(blocks, Depth(), d);
      }
      b := stackTop == boundary;
    }

    /** The start of a push into a full block: the next block of the chain becomes the current one;
        `newBlock` is the block group that the allocator hands out if the chain ends here. */
    method MakeRoom(newBlock: nat)
      requires Valid() && forall i :: 0 <= i < |blocks| ==> Apart(blocks[i].start, newBlock)
      modifies this
      ensures Shape() && ELEMENT_SIZE + stackBottom <= stackTop
      ensures |old(blocks)| <= |blocks| && forall i :: 0 <= i < |old(blocks)| ==> blocks[i].start == old(blocks[i].start)
      ensures memory == old(memory) && contents == old(contents) && boundary == old(boundary)
    {
      if stackTop < ELEMENT_SIZE + stackBottom {
        blocks := blocks[current := blocks[current].(free := stackTop)];
        if current + 1 == |blocks| {
          blocks := blocks + [Block(newBlock, 0)];
        }
        NewStackBlock(current + 1);
      }
    }

    /** Where the next element goes. */
    lemma NextAddress()
      requires Shape() && ELEMENT_SIZE + stackBottom <= stackTop
      ensures |contents| < |blocks| * PER_BLOCK && stackTop - ELEMENT_SIZE == Address(blocks, |contents|)
    {
    }

    /** The second half of push(). */
    method Push(e: T, newBlock: nat)
      requires Valid() && forall i :: 0 <= i < |blocks| ==> Apart(blocks[i].start, newBlock)
      modifies this
      ensures Valid() && contents == old(contents) + [e]
      ensures forall d: nat :: old(BoundaryAt(d)) ==> BoundaryAt(d)
    {
      hide Holds, Address, TopAt, Disjoint;
      ghost var was := blocks;
      MakeRoom(newBlock);
      TopAtStays(was, blocks);
      NextAddress();
      HoldsOneMore(was, memory, contents, blocks, e);
      stackTop := stackTop - ELEMENT_SIZE;
      memory := memory[stackTop := e];
      contents := contents + [e];
    }

    /** popOff() with popOffReal(): the top element goes; an emptied block is left for the one
        below it. */
    method PopOff()
      requires Valid() && contents != []
      modifies this
      ensures Valid() && contents == old(contents)[..|old(contents)| - 1]
      ensures forall d: nat :: old(BoundaryAt(d)) ==> BoundaryAt(d)
    {
      if stackTop + ELEMENT_SIZE < stackLimit {
        HoldsElsewhere(blocks, memory, contents, blocks);
        stackTop := stackTop + ELEMENT_SIZE;
        contents := contents[..|contents| - 1];
      } else {
        PopOffReal();
      }
    }

    method PopOffReal()
      requires Valid() && contents != [] && stackTop + ELEMENT_SIZE == stackLimit
      modifies this
      ensures Valid() && contents == old(contents)[..|old(contents)| - 1]
      ensures forall d: nat :: old(BoundaryAt(d)) ==> BoundaryAt(d)
    {
      ghost var was := blocks;
      HoldsElsewhere(blocks, memory, contents, blocks);
      contents := contents[..|contents| - 1];
      if current == 0 {
        stackTop := stackTop + ELEMENT_SIZE;
        return;
      }
      blocks := blocks[current := blocks[current].(free := stackLimit)];
      ReturnToOldStack(current - 1);
      TopAtStays(was, blocks);
      HoldsElsewhere(was, memory, contents, blocks);
      assert contents[..|contents|] == contents;
    }

    /** The element pop() looks at. */
    method Top() returns (e: T)
      requires Valid() && contents != []
      ensures e == contents[|contents| - 1]
    {
      TopIsTopAt();
      e := memory[stackTop];
    }

    /** pop() overwrites the top element to step to the next child. */
    method Rewrite(e: T)
      requires Valid() && contents != []
      modifies this
      ensures Valid() && contents == old(contents)[|old(contents)| - 1 := e]
      ensures blocks == old(blocks) && boundary == old(boundary)
    {
      TopIsTopAt();
      ghost var rest := contents[..|contents| - 1];
      HoldsElsewhere(blocks, memory, contents, blocks);
      HoldsOneMore(blocks, memory, rest, blocks, e);
      memory := memory[stackTop := e];
      contents := contents[|contents| - 1 := e];
      assert contents == rest + [e];
    }
  }
}
