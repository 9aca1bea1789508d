/** The object pool of src/allocator.h on the heap: a circular ring of blocks,
    each a stack of free objects, with a cursor that moves over the ring.  An
    object is named by its address; `live` holds those handed out. */
module Pool {
  import opened Common
  import PM = PoolModel

  class Block {
    var next: Block
    var prev: Block
    var size: nat
    const objs: array<nat>

    /** A block on a ring of its own. */
    constructor ()
      ensures next == this && prev == this && size == 0
      ensures fresh(objs) && objs.Length == PM.BLOCK_SIZE
    {
      next, prev, size := this, this, 0;
      objs := new nat[PM.BLOCK_SIZE];
    }
  }

  function Succ(i: nat, n: nat): (j: nat)
    requires i < n
    ensures j < n
  {
    if i + 1 < n then i + 1 else 0
  }

  ghost predicate LinkAt(ring: seq<Block>, i: nat)
    requires i < |ring|
    reads ring`next, ring`prev
  {
    var j := Succ(i, |ring|);
    ring[i].next == ring[j] && ring[j].prev == ring[i]
  }

  ghost predicate Linked(ring: seq<Block>)
    reads ring`next, ring`prev
  {
    forall i | 0 <= i < |ring| :: LinkAt(ring, i)
  }

  /** The ring read from the next block on. */
  function Forward(ring: seq<Block>): seq<Block>
    requires ring != []
  {
    ring[1..] + [ring[0]]
  }

  /** The ring read from the previous block on. */
  function Backward(ring: seq<Block>): seq<Block>
    requires ring != []
  {
    [ring[|ring| - 1]] + ring[..|ring| - 1]
  }

  lemma ForwardLinked(ring: seq<Block>)
    requires ring != [] && Linked(ring) && NoRepeats(ring)
    ensures Linked(Forward(ring)) && NoRepeats(Forward(ring)) && ring[0].next == Forward(ring)[0]
  {
    var r := Forward(ring);
    assert LinkAt(ring, 0);
    forall i | 0 <= i < |r| ensures LinkAt(r, i) {
      assert LinkAt(ring, Succ(i, |ring|));
    }
  }

  lemma BackwardLinked(ring: seq<Block>)
    requires ring != [] && Linked(ring) && NoRepeats(ring)
    ensures Linked(Backward(ring)) && NoRepeats(Backward(ring)) && ring[0].prev == Backward(ring)[0]
    ensures Forward(Backward(ring)) == ring
  {
    var r := Backward(ring);
    assert LinkAt(ring, |ring| - 1);
    forall i | 0 <= i < |r| ensures LinkAt(r, i) {
      assert LinkAt(ring, if i == 0 then |ring| - 1 else i - 1);
    }
  }

  lemma SameBlocks(ring: seq<Block>)
    requires ring != []
    ensures forall b :: b in Backward(ring) <==> b in ring
    ensures forall b :: b in Forward(ring) <==> b in ring
  {
    var last := |ring| - 1;
    assert ring == ring[..last] + [ring[last]] && ring == [ring[0]] + ring[1..];
  }

  /** `place` knows the object at position `i` of block `b`. */
  ghost predicate FreeAt(place: map<nat, (Block, nat)>, b: Block, i: nat)
    reads b.objs
  {
    i < b.objs.Length && b.objs[i] in place && place[b.objs[i]] == (b, i)
  }

  /** Blocks share no storage; `place` finds every stacked object, and nothing else. */
  ghost predicate StacksOk(blocks: set<Block>, place: map<nat, (Block, nat)>)
    reads blocks`size, set b | b in blocks :: b.objs
  {
    && (forall b | b in blocks :: b.objs.Length == PM.BLOCK_SIZE && b.size <= PM.BLOCK_SIZE)
    && (forall b, c | b in blocks && c in blocks && b != c :: b.objs != c.objs)
    && (forall b, i | b in blocks && 0 <= i < b.size :: FreeAt(place, b, i))
    && (forall x | x in place :: Stacked(blocks, place, x))
  }

  /** Object `x` is where `place` says. */
  ghost predicate Stacked(blocks: set<Block>, place: map<nat, (Block, nat)>, x: nat)
    requires x in place
    requires forall b | b in blocks :: b.objs.Length == PM.BLOCK_SIZE && b.size <= PM.BLOCK_SIZE
    reads blocks`size, set b | b in blocks :: b.objs
  {
    var (b, i) := place[x];
    b in blocks && 0 <= i < b.size && b.objs[i] == x
  }

  /** One stack holding a batch, all others empty. */
  lemma FullStack(blocks: set<Block>, batch: map<nat, (Block, nat)>, b: Block, base: nat, step: nat)
    requires b in blocks && b.size == step <= PM.BLOCK_SIZE
    requires forall c | c in blocks :: c.objs.Length == PM.BLOCK_SIZE && (c != b ==> c.size == 0)
    requires forall c, d | c in blocks && d in blocks && c != d :: c.objs != d.objs
    requires forall k | 0 <= k < step :: b.objs[k] == base + k
    requires forall x: nat :: x in batch <==> base <= x < base + step
    requires forall x | x in batch :: batch[x] == (b, x - base)
    ensures StacksOk(blocks, batch)
  {
  }

  lemma StacksGrow(blocks: set<Block>, place: map<nat, (Block, nat)>, node: Block)
    requires StacksOk(blocks, place) && node.size == 0 && node.objs.Length == PM.BLOCK_SIZE
    requires forall b | b in blocks :: b.objs != node.objs
    ensures StacksOk(blocks + {node}, place)
  {
  }

  class Pool {
    const step: nat
    var cursor: Block?
    var obtained: nat
    ghost var ring: seq<Block>
    ghost var blocks: set<Block>
    ghost var live: set<nat>
    ghost var place: map<nat, (Block, nat)>
    ghost var shape: PM.Shape

    /** Read forward from the cursor: one current block, then only empty
        blocks, then only full ones. */
    ghost predicate Shaped(s: PM.Shape)
      reads this`ring, this`cursor, ring`size
    {
      && (cursor == null <==> ring == [])
      && (s.started <==> ring != [])
      && |ring| == PM.Blocks(s)
      && (ring != [] ==> cursor == ring[0] && ring[0].size == s.current)
      && (forall i | 1 <= i < |ring| :: ring[i].size == if i <= s.empties then 0 else PM.BLOCK_SIZE)
    }

    /** The blocks are linked in a ring. */
    ghost predicate RingOk()
      reads this`ring, this`blocks, ring`next, ring`prev
    {
      NoRepeats(ring) && Linked(ring) && blocks == set b | b in ring
    }

    /** Free and live objects partition the pool. */
    ghost predicate Partition()
      reads this`live, this`place, this`obtained
    {
      && live !! place.Keys
      && (forall x: nat :: x in live || x in place <==> x < obtained)
    }

    /** The pool is laid out as `shape` says. */
    ghost predicate Consistent()
      reads this, ring, blocks, set b | b in blocks :: b.objs
    {
      && RingOk() && Shaped(shape) && StacksOk(blocks, place) && Partition()
      && shape.live == |live| && shape.obtained == obtained
    }

    ghost predicate Valid()
      reads this, ring, blocks, set b | b in blocks :: b.objs
    {
      Consistent() && PM.Sound(shape, step)
    }

    /** The pool of objects of the given size, not used yet. */
    constructor (objectSize: nat)
      requires objectSize > 0
      ensures Valid() && live == {} && shape == PM.Unstarted() && step == PM.AllocStep(objectSize)
    {
      step := PM.AllocStep(objectSize);
      cursor, obtained := null, 0;
      ring, blocks, live, place, shape := [], {}, {}, map[], PM.Unstarted();
    }

    /** `alloc` on a buffer that has not been initialised yet. */
    method Start()
      requires Consistent() && cursor == null && shape == PM.Unstarted()
      modifies this`cursor, this`ring, this`blocks, this`shape
      ensures Consistent() && cursor != null && fresh(cursor) && fresh(cursor.objs) && blocks == {cursor}
      ensures shape == old(shape).(started := true)
    {
      var b := new Block();
      cursor := b;
      ring, blocks := [b], {b};
      shape := shape.(started := true);
      assert LinkAt(ring, 0);
    }

    /** The cursor goes back to look for a free object. */
    method StepBack()
      requires Consistent() && cursor != null && shape.current == 0
      modifies this`cursor, this`ring, this`shape
      ensures Consistent() && cursor != null
      ensures shape == if old(shape).fulls > 0
                       then old(shape).(current := PM.BLOCK_SIZE, fulls := old(shape).fulls - 1,
                                        empties := old(shape).empties + 1)
                       else old(shape)
    {
      hide NoRepeats, Linked, StacksOk, Partition;
      BackwardLinked(ring);
      SameBlocks(ring);
      cursor := cursor.prev;
      ring := Backward(ring);
      if shape.fulls > 0 {
        shape := shape.(current := PM.BLOCK_SIZE, fulls := shape.fulls - 1, empties := shape.empties + 1);
      }
    }

    /** The cursor goes forward to look for empty space. */
    method StepForward()
      requires Consistent() && cursor != null && shape.current == PM.BLOCK_SIZE
      modifies this`cursor, this`ring, this`shape
      ensures Consistent() && cursor != null
      ensures shape == if old(shape).empties > 0
                       then old(shape).(current := 0, empties := old(shape).empties - 1, fulls := old(shape).fulls + 1)
                       else old(shape)
    {
      hide NoRepeats, Linked, StacksOk, Partition;
      ForwardLinked(ring);
      SameBlocks(ring);
      cursor := cursor.next;
      ring := Forward(ring);
      if shape.empties > 0 {
        shape := shape.(current := 0, empties := shape.empties - 1, fulls := shape.fulls + 1);
      }
    }

    /** The links of a new block right before the current one. */
    static method SpliceBefore(node: Block, current: Block, ghost ring: seq<Block>)
      requires ring != [] && Linked(ring) && NoRepeats(ring) && current == ring[0] && node !in ring
      modifies node`next, node`prev, current`prev, current.prev`next
      ensures Linked([node] + ring) && NoRepeats([node] + ring)
    {
      ghost var last := |ring| - 1;
      assert LinkAt(ring, last);
      node.next := current;
      node.prev := current.prev;
      node.next.prev := node;
      node.prev.next := node;
      ghost var r := [node] + ring;
      forall i | 0 <= i < |r| ensures LinkAt(r, i) {
        assert 0 < i <= last ==> old(LinkAt(ring, i - 1));
      }
    }

    lemma AllFull()
      requires Shaped(shape) && cursor != null && shape.current == PM.BLOCK_SIZE && shape.empties == 0
      ensures ring != [] && ring[0] == cursor && shape.started && |ring| == PM.Blocks(shape)
      ensures forall i | 0 <= i < |ring| :: ring[i].size == PM.BLOCK_SIZE
    {
    }

    /** An empty current block before full ones. */
    lemma OneMore(before: seq<Block>, s: PM.Shape)
      requires ring == [cursor] + before && cursor != null && cursor.size == 0
      requires s.started && s.empties == 0 && |before| == PM.Blocks(s)
      requires forall i | 0 <= i < |before| :: before[i].size == PM.BLOCK_SIZE
      ensures Shaped(s.(current := 0, fulls := s.fulls + 1))
    {
      assert forall i | 1 <= i < |ring| :: ring[i] == before[i - 1];
    }

    lemma OneMoreBlock(ring: seq<Block>, node: Block)
      ensures (set b | b in [node] + ring) == (set b | b in ring) + {node}
    {
    }

    method NewBlock() returns (node: Block)
      requires StacksOk(blocks, place)
      ensures fresh(node) && fresh(node.objs) && node.size == 0 && StacksOk(blocks + {node}, place)
    {
      node := new Block();
      StacksGrow(blocks, place, node);
    }

    /** When every block is full, a new one becomes the current block. */
    method AddBlock()
      requires Consistent() && cursor != null && shape.current == PM.BLOCK_SIZE && shape.empties == 0
      modifies this`cursor, this`ring, this`blocks, this`shape, cursor`prev, cursor.prev`next
      ensures Consistent() && cursor != null && fresh(blocks - old(blocks)) && fresh(cursor.objs)
      ensures blocks == old(blocks) + {cursor}
      ensures shape == old(shape).(current := 0, fulls := old(shape).fulls + 1)
    {
      hide NoRepeats, Linked, Partition, StacksOk;
      AllFull();
      hide Shaped, PM.Blocks;
      var node := NewBlock();
      SpliceBefore(node, cursor, ring);
      cursor := node;
      ghost var before := ring;
      assert StacksOk(blocks + {node}, place);
      OneMoreBlock(ring, node);
      ring, blocks := [node] + ring, blocks + {node};
      OneMore(before, shape);
      shape := shape.(current := 0, fulls := shape.fulls + 1);
      assert RingOk();
      assert Shaped(shape);
      assert StacksOk(blocks, place);
      assert Partition();
      assert shape.live == |live|;
    }

    /** Pop from the stack of a block. */
    static method Pop(b: Block, ghost blocks: set<Block>, ghost place: map<nat, (Block, nat)>) returns (x: nat)
      requires StacksOk(blocks, place) && b in blocks && b.size > 0
      modifies b`size
      ensures b.size == old(b.size) - 1 && x in place && StacksOk(blocks, place - {x})
    {
      assert FreeAt(place, b, b.size - 1);
      b.size := b.size - 1;
      x := b.objs[b.size];
      forall c, i | c in blocks && 0 <= i < c.size ensures FreeAt(place - {x}, c, i) {
        assert FreeAt(place, c, i);
      }
      assert forall y | y in place - {x} :: old(Stacked(blocks, place, y));
    }

    /** Push onto the stack of a block. */
    static method Push(b: Block, x: nat, ghost blocks: set<Block>, ghost place: map<nat, (Block, nat)>)
      requires StacksOk(blocks, place) && b in blocks && b.size < PM.BLOCK_SIZE && x !in place
      modifies b`size, b.objs
      ensures b.size == old(b.size) + 1 && StacksOk(blocks, place[x := (b, old(b.size))])
    {
      ghost var more := place[x := (b, b.size)];
      b.objs[b.size] := x;
      b.size := b.size + 1;
      forall c, i | c in blocks && 0 <= i < c.size ensures FreeAt(more, c, i) {
        assert c != b || i < old(b.size) ==> old(FreeAt(place, c, i));
      }
      assert forall y | y in place :: old(Stacked(blocks, place, y));
    }

    /** Pop a free object from the current block. */
    method Take() returns (x: nat)
      requires Consistent() && cursor != null && shape.current > 0
      modifies this`live, this`place, this`shape, cursor`size
      ensures Consistent() && cursor == old(cursor)
      ensures x !in old(live) && live == old(live) + {x} && x < obtained
      ensures shape == PM.Taken(old(shape))
    {
      hide Linked, StacksOk;
      Cursor();
      x := Pop(cursor, blocks, place);
      place := place - {x};
      live := live + {x};
      shape := PM.Taken(shape);
    }

    /** Push an object onto the current block. */
    method Give(x: nat)
      requires Consistent() && cursor != null && shape.current < PM.BLOCK_SIZE && x in live
      modifies this`live, this`place, this`shape, cursor`size, cursor.objs
      ensures Consistent() && cursor == old(cursor) && live == old(live) - {x}
      ensures shape == old(shape).(current := old(shape).current + 1, live := old(shape).live - 1)
    {
      hide Linked, StacksOk;
      Cursor();
      Push(cursor, x, blocks, place);
      place := place[x := (cursor, cursor.size - 1)];
      live := live - {x};
      shape := shape.(current := shape.current + 1, live := shape.live - 1);
    }

    /** The loop that spreads a batch over the current block. */
    method Spread(b: Block, base: nat) returns (ghost batch: map<nat, (Block, nat)>)
      requires b.objs.Length == PM.BLOCK_SIZE && 1 <= step <= PM.BLOCK_SIZE
      modifies b.objs
      ensures forall k | 0 <= k < step :: b.objs[k] == base + k
      ensures forall x: nat :: x in batch <==> base <= x < base + step
      ensures forall x | x in batch :: batch[x] == (b, x - base)
    {
      batch := map[];
      for i := 0 to step
        invariant forall k | 0 <= k < i :: b.objs[k] == base + k
        invariant forall x: nat :: x in batch <==> base <= x < base + i
        invariant forall x | x in batch :: batch[x] == (b, x - base)
      {
        b.objs[i] := base + i;
        batch := batch[base + i := (b, i)];
      }
    }

    /** No object is free: a whole batch comes from the system into the current
        block. */
    method Refill()
      requires Consistent() && cursor != null && shape.current == 0 && shape.fulls == 0
      requires 1 <= step <= PM.BLOCK_SIZE
      modifies this`obtained, this`place, this`shape, cursor`size, cursor.objs
      ensures Consistent() && cursor == old(cursor)
      ensures old(place) == map[]
      ensures shape == old(shape).(current := step, obtained := old(shape).obtained + step)
    {
      hide Linked, StacksOk;
      NothingFree();
      ghost var batch := Spread(cursor, obtained);
      cursor.size := step;
      place := batch;
      obtained := obtained + step;
      shape := shape.(current := step, obtained := shape.obtained + step);
      FullStack(blocks, batch, cursor, old(obtained), step);
    }

    lemma NothingFree()
      requires Consistent() && cursor != null && shape.current == 0 && shape.fulls == 0
      ensures place == map[] && forall b | b in blocks :: b.size == 0 && b.objs.Length == PM.BLOCK_SIZE
      ensures forall c, d | c in blocks && d in blocks && c != d :: c.objs != d.objs
    {
      hide Linked, NoRepeats;
      assert forall b | b in blocks :: b in ring;
      hide StacksOk;
      forall x ensures x !in place {
        if x in place {
          HasStack(x);
          assert false;
        }
      }
    }

    /** A free object lies on the stack of some block. */
    lemma HasStack(x: nat)
      requires StacksOk(blocks, place) && x in place
      ensures exists b | b in blocks :: b.size > 0
    {
      assert Stacked(blocks, place, x);
    }

    /** `alloc`: never an object that is live, and a new batch from the system
        only when no object is free. */
    method Alloc() returns (x: nat)
      requires Valid()
      modifies this, blocks, set b | b in blocks :: b.objs
      ensures Valid() && x !in old(live) && live == old(live) + {x} && x < obtained
      ensures shape == PM.Alloc(old(shape), step)
      ensures obtained > old(obtained) ==> old(place) == map[]
      ensures forall b | b in blocks :: b in old(blocks) || (fresh(b) && fresh(b.objs))
    {
      hide Linked, NoRepeats, StacksOk, Partition, Shaped;
      PM.AllocSound(shape, step);
      Cursor();
      if cursor == null {
        Start();
      }
      if cursor.size == 0 {
        StepBack();
        Cursor();
        if cursor.size == 0 {
          Refill();
        }
      }
      Cursor();
      x := Take();
    }

    lemma Cursor()
      requires Consistent()
      ensures cursor == null <==> !shape.started
      ensures cursor != null ==> cursor.size == shape.current && cursor in blocks && cursor.prev in blocks
    {
      hide NoRepeats, StacksOk, Partition;
      if cursor != null {
        assert LinkAt(ring, |ring| - 1);
      }
    }

    /** `free` of a live object. */
    method Free(x: nat)
      requires Valid() && x in live
      modifies this, blocks, set b | b in blocks :: b.objs
      ensures Valid() && live == old(live) - {x} && obtained == old(obtained)
      ensures shape == PM.Free(old(shape))
      ensures forall b | b in blocks :: b in old(blocks) || (fresh(b) && fresh(b.objs))
    {
      hide Linked, NoRepeats, StacksOk, Partition, Shaped;
      PM.FreeSound(shape, step);
      Cursor();
      if cursor.size == PM.BLOCK_SIZE {
        StepForward();
        Cursor();
        if cursor.size == PM.BLOCK_SIZE {
          AddBlock();
        }
      }
      Give(x);
    }
  }
}
