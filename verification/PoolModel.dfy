/** The shape of the object pool of src/allocator.h over a run: how many blocks
    are empty or full, how many objects are live, and how many were ever
    obtained from the system. */
module PoolModel {
  import opened Common

  const BLOCK_SIZE: nat := 4096

  /** The number of objects obtained at once: 128 KiB worth, but never more
      than a block holds. */
  function AllocStep(objectSize: nat): (step: nat)
    requires objectSize > 0
    ensures 1 <= step <= BLOCK_SIZE
    ensures (step - 1) * objectSize < 128 * 1024
    ensures step < BLOCK_SIZE ==> 128 * 1024 <= step * objectSize
  {
    var needed := (objectSize + 128 * 1024 - 1) / objectSize;
    CeilingBounds(objectSize, 128 * 1024);
    ProductGrows(BLOCK_SIZE - 1, needed - 1, objectSize);
    if needed > BLOCK_SIZE then BLOCK_SIZE else needed
  }

  /** Division rounded up. */
  lemma CeilingBounds(d: nat, n: nat)
    requires d > 0 && n > 0
    ensures var q := (d + n - 1) / d; q >= 1 && (q - 1) * d < n <= q * d
  {
    var q := (d + n - 1) / d;
    assert q * d + (d + n - 1) % d == d + n - 1;
    assert (q - 1) * d == q * d - d;
  }

  lemma ProductGrows(a: int, b: int, d: nat)
    ensures a <= b ==> a * d <= b * d
  {
    if a <= b {
      assert b * d - a * d == (b - a) * d;
    }
  }

  /** `current` objects are free in the current block, `empties` blocks follow it
      and hold nothing, `fulls` blocks follow those and hold a full load. */
  datatype Shape = Shape(started: bool, current: nat, empties: nat, fulls: nat, live: nat, obtained: nat, peak: nat)

  function Blocks(s: Shape): nat {
    if s.started then 1 + s.empties + s.fulls else 0
  }

  function FreeObjects(s: Shape): nat {
    s.current + BLOCK_SIZE * s.fulls
  }

  function Unstarted(): Shape {
    Shape(false, 0, 0, 0, 0, 0, 0)
  }

  /** Taking one object from the current block. */
  function Taken(s: Shape): Shape
    requires s.current > 0
  {
    s.(current := s.current - 1, live := s.live + 1, peak := Max(s.peak, s.live + 1))
  }

  function Alloc(s: Shape, step: nat): Shape
    requires step > 0
  {
    var s0 := s.(started := true);
    if s0.current > 0 then Taken(s0)
    else if s0.fulls > 0 then Taken(s0.(current := BLOCK_SIZE, fulls := s0.fulls - 1, empties := s0.empties + 1))
    else Taken(s0.(current := step, obtained := s0.obtained + step))
  }

  function Free(s: Shape): Shape
    requires s.live > 0
  {
    var s0 := s.(live := s.live - 1);
    if s0.current < BLOCK_SIZE then s0.(current := s0.current + 1)
    else if s0.empties > 0 then s0.(current := 1, empties := s0.empties - 1, fulls := s0.fulls + 1)
    else s0.(current := 1, fulls := s0.fulls + 1)
  }

  /** Free and live objects make up the pool; it never holds a batch more than
      was live at some moment, and never a block more than it fills. */
  ghost predicate Sound(s: Shape, step: nat) {
    && 1 <= step <= BLOCK_SIZE
    && s.current <= BLOCK_SIZE
    && FreeObjects(s) + s.live == s.obtained
    && s.live <= s.peak
    && (!s.started ==> s == Unstarted())
    && (s.obtained > 0 ==> s.obtained <= s.peak + step - 1)
    && (s.started && s.obtained == 0 ==> s.empties == s.fulls == 0)
    && (s.obtained > 0 ==> BLOCK_SIZE * (s.empties + s.fulls) < s.obtained)
  }

  lemma AllocSound(s: Shape, step: nat)
    requires Sound(s, step)
    ensures Sound(Alloc(s, step), step)
    ensures Alloc(s, step).obtained == s.obtained + if FreeObjects(s) == 0 then step else 0
    ensures Alloc(s, step).live == s.live + 1 && Alloc(s, step).peak == Max(s.peak, s.live + 1)
    ensures Blocks(Alloc(s, step)) == Max(Blocks(s), 1)
  {
  }

  lemma FreeSound(s: Shape, step: nat)
    requires Sound(s, step) && s.live > 0
    ensures Sound(Free(s), step)
    ensures Blocks(Free(s)) == Blocks(s) + if FreeObjects(s) == BLOCK_SIZE * Blocks(s) then 1 else 0
    ensures FreeObjects(Free(s)) == FreeObjects(s) + 1 && Free(s).live == s.live - 1
    ensures Free(s).obtained == s.obtained && Free(s).peak == s.peak
  {
  }

  datatype PoolOp = AllocOp | FreeOp

  /** A run of allocations and frees of live objects. */
  function RunPool(s: Shape, step: nat, ops: seq<PoolOp>): Option<Shape>
    requires step > 0
    decreases |ops|
  {
    if ops == [] then Some(s)
    else if ops[0].AllocOp? then RunPool(Alloc(s, step), step, ops[1..])
    else if s.live > 0 then RunPool(Free(s), step, ops[1..])
    else None
  }

  lemma {:induction false} RunSound(s: Shape, step: nat, ops: seq<PoolOp>)
    requires Sound(s, step)
    ensures RunPool(s, step, ops).Some? ==> Sound(RunPool(s, step, ops).value, step)
    decreases |ops|
  {
    if ops != [] {
      if ops[0].AllocOp? {
        AllocSound(s, step);
        RunSound(Alloc(s, step), step, ops[1..]);
      } else if s.live > 0 {
        FreeSound(s, step);
        RunSound(Free(s), step, ops[1..]);
      }
    }
  }

  /** Pool memory is bounded over every run, whatever the size of the objects:
      fewer than one batch more objects than were ever live together, and
      fewer blocks than would be needed to hold them all and one more. */
  lemma MemoryBounded(objectSize: nat, ops: seq<PoolOp>)
    requires objectSize > 0
    ensures var r := RunPool(Unstarted(), AllocStep(objectSize), ops);
            r.Some? && r.value.obtained > 0 ==>
              && r.value.obtained <= r.value.peak + AllocStep(objectSize) - 1
              && (Blocks(r.value) - 1) * BLOCK_SIZE < r.value.obtained
              && FreeObjects(r.value) + r.value.live == r.value.obtained
  {
    RunSound(Unstarted(), AllocStep(objectSize), ops);
  }
}
