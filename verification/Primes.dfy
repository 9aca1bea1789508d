/** The table of bucket counts of src/hash.h and the cost of growing through it. */
module Primes {
  import opened Common

  const PRIMES: seq<nat> := [
    53, 97, 193, 389, 769,
    1543, 3079, 6151, 12289, 24593,
    49157, 98317, 196613, 393241, 786433,
    1572869, 3145739, 6291469, 12582917, 25165843,
    50331653, 100663319, 201326611, 402653189, 805306457,
    1610612741, 3221225473, 4294967291
  ]

  const LEVELS: nat := 28

  /** The number of buckets at a level. */
  function Size(level: nat): (size: nat)
    requires level < LEVELS
    ensures size > 0
  {
    assert |PRIMES| == LEVELS;
    PRIMES[level]
  }

  /** The largest number of elements the table can grow for. */
  const LIMIT: nat := 4294967291

  /** Each step up the table is by at least one half, so a table about to grow
      has seen most of its elements inserted since it last grew. */
  lemma Growth(k: nat)
    requires 0 < k < LEVELS - 1
    ensures 3 * (Size(k - 1) + 1) <= 2 * (Size(k) + 1)
  {
  }

  lemma Ascending(k: nat)
    requires k + 1 < LEVELS
    ensures Size(k) + 1 <= Size(k + 1)
  {
  }

  /** The scan of `resize`: the first level that holds `count` elements. */
  function LevelFor(count: nat, k: nat): (level: nat)
    requires count <= LIMIT && k < LEVELS
    ensures k <= level < LEVELS && count <= Size(level)
    ensures forall j | k <= j < level :: Size(j) < count
    decreases LEVELS - k
  {
    if Size(k) < count then LevelFor(count, k + 1) else k
  }

  /** The scan stops inside the table exactly for counts up to the last prime. */
  lemma ScanStops(count: nat)
    ensures (exists k | 0 <= k < LEVELS :: count <= Size(k)) <==> count <= LIMIT
  {
    if k :| 0 <= k < LEVELS && count <= Size(k) {
      BelowLimit(k);
    }
    assert Size(LEVELS - 1) == LIMIT;
  }

  lemma {:induction false} BelowLimit(k: nat)
    requires k < LEVELS
    ensures Size(k) <= LIMIT
    decreases LEVELS - k
  {
    if k + 1 < LEVELS {
      Ascending(k);
      BelowLimit(k + 1);
    }
  }

  lemma {:induction false} Monotone(j: nat, k: nat)
    requires j <= k < LEVELS
    ensures Size(j) <= Size(k)
    decreases k - j
  {
    if j < k {
      Ascending(j);
      Monotone(j + 1, k);
    }
  }

  // ----- the load of a table over a run -----

  /** How full a table is, how often it was inserted into, and how many nodes
      its resizes have moved altogether. */
  datatype Load = Load(level: nat, count: nat, inserts: nat, relinks: nat)

  function Fresh(): Load {
    Load(0, 0, 0, 0)
  }

  function Inserted(l: Load): Load
    requires l.level < LEVELS && l.count < LIMIT
  {
    if Size(l.level) < l.count + 1
    then Load(LevelFor(l.count + 1, 0), l.count + 1, l.inserts + 1, l.relinks + l.count + 1)
    else l.(count := l.count + 1, inserts := l.inserts + 1)
  }

  function Erased(l: Load): Load
    requires l.count > 0
  {
    l.(count := l.count - 1)
  }

  /** The nodes moved on the way up to a level when no insert is wasted. */
  function Paid(level: nat): nat
    requires level < LEVELS
  {
    if level == 0 then 0 else Paid(level - 1) + Size(level - 1) + 1
  }

  lemma {:induction false} PaidBound(level: nat)
    requires 0 < level < LEVELS
    ensures Paid(level) <= 3 * (Size(level - 1) + 1)
  {
    if level > 1 {
      PaidBound(level - 1);
      Growth(level - 1);
    }
  }

  /** Between operations the table is never over-full, and every resize has been
      paid for by inserts. */
  ghost predicate LoadOk(l: Load) {
    && l.level < LEVELS
    && l.count <= Size(l.level)
    && l.count <= l.inserts
    && l.relinks <= Paid(l.level)
    && (l.level > 0 ==> Size(l.level - 1) + 1 <= l.inserts)
  }

  lemma LastSize()
    ensures Size(LEVELS - 1) == LIMIT
  {
  }

  lemma PaidNext(level: nat)
    requires level + 1 < LEVELS
    ensures Paid(level + 1) == Paid(level) + Size(level) + 1
  {
  }

  /** An insert moves the table up by one level when it would be over-full, and
      not at all otherwise; what it moves has been paid for. */
  lemma InsertKeepsLoad(l: Load)
    requires LoadOk(l) && l.count < LIMIT
    ensures LoadOk(Inserted(l))
    ensures Inserted(l).level == if Size(l.level) < l.count + 1 then l.level + 1 else l.level
  {
    hide Size, Paid, LevelFor;
    Monotone(l.level, LEVELS - 1);
    LastSize();
    if Size(l.level) < l.count + 1 {
      Ascending(l.level);
      PaidNext(l.level);
      var next := LevelFor(l.count + 1, 0);
      if l.level < next {
      } else {
        Monotone(next, l.level);
      }
      assert next == l.level + 1;
    }
  }

  lemma RelinksPaid(l: Load)
    requires LoadOk(l)
    ensures l.relinks <= 3 * l.inserts
  {
    if l.level > 0 {
      PaidBound(l.level);
    }
  }

  datatype HashOp = InsertOp | EraseOp | ClearOp

  predicate Allowed(l: Load, op: HashOp) {
    match op
    case InsertOp => l.level < LEVELS && l.count < LIMIT
    case EraseOp => l.count > 0
    case ClearOp => true
  }

  /** A run of inserts, successful erases and clears; `None` if the environment
      exceeds the last prime or erases from an empty table. */
  function RunLoad(l: Load, ops: seq<HashOp>): Option<Load>
    decreases |ops|
  {
    if ops == [] then Some(l)
    else if !Allowed(l, ops[0]) then None
    else
      RunLoad(match ops[0]
              case InsertOp => Inserted(l)
              case EraseOp => Erased(l)
              case ClearOp => l.(count := 0), ops[1..])
  }

  lemma {:induction false} RunKeepsLoad(l: Load, ops: seq<HashOp>)
    requires LoadOk(l)
    ensures RunLoad(l, ops).Some? ==> LoadOk(RunLoad(l, ops).value)
    decreases |ops|
  {
    if ops != [] && Allowed(l, ops[0]) {
      match ops[0] {
        case InsertOp =>
          InsertKeepsLoad(l);
          RunKeepsLoad(Inserted(l), ops[1..]);
        case EraseOp => RunKeepsLoad(Erased(l), ops[1..]);
        case ClearOp => RunKeepsLoad(l.(count := 0), ops[1..]);
      }
    }
  }

  /** Over any run, the elements never outnumber the buckets between operations,
      and all resizes together move at most three nodes per insert. */
  lemma GrowthIsAmortised(ops: seq<HashOp>)
    ensures var r := RunLoad(Fresh(), ops);
            r.Some? ==> r.value.level < LEVELS && r.value.count <= Size(r.value.level) &&
                        r.value.relinks <= 3 * r.value.inserts
  {
    RunKeepsLoad(Fresh(), ops);
    if RunLoad(Fresh(), ops).Some? {
      RelinksPaid(RunLoad(Fresh(), ops).value);
    }
  }
}
