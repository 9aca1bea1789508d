/** The chained hash table of src/hash.h on the heap: buckets of linked nodes,
    rehashed in place up a table of primes.  `nodes` is the set of all nodes; a
    resize moves them without touching keys or values, so it keeps the multiset
    of entries even when keys repeat. */
module HashTable {
  import opened Common
  import opened Primes

  class HNode<K, V> {
    const key: K
    var value: V
    var next: HNode?<K, V>

    constructor (key: K, value: V)
      ensures this.key == key && this.value == value && next == null
    {
      this.key, this.value, next := key, value, null;
    }
  }

  /** A place that holds a link: a bucket header or a node. */
  datatype Slot<K, V> = Bucket(index: nat) | After(node: HNode<K, V>)

  /** Following `next` from `first` runs through exactly `chain` and ends. */
  ghost predicate Chained<K, V>(first: HNode?<K, V>, chain: seq<HNode<K, V>>)
    reads chain`next
  {
    first == At(chain, 0) && forall j | 0 <= j < |chain| :: LinkAt(chain, j)
  }

  function At<K, V>(chain: seq<HNode<K, V>>, j: nat): HNode?<K, V> {
    if j < |chain| then chain[j] else null
  }

  ghost predicate LinkAt<K, V>(chain: seq<HNode<K, V>>, j: nat)
    requires j < |chain|
    reads chain`next
  {
    chain[j].next == At(chain, j + 1)
  }

  lemma ChainPush<K, V>(node: HNode<K, V>, chain: seq<HNode<K, V>>)
    requires Chained(node.next, chain)
    ensures Chained(node, [node] + chain)
  {
    var c := [node] + chain;
    forall j | 0 <= j < |c| ensures LinkAt(c, j) {
      assert j > 0 ==> LinkAt(chain, j - 1);
    }
  }

  /** A chain whose link at `j - 1` skips one node is the chain without it. */
  lemma ChainCut<K, V>(first: HNode?<K, V>, chain: seq<HNode<K, V>>, j: nat)
    requires 0 < j < |chain| && first == chain[0]
    requires chain[j - 1].next == At(chain, j + 1)
    requires forall i | 0 <= i < |chain| && i != j - 1 :: LinkAt(chain, i)
    ensures Chained(first, RemoveAt(chain, j))
  {
    var c := RemoveAt(chain, j);
    forall i | 0 <= i < |c| ensures LinkAt(c, i) {
      assert i < j - 1 ==> LinkAt(chain, i);
      assert i > j - 1 ==> LinkAt(chain, i + 1);
    }
  }

  lemma ChainPop<K, V>(first: HNode?<K, V>, chain: seq<HNode<K, V>>)
    requires Chained(first, chain) && chain != []
    ensures first == chain[0] && Chained(chain[0].next, chain[1..])
  {
    var c := chain[1..];
    assert LinkAt(chain, 0);
    forall j | 0 <= j < |c| ensures LinkAt(c, j) {
      assert LinkAt(chain, j + 1);
    }
  }

  /** `index` finds the node of each key, and no two nodes share one. */
  ghost predicate IndexedBy<K, V>(nodes: set<HNode<K, V>>, index: map<K, HNode<K, V>>) {
    && (forall n | n in nodes :: n.key in index && index[n.key] == n)
    && (forall k | k in index :: index[k] in nodes && index[k].key == k)
  }

  lemma IndexAdd<K, V>(nodes: set<HNode<K, V>>, index: map<K, HNode<K, V>>, n: HNode<K, V>)
    requires IndexedBy(nodes, index) && n.key !in index
    ensures IndexedBy(nodes + {n}, index[n.key := n])
  {
  }

  lemma IndexDrop<K, V>(nodes: set<HNode<K, V>>, index: map<K, HNode<K, V>>, n: HNode<K, V>)
    requires IndexedBy(nodes, index) && n in nodes
    ensures IndexedBy(nodes - {n}, index - {n.key})
  {
  }

  class Table<K(==), V> {
    const hash: K -> nat
    var table: array<HNode?<K, V>>
    var tableSize: nat
    var elementCount: nat
    ghost var chains: seq<seq<HNode<K, V>>>
    ghost var nodes: set<HNode<K, V>>
    ghost var load: Load
    ghost var unique: bool
    ghost var byKey: map<K, HNode<K, V>>

    /** Bucket `i` of a table of `size` buckets. */
    ghost predicate BucketOk(first: HNode?<K, V>, chain: seq<HNode<K, V>>, i: nat, size: nat, S: set<HNode<K, V>>)
      requires size > 0
      reads S`next
    {
      && NoRepeats(chain)
      && (forall n | n in chain :: n in S && hash(n.key) % size == i)
      && Chained(first, chain)
    }

    lemma BucketPush(node: HNode<K, V>, chain: seq<HNode<K, V>>, i: nat, size: nat, S: set<HNode<K, V>>)
      requires size > 0 && BucketOk(node.next, chain, i, size, S) && node !in S && hash(node.key) % size == i
      ensures BucketOk(node, [node] + chain, i, size, S + {node})
    {
      ChainPush(node, chain);
    }

    lemma BucketPop(first: HNode?<K, V>, chain: seq<HNode<K, V>>, i: nat, size: nat, S: set<HNode<K, V>>)
      requires size > 0 && BucketOk(first, chain, i, size, S) && chain != []
      ensures first == chain[0] && BucketOk(chain[0].next, chain[1..], i, size, S - {chain[0]})
    {
      ChainPop(first, chain);
      assert forall n | n in chain[1..] :: n in chain && n != chain[0];
    }

    /** The buckets of `t` hold exactly the nodes of `S`, each in its own bucket. */
    ghost predicate Buckets(t: array<HNode?<K, V>>, c: seq<seq<HNode<K, V>>>, S: set<HNode<K, V>>)
      reads t, S`next
    {
      && |c| == t.Length > 0
      && (forall i | 0 <= i < |c| :: BucketOk(t[i], c[i], i, |c|, S))
      && (forall n | n in S :: n in c[hash(n.key) % |c|])
    }

    ghost predicate Valid()
      reads this, table, nodes
      ensures Valid() && unique ==> Indexed()
    {
      && Buckets(table, chains, nodes)
      && table.Length == tableSize
      && elementCount == |nodes| == load.count
      && LoadOk(load) && tableSize == Size(load.level)
      && (unique ==> Indexed())
    }

    /** No key repeats, and `byKey` finds the node of each. */
    ghost predicate Indexed()
      reads this`nodes, this`byKey
    {
      IndexedBy(nodes, byKey)
    }

    /** The finite map the table refines while no key repeats. */
    ghost function Contents(): (m: map<K, V>)
      requires Indexed()
      reads this`nodes, this`byKey, nodes`value
    {
      map k | k in byKey :: byKey[k].value
    }

    /** `hash_new` */
    constructor (hash: K -> nat)
      ensures Valid() && unique && nodes == {} && Contents() == map[] && fresh(table)
      ensures this.hash == hash && load == Fresh()
    {
      this.hash := hash;
      tableSize := Size(0);
      elementCount := 0;
      table := new HNode?<K, V>[Size(0)](_ => null);
      chains := seq(Size(0), _ => []);
      nodes, load, unique, byKey := {}, Fresh(), true, map[];
    }

    /** `insert_noresize`: put a node at the front of its bucket. */
    method InsertNoResize(node: HNode<K, V>, ghost S: set<HNode<K, V>>)
      requires table.Length == tableSize && Buckets(table, chains, S) && node !in S
      modifies this`chains, table, node`next
      ensures Buckets(table, chains, S + {node})
      ensures var p := hash(node.key) % tableSize;
              chains == old(chains)[p := [node] + old(chains)[p]]
    {
      var hashPos := hash(node.key) % tableSize;
      ghost var before := chains;
      assert BucketOk(table[hashPos], before[hashPos], hashPos, |before|, S);
      node.next := table[hashPos];
      BucketPush(node, before[hashPos], hashPos, |before|, S);
      table[hashPos] := node;
      chains := before[hashPos := [node] + before[hashPos]];
      forall i | 0 <= i < |chains| ensures BucketOk(table[i], chains[i], i, |chains|, S + {node}) {
        assert i != hashPos ==> old(BucketOk(table[i], before[i], i, |before|, S));
      }
    }

    /** Unlink the first node of bucket `i` of `t`, as the inner loop of `resize` does. */
    method Unlink(t: array<HNode?<K, V>>, i: nat, ghost c: seq<seq<HNode<K, V>>>, ghost S: set<HNode<K, V>>)
      returns (node: HNode<K, V>)
      requires Buckets(t, c, S) && i < |c| && c[i] != []
      modifies t
      ensures node == c[i][0] && node in S
      ensures Buckets(t, c[i := c[i][1..]], S - {node})
    {
      BucketPop(t[i], c[i], i, |c|, S);
      node := t[i];
      t[i] := node.next;
      ghost var d, R := c[i := c[i][1..]], S - {node};
      forall b | 0 <= b < |d| ensures BucketOk(t[b], d[b], b, |d|, R) {
        if b != i {
          assert old(BucketOk(t[b], c[b], b, |c|, S));
        }
      }
      forall n | n in R ensures n in d[hash(n.key) % |d|] {
        assert n in c[hash(n.key) % |c|];
      }
    }

    /** Nodes in different sound tables are apart when their sets are. */
    ghost predicate Moving(old_: array<HNode?<K, V>>, rest: seq<seq<HNode<K, V>>>,
                           left: set<HNode<K, V>>, done: set<HNode<K, V>>)
      reads this, old_, table, left, done
    {
      && Buckets(old_, rest, left)
      && Buckets(table, chains, done)
      && table.Length == tableSize
      && left !! done && left + done == nodes
      && old_ != table
    }

    lemma EmptyBucket(t: array<HNode?<K, V>>, c: seq<seq<HNode<K, V>>>, S: set<HNode<K, V>>, b: nat)
      requires Buckets(t, c, S) && b < |c|
      ensures |c| == t.Length && (t[b] == null <==> c[b] == [])
    {
      assert BucketOk(t[b], c[b], b, |c|, S);
    }

    lemma MovingBucket(old_: array<HNode?<K, V>>, rest: seq<seq<HNode<K, V>>>,
                       left: set<HNode<K, V>>, done: set<HNode<K, V>>, b: nat)
      requires Moving(old_, rest, left, done) && b < |rest|
      ensures |rest| == old_.Length && (old_[b] == null <==> rest[b] == [])
    {
      EmptyBucket(old_, rest, left, b);
    }

    lemma NothingLeft(t: array<HNode?<K, V>>, c: seq<seq<HNode<K, V>>>, S: set<HNode<K, V>>)
      requires Buckets(t, c, S) && forall b | 0 <= b < |c| :: c[b] == []
      ensures S == {}
    {
    }

    lemma MovedAll(old_: array<HNode?<K, V>>, rest: seq<seq<HNode<K, V>>>,
                   left: set<HNode<K, V>>, done: set<HNode<K, V>>)
      requires Moving(old_, rest, left, done) && forall b | 0 <= b < |rest| :: rest[b] == []
      ensures Buckets(table, chains, nodes) && table.Length == tableSize && done == nodes
    {
      hide BucketOk;
      NothingLeft(old_, rest, left);
      assert done == nodes;
    }

    /** One turn of the inner loop of `resize`: a node moves between tables. */
    method MoveFirst(oldTable: array<HNode?<K, V>>, b: nat, ghost rest: seq<seq<HNode<K, V>>>,
                     ghost left: set<HNode<K, V>>, ghost done: set<HNode<K, V>>)
      returns (ghost node: HNode<K, V>)
      requires Moving(oldTable, rest, left, done) && b < |rest| && rest[b] != []
      modifies oldTable, this`chains, table, left`next
      ensures node in left && node !in done
      ensures Moving(oldTable, rest[b := rest[b][1..]], left - {node}, done + {node})
    {
      hide Buckets;
      var first := Unlink(oldTable, b, rest, left);
      InsertNoResize(first, done);
      node := first;
    }

    /** The inner loop: bucket `b` of the old table is emptied. */
    method MoveBucket(oldTable: array<HNode?<K, V>>, b: nat, ghost rest0: seq<seq<HNode<K, V>>>,
                      ghost left0: set<HNode<K, V>>, ghost done0: set<HNode<K, V>>)
      returns (ghost rest: seq<seq<HNode<K, V>>>, ghost left: set<HNode<K, V>>, ghost done: set<HNode<K, V>>,
               ghost moved: nat)
      requires Moving(oldTable, rest0, left0, done0) && b < |rest0|
      modifies oldTable, this`chains, table, left0`next
      ensures Moving(oldTable, rest, left, done) && rest == rest0[b := []] && left <= left0
      ensures |done| == |done0| + moved
    {
      hide Moving;
      rest, left, done, moved := rest0, left0, done0, 0;
      MovingBucket(oldTable, rest, left, done, b);
      while oldTable[b] != null
        invariant Moving(oldTable, rest, left, done) && left <= left0
        invariant |done| == |done0| + moved
        invariant |rest| == |rest0| && rest == rest0[b := rest[b]]
        invariant oldTable[b] == null <==> rest[b] == []
        decreases |rest[b]|
      {
        ghost var node := MoveFirst(oldTable, b, rest, left, done);
        rest, left, done, moved := rest[b := rest[b][1..]], left - {node}, done + {node}, moved + 1;
        MovingBucket(oldTable, rest, left, done, b);
      }
    }

    /** The scan for the next size. */
    method NextLevel() returns (i: nat)
      requires elementCount <= LIMIT
      ensures i == LevelFor(elementCount, 0)
    {
      i := 0;
      while Size(i) < elementCount
        invariant i < LEVELS && LevelFor(elementCount, 0) == LevelFor(elementCount, i)
        decreases LEVELS - i
      {
        i := i + 1;
      }
    }

    /** `resize`: nothing but links and the table change. */
    method Resize()
      requires Buckets(table, chains, nodes) && table.Length == tableSize
      requires elementCount == |nodes| == load.count
      requires load.level < LEVELS && tableSize == Size(load.level) && elementCount <= LIMIT
      modifies this`table, this`tableSize, this`chains, this`load, table, nodes`next
      ensures Buckets(table, chains, nodes) && table.Length == tableSize
      ensures table == old(table) || fresh(table)
      ensures load == if Size(old(load).level) < elementCount
                      then Load(LevelFor(elementCount, 0), elementCount, old(load).inserts,
                                old(load).relinks + elementCount)
                      else old(load)
      ensures tableSize == Size(load.level)
    {
      hide Buckets;
      if tableSize < elementCount {
        var i := NextLevel();
        ghost var moved := Rehash(Size(i));
        load := load.(level := i, relinks := load.relinks + moved);
      }
    }

    /** The outer loop of `resize`. */
    method MoveAll(oldTable: array<HNode?<K, V>>, ghost rest0: seq<seq<HNode<K, V>>>) returns (ghost moved: nat)
      requires Moving(oldTable, rest0, nodes, {}) && oldTable.Length == |rest0|
      modifies oldTable, this`chains, table, nodes`next
      ensures Buckets(table, chains, nodes) && table.Length == tableSize
      ensures moved == |nodes|
    {
      hide Moving, Buckets;
      ghost var rest, left, done: set<HNode<K, V>> := rest0, nodes, {};
      moved := 0;
      var b := 0;
      while b < oldTable.Length
        invariant b <= oldTable.Length == |rest|
        invariant Moving(oldTable, rest, left, done) && left <= nodes
        invariant forall k | 0 <= k < b :: rest[k] == []
        invariant moved == |done|
      {
        ghost var m;
        rest, left, done, m := MoveBucket(oldTable, b, rest, left, done);
        moved := moved + m;
        b := b + 1;
      }
      MovedAll(oldTable, rest, left, done);
    }

    /** The body of `resize`: every node moves to a table of the new size. */
    method Rehash(newSize: nat) returns (ghost moved: nat)
      requires Buckets(table, chains, nodes) && table.Length == tableSize && newSize > 0
      modifies this`table, this`tableSize, this`chains, table, nodes`next
      ensures Buckets(table, chains, nodes) && table.Length == tableSize == newSize && fresh(table)
      ensures moved == |nodes|
    {
      hide BucketOk;
      var oldTable := table;
      ghost var rest := chains;
      NewTable(newSize);
      moved := MoveAll(oldTable, rest);
    }

    /** `calloc` of a bucket array */
    method NewTable(newSize: nat)
      requires newSize > 0
      modifies this`table, this`tableSize, this`chains
      ensures fresh(table) && table.Length == tableSize == newSize && Buckets(table, chains, {})
    {
      tableSize := newSize;
      table := new HNode?<K, V>[newSize](_ => null);
      chains := seq(newSize, _ => []);
    }

    /** `hash_insert` up to the resize. */
    method AddNode(n: HNode<K, V>)
      requires Valid() && n !in nodes
      modifies this`chains, this`nodes, this`elementCount, this`unique, this`byKey, table, n`next
      ensures Buckets(table, chains, nodes) && nodes == old(nodes) + {n} && elementCount == |nodes|
      ensures unique ==> Indexed()
      ensures old(unique) && n.key !in old(byKey) ==> unique && byKey == old(byKey)[n.key := n]
    {
      hide Buckets, LoadOk, Size, Indexed;
      InsertNoResize(n, nodes);
      elementCount := elementCount + 1;
      Know(n);
    }

    /** The ghost view takes in a node. */
    ghost method Know(n: HNode<K, V>)
      requires n !in nodes && (unique ==> Indexed())
      modifies this`nodes, this`unique, this`byKey
      ensures nodes == old(nodes) + {n} && |nodes| == |old(nodes)| + 1
      ensures unique ==> Indexed()
      ensures old(unique) && n.key !in old(byKey) ==> unique && byKey == old(byKey)[n.key := n]
    {
      hide IndexedBy;
      if unique && n.key !in byKey {
        IndexAdd(nodes, byKey, n);
      }
      nodes := nodes + {n};
      unique := unique && n.key !in byKey;
      byKey := byKey[n.key := n];
    }

    lemma GrownLoad(l: Load)
      requires LoadOk(l) && l.count < LIMIT
      ensures LoadOk(Inserted(l)) && l.level < LEVELS
      ensures Inserted(l) == if Size(l.level) < l.count + 1
                             then Load(LevelFor(l.count + 1, 0), l.count + 1, l.inserts + 1, l.relinks + l.count + 1)
                             else l.(count := l.count + 1, inserts := l.inserts + 1)
    {
      InsertKeepsLoad(l);
    }

    /** `hash_insert` once the node is allocated. */
    method InsertNode(n: HNode<K, V>)
      requires Valid() && elementCount < LIMIT && n !in nodes
      modifies this`table, this`tableSize, this`chains, this`load
      modifies this`nodes, this`elementCount, this`unique, this`byKey, table, nodes`next, n`next
      ensures Valid() && (table == old(table) || fresh(table))
      ensures nodes == old(nodes) + {n} && elementCount == old(elementCount) + 1
      ensures load == Inserted(old(load))
      ensures old(unique) && n.key !in old(byKey) ==> unique && byKey == old(byKey)[n.key := n]
    {
      hide Buckets, LevelFor, Inserted, Indexed, Size, LoadOk;
      AddNode(n);
      load := load.(count := load.count + 1, inserts := load.inserts + 1);
      GrownLoad(old(load));
      Resize();
    }

    /** `hash_insert`; keys are not checked for repeats. */
    method Insert(key: K, value: V) returns (ghost node: HNode<K, V>)
      requires Valid() && elementCount < LIMIT
      modifies this, table, nodes`next
      ensures Valid() && (table == old(table) || fresh(table))
      ensures fresh(node) && node.key == key && node.value == value && nodes == old(nodes) + {node}
      ensures elementCount == old(elementCount) + 1
      ensures load == Inserted(old(load))
      ensures old(unique) && key !in old(byKey) ==>
                unique && Contents() == old(Contents())[key := value]
    {
      hide Buckets, LoadOk, Inserted, Size;
      var n := new HNode(key, value);
      InsertNode(n);
      node := n;
    }

    /** `find_prev_node`: the place whose link leads to the first node of its
        bucket with this key. */
    method FindPrevNode(key: K) returns (r: Option<Slot<K, V>>, ghost j: nat)
      requires Valid()
      ensures r.None? ==> forall n | n in nodes :: n.key != key
      ensures r.Some? ==> SlotAt(r.value, hash(key) % tableSize, j)
      ensures r.Some? ==> var chain := chains[hash(key) % tableSize];
                          chain[j].key == key && forall i | 0 <= i < j :: chain[i].key != key
    {
      var p := hash(key) % tableSize;
      assert BucketOk(table[p], chains[p], p, |chains|, nodes);
      var slot, next := Slot.Bucket(p), table[p];
      j := 0;
      while next != null
        invariant j <= |chains[p]| && next == At(chains[p], j)
        invariant forall i | 0 <= i < j :: chains[p][i].key != key
        invariant slot == if j == 0 then Slot.Bucket(p) else After(chains[p][j - 1])
        decreases |chains[p]| - j
      {
        if next.key == key {
          return Some(slot), j;
        }
        assert LinkAt(chains[p], j);
        slot, next := After(next), next.next;
        j := j + 1;
      }
      r := None;
    }

    /** `slot` is the place whose link leads to position `j` of bucket `p`. */
    ghost predicate SlotAt(slot: Slot<K, V>, p: nat, j: nat)
      reads this
    {
      p < |chains| && j < |chains[p]| &&
      slot == if j == 0 then Slot.Bucket(p) else After(chains[p][j - 1])
    }

    /** `hash_find`: the value, or nothing for the NULL of the source. */
    method Find(key: K) returns (r: Option<V>)
      requires Valid()
      ensures r.None? <==> forall n | n in nodes :: n.key != key
      ensures r.Some? ==> exists n | n in nodes :: n.key == key && n.value == r.value
      ensures unique ==> r == if key in Contents() then Some(Contents()[key]) else None
    {
      var slot, j := FindPrevNode(key);
      ghost var p := hash(key) % tableSize;
      assert BucketOk(table[p], chains[p], p, |chains|, nodes);
      if slot.None? {
        r := None;
      } else {
        ghost var found := chains[p][j];
        assert found in chains[p] && found in nodes;
        if slot.value.Bucket? {
          r := Some(table[slot.value.index].value);
        } else {
          assert LinkAt(chains[p], j - 1);
          r := Some(slot.value.node.next.value);
        }
      }
    }

    /** Unlink the node after `node`, which stands at position `j - 1` of bucket `p`. */
    method CutAfter(node: HNode<K, V>, ghost p: nat, ghost j: nat) returns (erased: HNode<K, V>)
      requires Buckets(table, chains, nodes) && p < |chains| && 0 < j < |chains[p]| && node == chains[p][j - 1]
      modifies node`next
      ensures erased == chains[p][j] && erased in nodes
      ensures Buckets(table, chains[p := RemoveAt(chains[p], j)], nodes - {erased})
    {
      ghost var chain, after := chains[p], chains[p := RemoveAt(chains[p], j)];
      assert BucketOk(table[p], chain, p, |chains|, nodes);
      assert LinkAt(chain, j - 1) && LinkAt(chain, j);
      erased := node.next;
      node.next := erased.next;
      forall i | 0 <= i < |chain| && i != j - 1 ensures LinkAt(chain, i) {
        assert old(LinkAt(chain, i));
      }
      ChainCut(table[p], chain, j);
      RemoveNoRepeats(chain, j);
      CutRest(chains, p, j);
      forall b | 0 <= b < |after| ensures BucketOk(table[b], after[b], b, |after|, nodes - {erased}) {
        if b != p {
          assert old(BucketOk(table[b], chains[b], b, |chains|, nodes));
        }
      }
    }

    /** The link change of `erase_next_node`. */
    method CutNext(slot: Slot<K, V>, ghost p: nat, ghost j: nat) returns (erased: HNode<K, V>)
      requires Buckets(table, chains, nodes) && SlotAt(slot, p, j)
      modifies this`chains, table, nodes`next
      ensures erased == old(chains)[p][j] && erased in nodes
      ensures Buckets(table, chains, nodes - {erased})
      ensures chains == old(chains)[p := RemoveAt(old(chains)[p], j)]
    {
      assert BucketOk(table[p], chains[p], p, |chains|, nodes);
      if slot.Bucket? {
        erased := Unlink(table, slot.index, chains, nodes);
        assert RemoveAt(chains[p], 0) == chains[p][1..];
      } else {
        erased := CutAfter(slot.node, p, j);
      }
      chains := chains[p := RemoveAt(chains[p], j)];
    }

    lemma CutRest(before: seq<seq<HNode<K, V>>>, p: nat, j: nat)
      requires p < |before| && j < |before[p]| && NoRepeats(before[p])
      requires forall n | n in nodes :: n in before[hash(n.key) % |before|]
      requires forall n | n in before[p] :: n in nodes && hash(n.key) % |before| == p
      ensures var after := before[p := RemoveAt(before[p], j)];
              forall n | n in nodes - {before[p][j]} :: n in after[hash(n.key) % |before|]
      ensures forall n | n in RemoveAt(before[p], j) :: n in before[p] && n != before[p][j]
    {
      var after := before[p := RemoveAt(before[p], j)];
      forall n | n in nodes - {before[p][j]} ensures n in after[hash(n.key) % |before|] {
        if hash(n.key) % |before| == p {
          var i :| 0 <= i < |before[p]| && before[p][i] == n;
          assert RemoveAt(before[p], j)[if i < j then i else i - 1] == n;
        }
      }
    }

    /** `erase_next_node` */
    method EraseNextNode(slot: Slot<K, V>, ghost p: nat, ghost j: nat) returns (v: V)
      requires Valid() && SlotAt(slot, p, j)
      modifies this`chains, this`nodes, this`elementCount, this`load, this`byKey, table, nodes`next
      ensures Valid()
      ensures var n := old(chains)[p][j];
              && n in old(nodes) && nodes == old(nodes) - {n} && v == n.value
              && chains == old(chains)[p := RemoveAt(old(chains)[p], j)]
              && (unique ==> byKey == old(byKey) - {n.key})
      ensures load == Erased(old(load))
    {
      hide Buckets, IndexedBy, Size, RemoveAt, Paid;
      var erased := CutNext(slot, p, j);
      if unique {
        IndexDrop(nodes, byKey, erased);
      }
      nodes := nodes - {erased};
      byKey := byKey - {erased.key};
      v := erased.value;
      elementCount := elementCount - 1;
      load := Erased(load);
    }

    /** `hash_erase` */
    method Erase(key: K) returns (r: Option<V>)
      requires Valid()
      modifies this`chains, this`nodes, this`elementCount, this`load, this`byKey, table, nodes`next
      ensures Valid() && nodes <= old(nodes)
      ensures r.None? ==> nodes == old(nodes) && load == old(load) && byKey == old(byKey) &&
                          forall n | n in nodes :: n.key != key
      ensures r.Some? ==> exists n | n in old(nodes) ::
                n.key == key && n.value == r.value && nodes == old(nodes) - {n}
      ensures unique ==> r == (if key in old(Contents()) then Some(old(Contents())[key]) else None) &&
                         Contents() == old(Contents()) - {key}
    {
      hide Buckets, Size, LoadOk, NoRepeats, RemoveAt;
      var slot, j := FindPrevNode(key);
      if slot.None? {
        r := None;
      } else {
        ghost var n := chains[hash(key) % tableSize][j];
        var v := EraseNextNode(slot.value, hash(key) % tableSize, j);
        assert n in old(nodes);
        r := Some(v);
      }
    }

    /** `hash_has_key` */
    method HasKey(key: K) returns (r: bool)
      requires Valid()
      ensures r <==> exists n | n in nodes :: n.key == key
      ensures unique ==> (r <==> key in Contents())
    {
      var v := Find(key);
      r := v.Some?;
    }

    /** `hash_size` */
    method ElementCount() returns (n: nat)
      requires Valid()
      ensures n == |nodes|
      ensures unique ==> n == |Contents()|
    {
      hide Buckets, Size, LoadOk;
      n := elementCount;
      if unique {
        KeysAreNodes(nodes, byKey);
        assert Contents().Keys == byKey.Keys;
      }
    }

    /** `hash_insert_replace` */
    method InsertReplace(key: K, value: V) returns (r: Option<V>)
      requires Valid() && elementCount < LIMIT
      modifies this, table, nodes
      ensures Valid()
      ensures old(unique) ==> unique && Contents() == old(Contents())[key := value] &&
                              r == if key in old(Contents()) then Some(old(Contents())[key]) else None
      ensures |nodes| == old(|nodes|) + (if r.None? then 1 else 0)
    {
      hide Buckets, Size, LoadOk, Inserted;
      var slot, j := FindPrevNode(key);
      if slot.None? {
        r := None;
        ghost var node := Insert(key, value);
      } else {
        var node := NodeAfter(slot.value, hash(key) % tableSize, j);
        r := Some(node.value);
        node.value := value;
      }
    }

    /** The node a link leads to. */
    method NodeAfter(slot: Slot<K, V>, ghost p: nat, ghost j: nat) returns (n: HNode<K, V>)
      requires Buckets(table, chains, nodes) && SlotAt(slot, p, j)
      ensures n == chains[p][j] && n in nodes
    {
      assert BucketOk(table[p], chains[p], p, |chains|, nodes);
      if slot.Bucket? {
        n := table[slot.index];
      } else {
        assert LinkAt(chains[p], j - 1);
        n := slot.node.next;
      }
    }

    /** The inner loop of `hash_clear`. */
    method ClearBucket(i: nat)
      requires Valid() && i < |chains|
      modifies this`chains, this`nodes, this`elementCount, this`load, this`byKey, table, nodes`next
      ensures Valid() && nodes <= old(nodes) && chains == old(chains)[i := []]
      ensures load == old(load).(count := load.count)
    {
      hide Size, LoadOk, IndexedBy, BucketOk;
      EmptyBucket(table, chains, nodes, i);
      while table[i] != null
        invariant Valid() && nodes <= old(nodes)
        invariant |chains| == old(|chains|) && chains == old(chains)[i := chains[i]]
        invariant load == old(load).(count := load.count)
        invariant table[i] == null <==> chains[i] == []
        decreases |chains[i]|
      {
        var v := EraseNextNode(Slot.Bucket(i), i, 0);
        EmptyBucket(table, chains, nodes, i);
      }
    }

    /** `hash_clear`; the table keeps its size. */
    method Clear()
      requires Valid()
      modifies this`chains, this`nodes, this`elementCount, this`load, this`byKey, table, nodes`next
      ensures Valid() && nodes == {} && elementCount == 0
      ensures load == old(load).(count := 0)
      ensures unique ==> Contents() == map[]
    {
      hide Size, LoadOk, BucketOk;
      var i := 0;
      while i < tableSize
        invariant Valid() && nodes <= old(nodes) && i <= tableSize == |chains|
        invariant forall k | 0 <= k < i :: chains[k] == []
        invariant load == old(load).(count := load.count)
      {
        ClearBucket(i);
        i := i + 1;
      }
      NothingLeft(table, chains, nodes);
    }

    /** `hash_iterate`: the nodes in the order the callback sees them, each
        node of the table exactly once. */
    method Iterate() returns (visited: seq<HNode<K, V>>)
      requires Valid()
      ensures NoRepeats(visited)
      ensures forall n :: n in visited <==> n in nodes
    {
      hide Size, LoadOk, IndexedBy;
      visited := [];
      var i := 0;
      while i < tableSize
        invariant i <= tableSize && NoRepeats(visited)
        invariant forall n | n in visited :: n in nodes && hash(n.key) % tableSize < i
        invariant forall n | n in nodes && hash(n.key) % tableSize < i :: n in visited
      {
        var before := visited;
        assert BucketOk(table[i], chains[i], i, |chains|, nodes);
        var node := table[i];
        ghost var j := 0;
        while node != null
          invariant j <= |chains[i]| && node == At(chains[i], j)
          invariant visited == before + chains[i][..j]
          decreases |chains[i]| - j
        {
          assert LinkAt(chains[i], j);
          visited := visited + [node];
          node := node.next;
          j := j + 1;
        }
        assert visited == before + chains[i];
        NoRepeatsConcat(before, chains[i]);
        i := i + 1;
      }
    }
  }

  lemma {:induction false} KeysAreNodes<K, V>(nodes: set<HNode<K, V>>, index: map<K, HNode<K, V>>)
    requires IndexedBy(nodes, index)
    ensures |index| == |nodes|
    decreases |nodes|
  {
    if n :| n in nodes {
      IndexDrop(nodes, index, n);
      KeysAreNodes(nodes - {n}, index - {n.key});
      assert (index - {n.key}).Keys == index.Keys - {n.key};
    } else {
      assert index.Keys == {};
    }
  }
}
