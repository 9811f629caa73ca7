/** The chained hash map: insertion, lookup, deletion and relinking in place. */
module HashMaps {
  import opened Bits
  import opened Powers
  import opened Variants
  import opened Chains
  import opened Sequences
  import opened Relinking
  import opened Occupancy

  const MAX_BUCKETS: nat := 0x2000_0000_0000_0000

  /** Which of the allocations an operation may make would succeed. */
  datatype Memory = Memory(table: bool, key: bool, value: bool, node: bool)

  /** The chains hold the nodes, each in its bucket, and one for each key. */
  ghost predicate Stored(chains: seq<seq<Node>>, repr: set<Node>, nodes: map<Variant, Node>, seed: Word64, count: nat)
    requires |chains| > 0
  {
    Placed(chains) && Covers(chains, repr) && Keyed(nodes, repr, seed) && count == |nodes|
  }

  lemma StoredWith(chains: seq<seq<Node>>, repr: set<Node>, nodes: map<Variant, Node>, seed: Word64, count: nat, n: Node)
    requires |chains| > 0 && Stored(chains, repr, nodes, seed, count)
    requires Acceptable(n.key) && n.hash == Hash(n.key, seed) && Canon(n.key) !in nodes && n !in repr
    ensures Stored(Pushed(chains, n), repr + {n}, nodes[Canon(n.key) := n], seed, count + 1)
  {
    hide Hash, Canon, Acceptable, Placed, Covers, Keyed, Pushed;
    PushedPlaced(chains, repr, n);
    InsertKeyed(nodes, repr, seed, n);
  }

  lemma StoredWithout(chains: seq<seq<Node>>, repr: set<Node>, nodes: map<Variant, Node>, seed: Word64, count: nat, b: nat, j: nat)
    requires b < |chains| && j < |chains[b]| && Stored(chains, repr, nodes, seed, count)
    ensures count > 0
    ensures var n := chains[b][j];
      Placed(chains) && n in repr && Stored(Without(chains, b, j), repr - {n}, nodes - {Canon(n.key)}, seed, count - 1)
  {
    hide Hash, Canon, Placed, Covers, Keyed, Without;
    InRepr(chains, repr, b, j);
    WithoutPlaced(chains, repr, b, j);
    RemoveKeyed(nodes, repr, seed, chains[b][j]);
  }

  class HashMap {
    const seed: Word64
    var table: array<Node?>
    var bucket: nat
    var count: nat

    ghost var chains: seq<seq<Node>>
    ghost var repr: set<Node>
    ghost var nodes: map<Variant, Node>
    /** How many links the resizes have written so far. */
    ghost var relinked: nat
    ghost var heap: set<Node>

    /**
     The part of the invariant that does not look at the links. The nodes in the table are exactly
     those that have been allocated and not yet freed.
     */
    ghost predicate Shaped()
      reads this
    {
      && PowerOfTwo(bucket) && INIT_BUCKETS <= bucket < MAX_BUCKETS && |chains| == bucket
      && Stored(chains, repr, nodes, seed, count)
      && heap == repr
    }

    ghost predicate Valid()
      reads this, table, repr
    {
      Shaped() && table.Length == bucket && AllLinked(table[..], chains)
    }

    /** The mathematical map: the value of each key, keys being taken up to equality. */
    ghost function View(): map<Variant, Variant>
      reads this, (set k | k in nodes :: nodes[k])`value
    {
      ViewOf(nodes)
    }

    constructor (seed: Word64)
      ensures Valid() && fresh(table) && repr == {}
      ensures View() == map[] && bucket == INIT_BUCKETS && count == 0 && relinked == 0
      ensures this.seed == seed
    {
      this.seed := seed;
      bucket, count := INIT_BUCKETS, 0;
      table := new Node?[INIT_BUCKETS](_ => null);
      chains, repr, nodes, relinked, heap := seq(INIT_BUCKETS, _ => []), {}, map[], 0, {};
      new;
      hide Canon, Equals, Hash, Placed, Covers, AllLinked, Linked, Keyed, PowerOfTwo;
      EightIsAPower();
      NothingThere(table[..], chains, seed);
    }

    /** `hashmap_create`: null exactly if one of its two allocations fails. */
    static method Create(seed: Word64, memory: bool, slots: bool) returns (dict: HashMap?)
      ensures dict == null <==> !memory || !slots
      ensures dict != null ==> fresh(dict) && fresh(dict.table) && dict.Valid() && dict.View() == map[]
      ensures dict != null ==> dict.bucket == 8 && dict.repr == {}
    {
      if !memory { return null; }
      var buckets, k := NextPowerBase(INIT_BUCKETS, 2);
      EightIsPower(k);
      if buckets == 0 || !slots { return null; }
      dict := new HashMap(seed);
    }

    /** `free` of a node, with its key and its value: it must not have been freed before. */
    ghost method Free(node: Node)
      requires node in heap
      modifies this`heap
      ensures heap == old(heap) - {node}
    {
      heap := heap - {node};
    }

    // ---- resizing -----------------------------------------------------------------------------

    /** The inner relinking loop of `__hashmap_resize__`: empty bucket `i` into the new table. */
    method MoveBucket(i: nat, to: array<Node?>, ghost news: seq<seq<Node>>, ghost moved: set<Node>)
      returns (ghost news': seq<seq<Node>>, ghost moved': set<Node>)
      requires table.Length == bucket == |chains| && to != table && i < bucket
      requires Placed(chains) && Covers(chains, repr)
      requires to.Length == |news| > 0 && PowerOfTwo(to.Length)
      requires Moving(chains, repr, i, chains[i], news, moved)
      requires AllLinked(to[..], news) && forall b | i <= b < bucket :: Linked(table[b], chains[b])
      modifies repr`next, to, this`relinked
      ensures |news'| == to.Length && Moving(chains, repr, i, [], news', moved')
      ensures relinked == old(relinked) + |moved'| - |moved|
      ensures AllLinked(to[..], news') && forall b | i < b < bucket :: Linked(table[b], chains[b])
    {
      hide Hash, Canon, Equals, PowerOfTwo, Keyed, Moving, Covers, NoRepeats, AllLinked;
      news', moved' := news, moved;
      var node := table[i];
      ghost var rest := chains[i];
      while node != null
        invariant |news'| == to.Length
        invariant Moving(chains, repr, i, rest, news', moved')
        invariant relinked == old(relinked) + |moved'| - |moved|
        invariant AllLinked(to[..], news') && Linked(node, rest)
        invariant forall b | i < b < bucket :: Linked(table[b], chains[b])
        decreases |rest|
      {
        MovingOne(chains, repr, i, rest, news', moved');
        var temp := Relink(node, to, news', rest);
        relinked := relinked + 1;
        news', moved' := Pushed(news', node), moved' + {node};
        rest, node := rest[1..], temp;
      }
    }

    /** The relinking loops of `__hashmap_resize__`, into a new table of empty chains. */
    method MoveAll(to: array<Node?>) returns (ghost news: seq<seq<Node>>)
      requires Valid() && to != table
      requires to.Length > 0 && PowerOfTwo(to.Length)
      requires forall b | 0 <= b < to.Length :: to[b] == null
      modifies repr`next, to, this`relinked
      ensures |news| == to.Length && AllLinked(to[..], news)
      ensures Placed(news) && Covers(news, repr)
      ensures relinked == old(relinked) + |repr|
    {
      hide Hash, Canon, Equals, PowerOfTwo, Keyed, Moving, NoRepeats, Linked, Covers;
      news := seq(to.Length, _ => []);
      ghost var moved: set<Node> := {};
      MovingStarts(chains, repr, news);
      NothingThere(to[..], news, seed);
      var i := 0;
      while i < bucket
        invariant 0 <= i <= bucket && |news| == to.Length && Shaped()
        invariant relinked == old(relinked) + |moved|
        invariant Moving(chains, repr, i, if i < bucket then chains[i] else [], news, moved)
        invariant AllLinked(to[..], news)
        invariant forall b | i <= b < bucket :: Linked(table[b], chains[b])
      {
        news, moved := MoveBucket(i, to, news, moved);
        MovingOn(chains, repr, i, news, moved);
        i := i + 1;
      }
      MovingEnds(chains, repr, news, moved);
    }

    /**
     `__hashmap_resize__`. Without memory for the new table, or when the size would not change,
     nothing is done. `calloc` cannot succeed on more bytes than an address can count.
     */
    method Resize(n: Word64, memory: bool) returns (done: bool)
      requires Valid()
      modifies this`table, this`bucket, this`chains, this`relinked, repr`next
      ensures Valid() && (table == old(table) || fresh(table))
      ensures !done ==> unchanged(this)
      ensures View() == old(View())
      ensures done ==> relinked == old(relinked) + count
      ensures PowerOfTwo(n) ==>
        var m := if n < INIT_BUCKETS then INIT_BUCKETS else n;
        && (done <==> memory && m != old(bucket) && m < MAX_BUCKETS)
        && (done ==> bucket == m)
    {
      hide Hash, Canon, Equals, PowerOfTwo, Keyed, Placed, Covers, AllLinked, Linked, Pow, ViewOf;
      var m, k := NextPowerBase(n, 2);
      PowerIsPower(k);
      if PowerOfTwo(n) && n > 1 { NextPowerOfPower(n, k); }
      if m < INIT_BUCKETS {
        m, k := NextPowerBase(INIT_BUCKETS, 2);
        EightIsPower(k);
        PowerIsPower(k);
      }
      if m == bucket { return false; }
      if !memory || m >= MAX_BUCKETS { return false; }
      Rebuild(m);
      done := true;
    }

    /** The second half of `__hashmap_resize__`, with memory for a table of `m` buckets. */
    method Rebuild(m: nat)
      requires Valid() && PowerOfTwo(m) && INIT_BUCKETS <= m < MAX_BUCKETS
      modifies this`table, this`bucket, this`chains, this`relinked, repr`next
      ensures Valid() && fresh(table) && View() == old(View())
      ensures bucket == m && relinked == old(relinked) + count
    {
      hide Hash, Canon, Equals, PowerOfTwo, Keyed, Placed, Covers, AllLinked, Linked, ViewOf;
      var fresh' := new Node?[m](_ => null);
      ghost var news := MoveAll(fresh');
      OneNodePerKey(nodes, repr, seed);
      table, bucket, chains := fresh', m, news;
    }

    ghost function Shape(): Shape
      reads this
    {
      Occupancy.Shape.Shape(bucket, count, relinked)
    }

    // ---- looking up ---------------------------------------------------------------------------

    /** Walk the chain of a key's bucket up to the node that holds an equal key. */
    method Find(key: Variant, idx: nat) returns (node: Node?, ghost j: nat)
      requires Valid() && Acceptable(key) && idx == Hash(key, seed) % bucket
      ensures node == null ==> Canon(key) !in nodes
      ensures node != null ==> Canon(key) in nodes && nodes[Canon(key)] == node && node in repr
      ensures node != null ==> j < |chains[idx]| && chains[idx][j] == node
    {
      hide Hash, Canon, Equals, PowerOfTwo, Placed;
      ghost var chain := chains[idx];
      assert Linked(table[idx], chain);
      node, j := table[idx], 0;
      while node != null
        invariant 0 <= j <= |chain|
        invariant node == if j < |chain| then chain[j] else null
        invariant forall i | 0 <= i < j :: !Equals(chain[i].key, key)
        decreases |chain| - j
      {
        assert node in chain;
        if Equals(node.key, key) {
          EqualIsTheNode(chains, repr, nodes, seed, key, node);
          return;
        }
        node, j := node.next, j + 1;
      }
      if Canon(key) in nodes {
        PresentInItsBucket(chains, repr, nodes, seed, key);
        assert false;
      }
    }

    method HomeOf(key: Variant) returns (idx: nat)
      requires Valid() && Acceptable(key)
      ensures idx == Hash(key, seed) % bucket
    {
      hide Hash, Placed, Covers, Keyed, AllLinked, Linked;
      var hash := Hash(key, seed);
      MaskIsMod(hash, bucket);
      idx := And(hash, bucket - 1);
    }

    /** `__hashmap_get__`: the node whose value is the key's, if the key is present. */
    method Get(key: Variant) returns (node: Node?)
      requires Valid()
      ensures node != null <==> !Refused(key) && Canon(key) in View()
      ensures node != null ==> nodes[Canon(key)] == node && node.value == View()[Canon(key)]
    {
      AcceptableIffNotRefused(key);
      if count == 0 || !Acceptable(key) { return null; }
      var idx := HomeOf(key);
      ghost var j: nat;
      node, j := Find(key, idx);
    }

    // ---- adding -------------------------------------------------------------------------------

    /** A string that cannot be copied makes the operation fail. */
    predicate CopyFails(v: Variant, memory: bool) {
      v.Str? && v.s.Some? && !memory
    }

    /** Hang a new node in at the front of its chain. */
    method LinkFront(node: Node, idx: nat)
      requires table.Length == bucket == |chains| && idx < bucket && AllLinked(table[..], chains)
      requires node.hash % bucket == idx && node.next == table[idx]
      modifies table
      ensures AllLinked(table[..], Pushed(chains, node))
    {
      ghost var heads := table[..];
      PushedLinked(heads, chains, node);
      table[idx] := node;
      assert table[..] == heads[idx := node];
    }

    /** Put a node for an absent key at the front of its chain. */
    method Insert(key: Variant, value: Variant) returns (node: Node)
      requires Valid() && Acceptable(key) && Canon(key) !in nodes
      modifies this`count, this`chains, this`repr, this`nodes, this`heap, table
      ensures Valid() && fresh(node) && repr == old(repr) + {node}
      ensures nodes == old(nodes)[Canon(key) := node] && node.value == value
      ensures count == old(count) + 1
    {
      hide Canon, Equals, PowerOfTwo, Hash, Stored, AllLinked, Linked, Pushed, ViewOf;
      var hash := Hash(key, seed);
      var idx := HomeOf(key);
      node := new Node(hash, key, value, table[idx]);
      ghost var us, rs, ks := Pushed(chains, node), repr + {node}, nodes[Canon(key) := node];
      StoredWith(chains, repr, nodes, seed, count, node);
      LinkFront(node, idx);
      chains, repr, nodes, heap := us, rs, ks, rs;
      count := count + 1;
    }

    /** Overwrite the value of a present key. */
    method Replace(key: Variant, node: Node, value: Variant)
      requires Valid() && Canon(key) in nodes && nodes[Canon(key)] == node
      modifies node`value
      ensures Valid() && View() == old(View())[Canon(key) := value]
    {
      hide Canon, Equals, PowerOfTwo, Hash, Placed, Covers, AllLinked, Linked;
      node.value := value;
    }

    /** The first half of `__hashmap_add__`: the node of a present key gets a copy of the value. */
    method Update(key: Variant, node: Node, value: Variant, memory: bool) returns (done: bool)
      requires Valid() && Canon(key) in nodes && nodes[Canon(key)] == node
      modifies node`value
      ensures Valid() && Shape() == old(Shape()) == Added(Shape(), true)
      ensures done <==> !CopyFails(value, memory)
      ensures View() == if done then old(View())[Canon(key) := value] else old(View())
    {
      hide Valid, Canon;
      if CopyFails(value, memory) { return false; }
      Replace(key, node, value);
      done := true;
    }

    /** The second half of `__hashmap_add__`, for an absent key: grow if need be, then insert. */
    method AddNew(key: Variant, value: Variant, memory: Memory) returns (done: bool)
      requires Valid() && Acceptable(key) && Canon(key) !in nodes
      modifies this, table, repr`next
      ensures Valid() && (table == old(table) || fresh(table)) && fresh(repr - old(repr))
      ensures done <==> !CopyFails(value, memory.value) && !CopyFails(key, memory.key) && memory.node
      ensures View() == if done then old(View())[Canon(key) := value] else old(View())
      ensures done && memory.table && 2 * old(bucket) < MAX_BUCKETS ==> Shape() == Added(old(Shape()), false)
      ensures !memory.table ==> bucket == old(bucket)
    {
      hide Canon, Equals, PowerOfTwo, Hash, Stored, Placed, Covers, AllLinked, Linked, Keyed, ViewOf;
      if 4 * count >= 3 * bucket {
        Doubles(bucket);
        var grown := Resize(2 * bucket, memory.table);
      }
      if CopyFails(key, memory.key) { return false; }
      if CopyFails(value, memory.value) { return false; }
      if !memory.node { return false; }
      ghost var before, view := nodes, View();
      assert view == old(View());
      var node := Insert(key, value);
      assert ViewOf(before) == view;
      InsertView(before, Canon(key), node);
      done := true;
    }

    /** `__hashmap_add__` from the search on. */
    method AddAcceptable(key: Variant, value: Variant, memory: Memory) returns (done: bool)
      requires Valid() && Acceptable(key)
      modifies this, table, repr
      ensures Valid() && (table == old(table) || fresh(table)) && fresh(repr - old(repr))
      ensures done <==> (!CopyFails(value, memory.value)
                         && (Canon(key) !in old(View()) ==> !CopyFails(key, memory.key) && memory.node))
      ensures View() == if done then old(View())[Canon(key) := value] else old(View())
      ensures done && memory.table && 2 * old(bucket) < MAX_BUCKETS ==> Shape() == Added(old(Shape()), Canon(key) in old(View()))
      ensures !memory.table ==> bucket == old(bucket)
    {
      hide Valid, Canon, Equals, Hash, Added, CopyFails, Acceptable;
      var idx := HomeOf(key);
      var node, j := Find(key, idx);
      if node != null {
        done := Update(key, node, value, memory.value);
        return;
      }
      done := AddNew(key, value, memory);
    }

    /** `__hashmap_add__`. */
    method Add(key: Variant, value: Variant, memory: Memory) returns (done: bool)
      requires Valid()
      modifies this, table, repr
      ensures Valid() && (table == old(table) || fresh(table)) && fresh(repr - old(repr))
      ensures done <==>
        && !Refused(key) && (value.Str? && value.s.Some? ==> memory.value)
        && (Canon(key) !in old(View()) ==> (key.Str? ==> memory.key) && memory.node)
      ensures View() == if done then old(View())[Canon(key) := value] else old(View())
      ensures done && memory.table && 2 * old(bucket) < MAX_BUCKETS ==> Shape() == Added(old(Shape()), Canon(key) in old(View()))
      ensures !memory.table ==> bucket == old(bucket)
      ensures Refused(key) ==> Shape() == old(Shape())
    {
      hide Valid, Canon, Hash, Added, Refused, Acceptable, View;
      AcceptableIffNotRefused(key);
      if !Acceptable(key) { return false; }
      done := AddAcceptable(key, value, memory);
    }

    // ---- removing -----------------------------------------------------------------------------

    /** Unlink the first node of bucket `idx`, through the bucket's own slot. */
    method UnlinkFirst(idx: nat, target: Node)
      requires table.Length == bucket == |chains| && idx < bucket && AllLinked(table[..], chains)
      requires chains[idx] != [] && target == chains[idx][0]
      modifies table
      ensures AllLinked(table[..], Without(chains, idx, 0))
    {
      ghost var chain := chains[idx];
      assert Linked(table[idx], chain);
      LinkedTail(target, chain);
      hide Linked;
      assert chain[..0] + chain[0 + 1..] == chain[1..];
      table[idx] := target.next;
    }

    /** Unlink node `j` of bucket `idx` through the link of the node before it. */
    method UnlinkAfter(idx: nat, ghost j: nat, prev: Node)
      requires table.Length == bucket == |chains| && idx < bucket && AllLinked(table[..], chains) && Placed(chains)
      requires 0 < j < |chains[idx]| && prev == chains[idx][j - 1]
      modifies prev`next
      ensures AllLinked(table[..], Without(chains, idx, j))
    {
      ghost var chain := chains[idx];
      assert Linked(table[idx], chain);
      forall b: nat | b < bucket && b != idx ensures prev !in chains[b] {
        InOneChain(chains, prev, idx, b);
      }
      hide Linked;
      assert NoRepeats(chain);
      hide Placed;
      SkipNext(prev, table[idx], chain, j);
      assert forall b | 0 <= b < bucket && b != idx :: Linked(table[b], chains[b]);
    }

    /** Take out node `j` of bucket `idx`, which is the target, and forget its key. */
    method TakeOut(idx: nat, ghost j: nat, prev: Node?, target: Node)
      requires Valid() && idx < bucket && j < |chains[idx]| && target == chains[idx][j]
      requires prev == if j == 0 then null else chains[idx][j - 1]
      modifies this`count, this`chains, this`repr, this`nodes, this`heap, table, repr`next
      ensures Valid() && repr == old(repr) - {target}
      ensures nodes == old(nodes) - {Canon(target.key)} && count == old(count) - 1
    {
      hide Canon, Equals, PowerOfTwo, Hash, AllLinked, Linked, NoRepeats, Placed, Covers, Stored, Without;
      StoredWithout(chains, repr, nodes, seed, count, idx, j);
      if prev != null { StoredWithout(chains, repr, nodes, seed, count, idx, j - 1); }
      ghost var us, rs, ks := Without(chains, idx, j), repr - {target}, nodes - {Canon(target.key)};
      if prev == null {
        UnlinkFirst(idx, target);
      } else {
        UnlinkAfter(idx, j, prev);
      }
      Free(target);
      chains, repr, nodes := us, rs, ks;
      count := count - 1;
    }

    /** The walk of `__hashmap_remove__`: the node of the key, and the node whose link leads to it. */
    method FindLink(key: Variant, idx: nat) returns (target: Node?, prev: Node?, ghost j: nat)
      requires Valid() && Acceptable(key) && idx == Hash(key, seed) % bucket
      ensures target == null ==> Canon(key) !in nodes
      ensures target != null ==> Canon(key) in nodes && nodes[Canon(key)] == target && Canon(target.key) == Canon(key)
      ensures target != null ==> j < |chains[idx]| && chains[idx][j] == target
      ensures target != null ==> prev == if j == 0 then null else chains[idx][j - 1]
    {
      hide Hash, Canon, Equals, PowerOfTwo, Placed;
      ghost var chain := chains[idx];
      assert Linked(table[idx], chain);
      target, prev, j := table[idx], null, 0;
      while target != null
        invariant 0 <= j <= |chain|
        invariant target == if j < |chain| then chain[j] else null
        invariant prev == if j == 0 then null else chain[j - 1]
        invariant forall i | 0 <= i < j :: !Equals(chain[i].key, key)
        decreases |chain| - j
      {
        assert target in chain;
        if Equals(target.key, key) {
          EqualIsTheNode(chains, repr, nodes, seed, key, target);
          return;
        }
        prev, target, j := target, target.next, j + 1;
      }
      if Canon(key) in nodes {
        PresentInItsBucket(chains, repr, nodes, seed, key);
        assert false;
      }
    }

    /** The search and the deletion of `__hashmap_remove__`. */
    method Extract(key: Variant) returns (done: bool)
      requires Valid() && Acceptable(key)
      modifies this`count, this`chains, this`repr, this`nodes, this`heap, table, repr`next
      ensures Valid() && repr <= old(repr)
      ensures done <==> Canon(key) in old(View())
      ensures View() == if done then old(View()) - {Canon(key)} else old(View())
      ensures count == old(count) - if done then 1 else 0
    {
      hide Canon, Equals, PowerOfTwo, Hash, Stored, Placed, Covers, AllLinked, Linked, Keyed, ViewOf, Pow, Acceptable;
      var idx := HomeOf(key);
      var target, prev, j := FindLink(key, idx);
      if target == null { return false; }
      ghost var left, view := nodes - {Canon(key)}, View() - {Canon(key)};
      RemoveView(nodes, Canon(key));
      assert ViewOf(left) == view;
      TakeOut(idx, j, prev, target);
      assert View() == view;
      done := true;
    }

    /** `__hashmap_remove__`. */
    method Remove(key: Variant, memory: bool) returns (done: bool)
      requires Valid()
      modifies this, table, repr`next
      ensures Valid() && (table == old(table) || fresh(table)) && repr <= old(repr)
      ensures done <==> !Refused(key) && Canon(key) in old(View())
      ensures View() == if done then old(View()) - {Canon(key)} else old(View())
      ensures memory ==> Shape() == Removed(old(Shape()), done)
      ensures !memory ==> bucket == old(bucket)
    {
      hide Valid, Canon, Hash, Acceptable, Refused, View;
      AcceptableIffNotRefused(key);
      if count == 0 || !Acceptable(key) {
        NoneCounted();
        return false;
      }
      done := Extract(key);
      if done { ShrinkIfSparse(memory); }
    }

    lemma NoneCounted()
      requires Valid()
      ensures count == |View()| && (count == 0 ==> View() == map[])
    {
      hide Canon, Equals, PowerOfTwo, Hash, Placed, Covers, AllLinked, Linked, Keyed;
    }

    /** Halve the buckets when at most a quarter of them would be needed. */
    method ShrinkIfSparse(memory: bool)
      requires Valid()
      modifies this`table, this`bucket, this`chains, this`relinked, repr`next
      ensures Valid() && (table == old(table) || fresh(table))
      ensures View() == old(View())
      ensures memory ==> Shape() == if old(bucket) > INIT_BUCKETS && 4 * count <= old(bucket)
        then Occupancy.Shape.Shape(old(bucket) / 2, count, old(relinked) + count) else old(Shape())
      ensures !memory ==> bucket == old(bucket)
    {
      hide Canon, Equals, PowerOfTwo, Hash, Stored, Placed, Covers, AllLinked, Linked, Keyed, Pow;
      if bucket > INIT_BUCKETS && 4 * count <= bucket {
        Halves(bucket);
        var m, k := NextPowerBase(bucket / 2, 2);
        NextPowerOfPower(bucket / 2, k);
        var shrunk := Resize(m, memory);
      }
    }

    /** Frees the nodes of one bucket, each once; a node's link is read before the node is freed. */
    method FreeChain(b: nat)
      requires table.Length == |chains| && b < table.Length && Linked(table[b], chains[b]) && NoRepeats(chains[b])
      requires forall n | n in chains[b] :: n in heap
      modifies this`heap
      ensures heap == old(heap) - (set n | n in chains[b])
    {
      var node := table[b];
      ghost var rest := chains[b];
      while node != null
        invariant Linked(node, rest) && NoRepeats(rest)
        invariant forall n | n in rest :: n in heap && n in chains[b]
        invariant forall n | n in chains[b] :: n in rest || n !in heap
        invariant heap <= old(heap) && forall n | n in old(heap) && n !in chains[b] :: n in heap
        decreases |rest|
      {
        var temp := node;
        LinkedTail(node, rest);
        RestOfChain(rest);
        node := node.next;
        Free(temp);
        rest := rest[1..];
      }
    }

    /** The loops of `hashmap_clear`. */
    method EmptyTable()
      requires Valid()
      modifies this`heap, table
      ensures heap == {} && forall b | 0 <= b < table.Length :: table[b] == null
    {
      hide Hash, Canon, Equals, PowerOfTwo, Keyed, Linked, NoRepeats;
      var i := 0;
      while i < bucket
        invariant 0 <= i <= bucket && forall b | 0 <= b < i :: table[b] == null
        invariant forall b | i <= b < bucket :: Linked(table[b], chains[b])
        invariant forall n | n in heap :: n in repr && n.hash % bucket >= i
        invariant forall n | n in repr && n.hash % bucket >= i :: n in heap
      {
        FreeChain(i);
        table[i] := null;
        forall n | n in heap ensures n.hash % bucket >= i + 1 {
          assert n in chains[n.hash % bucket];
        }
        i := i + 1;
      }
    }

    /** `hashmap_clear`; without memory for the first size the buckets are kept. */
    method Clear(memory: bool)
      requires Valid()
      modifies this, table
      ensures Valid() && (table == old(table) || fresh(table)) && repr == {}
      ensures View() == map[]
      ensures memory || old(bucket) == INIT_BUCKETS ==> Shape() == Cleared(old(Shape()))
    {
      hide Canon, Equals, Hash, Placed, Covers, AllLinked, Linked, Keyed, PowerOfTwo;
      EmptyTable();
      count := 0;
      if bucket > INIT_BUCKETS && memory {
        EightIsAPower();
        table := new Node?[INIT_BUCKETS](_ => null);
        bucket := INIT_BUCKETS;
      }
      chains, repr, nodes := seq(bucket, _ => []), {}, map[];
      NothingThere(table[..], chains, seed);
    }
  }

  lemma RestOfChain(chain: seq<Node>)
    requires NoRepeats(chain) && chain != []
    ensures NoRepeats(chain[1..]) && chain[0] !in chain[1..]
    ensures forall n | n in chain :: n == chain[0] || n in chain[1..]
  {
    assert chain == [chain[0]] + chain[1..];
    assert forall i, j | 0 <= i < j < |chain[1..]| :: chain[1..][i] == chain[i + 1] && chain[1..][j] == chain[j + 1];
  }

  lemma EightIsAPower()
    ensures PowerOfTwo(8)
  {
    assert PowerOfTwo(4);
  }

  lemma NothingThere(heads: seq<Node?>, chains: seq<seq<Node>>, seed: Word64)
    requires |heads| == |chains| > 0
    requires forall b | 0 <= b < |heads| :: heads[b] == null && chains[b] == []
    ensures Placed(chains) && Covers(chains, {}) && AllLinked(heads, chains) && Keyed(map[], {}, seed)
  {}

  lemma Halves(n: nat)
    requires PowerOfTwo(n) && n > INIT_BUCKETS
    ensures PowerOfTwo(n / 2) && n / 2 >= INIT_BUCKETS
  {
    EighthIsWhole(n);
  }

  lemma InRepr(chains: seq<seq<Node>>, repr: set<Node>, b: nat, j: nat)
    requires b < |chains| && j < |chains[b]| && Covers(chains, repr)
    ensures chains[b][j] in repr
  {
    assert chains[b][j] in chains[b];
  }

  lemma WithoutPlaced(chains: seq<seq<Node>>, repr: set<Node>, b: nat, j: nat)
    requires b < |chains| && j < |chains[b]| && Placed(chains) && Covers(chains, repr)
    ensures Placed(Without(chains, b, j)) && Covers(Without(chains, b, j), repr - {chains[b][j]})
  {
    var us: seq<seq<Node>> := Without(chains, b, j);
    var target := chains[b][j];
    var chain, rest := chains[b], us[b];
    forall x, y | 0 <= x < y < |rest| ensures rest[x] != rest[y] {
      assert rest[x] == chain[if x < j then x else x + 1] && rest[y] == chain[if y < j then y else y + 1];
    }
    forall n | n in rest ensures n in chain && n != target {
      var x :| 0 <= x < |rest| && rest[x] == n;
      assert n == chain[if x < j then x else x + 1];
    }
    forall n | n in repr - {target} ensures n in us[n.hash % |us|] {
      assert n in chains[n.hash % |chains|];
      if n.hash % |chains| == b {
        var x :| 0 <= x < |chain| && chain[x] == n;
        assert n == rest[if x < j then x else x - 1];
      }
    }
    assert target in chain;
  }

  /** The chains without node `j` of bucket `b`. */
  function Without(chains: seq<seq<Node>>, b: nat, j: nat): (us: seq<seq<Node>>)
    requires b < |chains| && j < |chains[b]|
    ensures |us| == |chains|
  {
    chains[b := chains[b][..j] + chains[b][j + 1..]]
  }

  lemma Doubles(n: nat)
    requires PowerOfTwo(n)
    ensures PowerOfTwo(2 * n)
  {
    assert 2 * n / 2 == n;
  }

  lemma {:induction false} PowerIsPower(k: nat)
    ensures PowerOfTwo(Pow(2, k)) && Pow(2, k) > 0
  {
    if k > 0 {
      PowerIsPower(k - 1);
      assert Pow(2, k) / 2 == Pow(2, k - 1);
    }
  }

  lemma EightIsPower(k: nat)
    requires INIT_BUCKETS <= Pow(2, k) && forall j: nat | j < k :: Pow(2, j) < INIT_BUCKETS
    ensures Pow(2, k) == INIT_BUCKETS
  {
    assert PowerOfTwo(4) && PowerOfTwo(8);
    NextPowerOfPower(8, k);
  }
}
