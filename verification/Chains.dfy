/** The bucket chains of the hash map: linked nodes, and the sequences they stand for. */
module Chains {
  import opened Bits
  import opened Sequences
  import opened Variants

  /** A node owns its key and its cached hash for good; its value and its link are updated in place. */
  class Node {
    const hash: nat
    const key: Variant
    var value: Variant
    var next: Node?

    constructor (hash: nat, key: Variant, value: Variant, next: Node?)
      ensures this.hash == hash && this.key == key && this.value == value && this.next == next
    {
      this.hash, this.key, this.value, this.next := hash, key, value, next;
    }
  }

  /** From `head` the links lead through exactly the nodes of `chain`, in order. */
  ghost predicate Linked(head: Node?, chain: seq<Node>)
    reads (set n | n in chain)`next
  {
    && head == (if chain == [] then null else chain[0])
    && (chain != [] ==> chain[|chain| - 1].next == null)
    && forall j | 0 < j < |chain| :: chain[j - 1].next == chain[j]
  }

  ghost predicate AllLinked(heads: seq<Node?>, chains: seq<seq<Node>>)
    reads (set b, n | 0 <= b < |chains| && n in chains[b] :: n)`next
  {
    |heads| == |chains| && forall b | 0 <= b < |chains| :: Linked(heads[b], chains[b])
  }

  /** Each node is in the bucket of its hash, and no chain repeats a node, so chains are disjoint. */
  ghost predicate Placed(chains: seq<seq<Node>>) {
    && (forall b, n {:trigger n in chains[b]} | 0 <= b < |chains| && n in chains[b] :: n.hash % |chains| == b)
    && (forall b | 0 <= b < |chains| :: NoRepeats(chains[b]))
  }

  lemma InOneChain(chains: seq<seq<Node>>, n: Node, b: nat, c: nat)
    requires Placed(chains) && b < |chains| && c < |chains| && n in chains[b] && b != c
    ensures n !in chains[c]
  {
    assert n.hash % |chains| == b;
  }

  /** The chains hold exactly the nodes of `repr`. */
  predicate Covers(chains: seq<seq<Node>>, repr: set<Node>)
    requires |chains| > 0
  {
    && (forall b, n | 0 <= b < |chains| && n in chains[b] :: n in repr)
    && (forall n | n in repr :: n in chains[n.hash % |chains|])
  }

  /** `nodes` finds the one node of each key, keys being taken up to equality. */
  ghost predicate Keyed(nodes: map<Variant, Node>, repr: set<Node>, seed: Word64) {
    && (forall k | k in nodes :: nodes[k] in repr && Canon(nodes[k].key) == k)
    && (forall n | n in repr :: Acceptable(n.key) && n.hash == Hash(n.key, seed) && Canon(n.key) in nodes && nodes[Canon(n.key)] == n)
  }

  /** The mathematical map the nodes stand for. */
  ghost function ViewOf(nodes: map<Variant, Node>): (view: map<Variant, Variant>)
    reads (set k | k in nodes :: nodes[k])`value
    ensures view.Keys == nodes.Keys
  {
    map k | k in nodes :: nodes[k].value
  }

  lemma InsertView(nodes: map<Variant, Node>, k: Variant, n: Node)
    ensures ViewOf(nodes[k := n]) == ViewOf(nodes)[k := n.value]
  {}

  lemma RemoveView(nodes: map<Variant, Node>, k: Variant)
    ensures ViewOf(nodes - {k}) == ViewOf(nodes) - {k}
  {}

  /** A chain split at its first link. */
  lemma LinkedTail(head: Node?, chain: seq<Node>)
    requires Linked(head, chain) && chain != []
    ensures head != null && head == chain[0] && Linked(head.next, chain[1..])
  {
    var tail := chain[1..];
    if tail != [] {
      assert chain[0].next == chain[1];
      forall j | 0 < j < |tail| ensures tail[j - 1].next == tail[j] {
        var i := j + 1;
        assert chain[i - 1].next == chain[i];
      }
    }
  }

  // ---- searching ----------------------------------------------------------------------------

  /** The bucket of a key's hash is where its node is, if it has one. */
  lemma PresentInItsBucket(chains: seq<seq<Node>>, repr: set<Node>, nodes: map<Variant, Node>, seed: Word64, key: Variant)
    requires |chains| > 0 && Covers(chains, repr) && Keyed(nodes, repr, seed) && Acceptable(key) && Canon(key) in nodes
    ensures nodes[Canon(key)] in chains[Hash(key, seed) % |chains|]
    ensures Equals(nodes[Canon(key)].key, key)
  {
    EqualsIffCanon(nodes[Canon(key)].key, key, seed);
  }

  lemma EqualIsTheNode(chains: seq<seq<Node>>, repr: set<Node>, nodes: map<Variant, Node>, seed: Word64, key: Variant, n: Node)
    requires Keyed(nodes, repr, seed) && Acceptable(key) && n in repr
    ensures Equals(n.key, key) <==> Canon(key) in nodes && nodes[Canon(key)] == n
  {
    EqualsIffCanon(n.key, key, seed);
  }

  lemma InsertKeyed(nodes: map<Variant, Node>, repr: set<Node>, seed: Word64, n: Node)
    requires Keyed(nodes, repr, seed) && Acceptable(n.key) && n.hash == Hash(n.key, seed)
    requires Canon(n.key) !in nodes && n !in repr
    ensures Keyed(nodes[Canon(n.key) := n], repr + {n}, seed)
  {
    hide Hash, Canon, Equals;
  }

  lemma RemoveKeyed(nodes: map<Variant, Node>, repr: set<Node>, seed: Word64, n: Node)
    requires Keyed(nodes, repr, seed) && n in repr
    ensures Keyed(nodes - {Canon(n.key)}, repr - {n}, seed)
    ensures |nodes - {Canon(n.key)}| == |nodes| - 1
  {
    hide Hash, Canon, Equals;
    assert nodes.Keys == (nodes - {Canon(n.key)}).Keys + {Canon(n.key)};
  }

  /** There are as many nodes as keys. */
  lemma {:induction false} OneNodePerKey(nodes: map<Variant, Node>, repr: set<Node>, seed: Word64)
    requires Keyed(nodes, repr, seed)
    ensures |repr| == |nodes|
    decreases |nodes|
  {
    if nodes == map[] {
      assert repr == {};
    } else {
      var k :| k in nodes;
      var n := nodes[k];
      assert n in repr && Canon(n.key) == k;
      RemoveKeyed(nodes, repr, seed, n);
      OneNodePerKey(nodes - {k}, repr - {n}, seed);
      assert repr == (repr - {n}) + {n};
    }
  }

  // ---- relinking ----------------------------------------------------------------------------

  /** Putting a node that is in none of the chains at the front of the chain of its hash. */
  function Pushed(chains: seq<seq<Node>>, n: Node): (us: seq<seq<Node>>)
    requires |chains| > 0
    ensures |us| == |chains|
  {
    var b := n.hash % |chains|;
    chains[b := [n] + chains[b]]
  }

  lemma PushedPlaced(chains: seq<seq<Node>>, repr: set<Node>, n: Node)
    requires |chains| > 0 && Placed(chains) && Covers(chains, repr) && n !in repr
    ensures Placed(Pushed(chains, n)) && Covers(Pushed(chains, n), repr + {n})
  {
    var us: seq<seq<Node>> := Pushed(chains, n);
    var b := n.hash % |chains|;
    assert n !in chains[b];
    assert us[b][1..] == chains[b];
    forall i, j | 0 <= i < j < |us[b]| ensures us[b][i] != us[b][j] {
      assert us[b][j] == chains[b][j - 1];
      assert i > 0 ==> us[b][i] == chains[b][i - 1];
    }
    forall m | m in repr + {n} ensures m in us[m.hash % |us|] {
      if m != n { assert m in chains[m.hash % |chains|]; }
    }
  }

  /** The link updates that put `n` at the front of its chain, seen at one bucket at a time. */
  lemma PushedLinked(heads: seq<Node?>, chains: seq<seq<Node>>, n: Node)
    requires |chains| > 0 && AllLinked(heads, chains)
    requires n.next == heads[n.hash % |chains|]
    ensures AllLinked(heads[n.hash % |chains| := n], Pushed(chains, n))
  {
    var b := n.hash % |chains|;
    LinkedPush(heads[b], chains[b], n);
  }

  lemma LinkedPush(head: Node?, chain: seq<Node>, n: Node)
    requires Linked(head, chain) && n.next == head
    ensures Linked(n, [n] + chain)
  {
    var us := [n] + chain;
    forall j | 0 < j < |us| ensures us[j - 1].next == us[j] {
      if j > 1 {
        var i := j - 1;
        assert chain[i - 1].next == chain[i];
      }
    }
  }

  /** Moving one node: from the front of what is left of its old chain to the front of its new one. */
  method Relink(node: Node, table: array<Node?>, ghost chains: seq<seq<Node>>, ghost rest: seq<Node>) returns (temp: Node?)
    requires table.Length == |chains| > 0 && PowerOfTwo(table.Length) && AllLinked(table[..], chains)
    requires rest != [] && Linked(node, rest) && NoRepeats(rest)
    requires forall b | 0 <= b < |chains| :: node !in chains[b]
    modifies node`next, table
    ensures AllLinked(table[..], Pushed(chains, node))
    ensures Linked(temp, rest[1..])
  {
    temp := node.next;
    LinkedTail(node, rest);
    MaskIsMod(node.hash, table.Length);
    var idx := And(node.hash, table.Length - 1);
    ghost var heads := table[..];
    node.next := table[idx];
    assert Linked(temp, rest[1..]);
    PushedLinked(heads, chains, node);
    table[idx] := node;
    assert table[..] == heads[idx := node];
  }

  // ---- unlinking ----------------------------------------------------------------------------

  /** A chain whose node `j - 1` has been made to skip node `j`. */
  lemma RelinkedAround(head: Node?, chain: seq<Node>, j: nat)
    requires 0 < j < |chain| && head == chain[0]
    requires forall i | 0 < i < |chain| && i != j :: chain[i - 1].next == chain[i]
    requires chain[j - 1].next == if j + 1 < |chain| then chain[j + 1] else null
    requires j + 1 < |chain| ==> chain[|chain| - 1].next == null
    ensures Linked(head, chain[..j] + chain[j + 1..])
  {
    var us := chain[..j] + chain[j + 1..];
    forall i | 0 < i < |us| ensures us[i - 1].next == us[i] {
      if i < j {
        assert us[i - 1] == chain[i - 1] && us[i] == chain[i];
      } else if i == j {
        assert us[i - 1] == chain[j - 1] && us[i] == chain[j + 1];
      } else {
        var k := i + 1;
        assert us[i - 1] == chain[k - 1] && us[i] == chain[k];
      }
    }
  }

  /** Make the link of node `j - 1` skip node `j`. */
  method SkipNext(prev: Node, ghost head: Node?, ghost chain: seq<Node>, ghost j: nat)
    requires Linked(head, chain) && NoRepeats(chain)
    requires 0 < j < |chain| && prev == chain[j - 1]
    modifies prev`next
    ensures Linked(head, chain[..j] + chain[j + 1..])
  {
    assert prev.next == chain[j];
    assert chain[j].next == (if j + 1 < |chain| then chain[j + 1] else null) by {
      if j + 1 < |chain| {
        var k := j + 1;
        assert chain[k - 1].next == chain[k];
      }
    }
    assert forall k | 0 <= k < |chain| && k != j - 1 :: chain[k] != prev;
    prev.next := prev.next.next;
    RelinkedAround(head, chain, j);
  }
}
