/** The bookkeeping of a resize half way through: which nodes have moved and which have not. */
module Relinking {
  import opened Chains
  import opened Sequences

  /**
   Buckets before `i` have been emptied into `news`, the chain of bucket `i` down to `rest`;
   `moved` are the nodes in `news`.
   */
  ghost predicate Moving(chains: seq<seq<Node>>, repr: set<Node>, i: nat, rest: seq<Node>, news: seq<seq<Node>>, moved: set<Node>)
    requires |chains| > 0 && |news| > 0
  {
    && i <= |chains| && (i == |chains| ==> rest == [])
    && Placed(news) && Covers(news, moved) && moved <= repr
    && NoRepeats(rest)
    && (forall n | n in rest :: n in repr && n !in moved && n.hash % |chains| == i)
    && (forall n | n in repr :: n in moved || n in rest || n.hash % |chains| > i)
    && (forall n | n in moved :: n.hash % |chains| <= i)
  }

  lemma MovingStarts(chains: seq<seq<Node>>, repr: set<Node>, news: seq<seq<Node>>)
    requires |chains| > 0 && Placed(chains) && Covers(chains, repr)
    requires |news| > 0 && forall b | 0 <= b < |news| :: news[b] == []
    ensures Moving(chains, repr, 0, chains[0], news, {})
  {
    forall n | n in repr ensures n in chains[0] || n.hash % |chains| > 0 {
      assert n in chains[n.hash % |chains|];
    }
  }

  lemma MovingOne(chains: seq<seq<Node>>, repr: set<Node>, i: nat, rest: seq<Node>, news: seq<seq<Node>>, moved: set<Node>)
    requires |chains| > 0 && |news| > 0 && Moving(chains, repr, i, rest, news, moved) && rest != []
    ensures Moving(chains, repr, i, rest[1..], Pushed(news, rest[0]), moved + {rest[0]})
    ensures forall b | 0 <= b < |news| :: rest[0] !in news[b]
    ensures rest[0] in repr && rest[0] !in moved && rest[0].hash % |chains| == i && NoRepeats(rest)
  {
    var n, tail := rest[0], rest[1..];
    assert n in rest;
    PushedPlaced(news, moved, n);
    assert rest == [n] + tail;
    forall m | m in tail ensures m in rest && m != n {
      var j :| 0 <= j < |tail| && tail[j] == m;
      assert rest[j + 1] == m && rest[0] == n;
    }
    assert forall x, y | 0 <= x < y < |tail| :: tail[x] == rest[x + 1] && tail[y] == rest[y + 1];
  }

  lemma MovingOn(chains: seq<seq<Node>>, repr: set<Node>, i: nat, news: seq<seq<Node>>, moved: set<Node>)
    requires |chains| > 0 && Placed(chains) && Covers(chains, repr)
    requires |news| > 0 && Moving(chains, repr, i, [], news, moved) && i < |chains|
    ensures Moving(chains, repr, i + 1, if i + 1 < |chains| then chains[i + 1] else [], news, moved)
  {
    var rest := if i + 1 < |chains| then chains[i + 1] else [];
    forall n | n in repr ensures n in moved || n in rest || n.hash % |chains| > i + 1 {
      assert n in chains[n.hash % |chains|];
    }
  }

  lemma MovingEnds(chains: seq<seq<Node>>, repr: set<Node>, news: seq<seq<Node>>, moved: set<Node>)
    requires |chains| > 0 && |news| > 0 && Moving(chains, repr, |chains|, [], news, moved)
    ensures moved == repr && Placed(news) && Covers(news, repr)
  {
    forall n | n in repr ensures n in moved {
      assert n.hash % |chains| < |chains|;
    }
  }
}
