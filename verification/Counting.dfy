/** Counting the elements of a sequence that satisfy a predicate. */
module Counting {

  function Bit(b: bool): nat {
    if b then 1 else 0
  }

  function Count<T>(s: seq<T>, p: T -> bool): (n: nat)
    ensures n <= |s|
  {
    if s == [] then 0 else Bit(p(s[|s| - 1])) + Count(s[..|s| - 1], p)
  }

  lemma {:induction false} CountUpdate<T>(s: seq<T>, i: nat, x: T, p: T -> bool)
    requires i < |s|
    ensures Count(s[i := x], p) + Bit(p(s[i])) == Count(s, p) + Bit(p(x))
  {
    var last := |s| - 1;
    if i == last {
      assert s[i := x][..last] == s[..last];
    } else {
      assert s[i := x][..last] == s[..last][i := x];
      CountUpdate(s[..last], i, x, p);
    }
  }

  lemma {:induction false} CountSame<T>(s: seq<T>, t: seq<T>, p: T -> bool)
    requires |s| == |t|
    requires forall i | 0 <= i < |s| :: p(s[i]) == p(t[i])
    ensures Count(s, p) == Count(t, p)
  {
    if s != [] {
      CountSame(s[..|s| - 1], t[..|t| - 1], p);
    }
  }

  lemma {:induction false} CountZero<T>(s: seq<T>, p: T -> bool)
    ensures Count(s, p) == 0 <==> forall i | 0 <= i < |s| :: !p(s[i])
  {
    if s != [] {
      var t := s[..|s| - 1];
      CountZero(t, p);
      assert forall i | 0 <= i < |t| :: t[i] == s[i];
    }
  }

  lemma {:induction false} CountTwo<T>(s: seq<T>, i: nat, j: nat, p: T -> bool)
    requires i < j < |s| && p(s[i]) && p(s[j])
    ensures Count(s, p) >= 2
  {
    var t := s[..|s| - 1];
    if j == |t| {
      CountZero(t, p);
      assert t[i] == s[i];
    } else {
      CountTwo(t, i, j, p);
    }
  }

  lemma {:induction false} CountSplit<T>(s: seq<T>, p: T -> bool, q: T -> bool, r: T -> bool)
    requires forall i | 0 <= i < |s| :: Bit(r(s[i])) == Bit(p(s[i])) + Bit(q(s[i]))
    ensures Count(s, r) == Count(s, p) + Count(s, q)
  {
    if s != [] {
      var t := s[..|s| - 1];
      assert forall i | 0 <= i < |t| :: t[i] == s[i];
      CountSplit(t, p, q, r);
    }
  }

  lemma {:induction false} CountLe<T>(s: seq<T>, p: T -> bool, q: T -> bool)
    requires forall i | 0 <= i < |s| && p(s[i]) :: q(s[i])
    ensures Count(s, p) <= Count(s, q)
  {
    if s != [] {
      var t := s[..|s| - 1];
      assert forall i | 0 <= i < |t| :: t[i] == s[i];
      CountLe(t, p, q);
    }
  }

  lemma {:induction false} CountFull<T>(s: seq<T>, p: T -> bool)
    ensures Count(s, p) == |s| <==> forall i | 0 <= i < |s| :: p(s[i])
  {
    if s != [] {
      var t := s[..|s| - 1];
      CountFull(t, p);
      assert forall i | 0 <= i < |t| :: t[i] == s[i];
    }
  }
}
