/** Whole runs of the open-addressing set, from a new table, against the mathematical set. */
module SetRuns {
  import opened Wrappers
  import opened OpenTable
  import opened OpenSet

  datatype Request = PutKey(key: Key) | DeleteKey(key: Key)

  function Answered(view: set<Key>, r: Request): set<Key> {
    match r
    case PutKey(key) => view + {Canon(key)}
    case DeleteKey(key) => view - {Canon(key)}
  }

  /** The set that the requests build, in order. */
  function Meant(rs: seq<Request>): set<Key> {
    if rs == [] then {} else Answered(Meant(rs[..|rs| - 1]), rs[|rs| - 1])
  }

  lemma OneMore(rs: seq<Request>, i: nat)
    requires i < |rs|
    ensures Meant(rs[..i + 1]) == Answered(Meant(rs[..i]), rs[i])
  {
    hide Answered;
    assert rs[..i + 1][..i] == rs[..i];
  }

  /**
   Every run on a new set, with memory for whatever it needs: it holds the mathematical set after
   the `n` requests that have come back. The only request that may not come back is the deletion
   of an absent key from a full table, which has one or two slots.
   */
  method RunAll(rs: seq<Request>) returns (keys: Set, n: nat)
    ensures keys.Valid() && n <= |rs| && keys.Contents() == Meant(rs[..n])
    ensures n < |rs| ==> rs[n].DeleteKey? && Canon(rs[n].key) !in Meant(rs[..n])
    ensures n < |rs| ==> keys.used == keys.capacity < 4
  {
    hide Set.Valid, Set.Contents, Canon, Answered;
    keys := new Set();
    n := 0;
    assert rs[..0] == [];
    while n < |rs|
      invariant keys.Valid() && fresh(keys) && fresh(keys.buckets)
      invariant n <= |rs| && keys.Contents() == Meant(rs[..n])
    {
      OneMore(rs, n);
      var back := Serve(keys, rs[n]);
      if !back { return; }
      n := n + 1;
    }
  }

  method Serve(keys: Set, r: Request) returns (back: bool)
    requires keys.Valid()
    modifies keys, keys.buckets
    ensures keys.Valid() && (keys.buckets == old(keys.buckets) || fresh(keys.buckets))
    ensures back ==> keys.Contents() == Answered(old(keys.Contents()), r)
    ensures !back ==> r.DeleteKey? && Canon(r.key) !in old(keys.Contents()) && keys.Contents() == old(keys.Contents())
    ensures !back ==> keys.used == keys.capacity < 4
  {
    hide Canon, Set.Contents, Set.Sound;
    match r
    case PutKey(key) =>
      var exits := keys.Put(key, true, true);
      back := true;
    case DeleteKey(key) =>
      var deleted := keys.Delete(key, true);
      back := deleted.Some?;
  }

  // ---- what a run means, told by the requests alone -----------------------------------------------

  /** Request `i` is the last one about the value. */
  ghost predicate Decides(rs: seq<Request>, i: nat, k: Key) {
    i < |rs| && SameValue(rs[i].key, k) && forall j | i < j < |rs| :: !SameValue(rs[j].key, k)
  }

  lemma DecidesNext(rs: seq<Request>, k: Key)
    requires rs != []
    ensures SameValue(rs[|rs| - 1].key, k) ==> forall i: nat :: Decides(rs, i, k) <==> i == |rs| - 1
    ensures !SameValue(rs[|rs| - 1].key, k) ==> forall i: nat :: Decides(rs, i, k) <==> Decides(rs[..|rs| - 1], i, k)
    ensures forall i: nat :: Decides(rs[..|rs| - 1], i, k) ==> i < |rs| - 1 && rs[..|rs| - 1][i] == rs[i]
  {
    hide SameValue;
    var before := rs[..|rs| - 1];
    assert forall j | 0 <= j < |before| :: before[j] == rs[j];
    forall i: nat | Decides(before, i, k) ensures i < |before| && before[i] == rs[i] {}
  }

  /** A value is in the set exactly if the last request about it is a put. */
  lemma {:induction false} LastDecides(rs: seq<Request>, k: Key)
    ensures Canon(k) in Meant(rs) <==> exists i: nat :: Decides(rs, i, k) && rs[i].PutKey?
  {
    if rs != [] {
      var n, before := |rs| - 1, rs[..|rs| - 1];
      LastDecides(before, k);
      EqualIffSameValue(rs[n].key, k);
      DecidesNext(rs, k);
      hide Decides, SameValue, Canon, Equal;
    }
  }

  /**
   Every run, and then a question: a run that comes back is followed by an answer unless the value
   is absent and the table full, and the answer is yes exactly if the last request about the value is a put.
   */
  method AskAfter(rs: seq<Request>, k: Key) returns (back: bool, present: Option<bool>)
    ensures back && present.Some? ==> (present.value <==> exists i: nat :: Decides(rs, i, k) && rs[i].PutKey?)
    ensures back && present.None? ==> !exists i: nat :: Decides(rs, i, k) && rs[i].PutKey?
    ensures (forall i | 0 <= i < |rs| :: rs[i].PutKey?) ==> back
  {
    hide Set.Sound, Set.Contents, Canon, Decides;
    var keys, n := RunAll(rs);
    back := n == |rs|;
    present := None;
    if back {
      assert rs[..n] == rs;
      LastDecides(rs, k);
      present := keys.Contains(k);
    }
  }
}
