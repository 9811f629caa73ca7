/** Whole runs of the hash map, from a new table, against the mathematical map. */
module HashMapRuns {
  import opened Bits
  import opened Variants
  import opened Chains
  import opened Wrappers
  import opened HashMaps
  import opened Occupancy

  datatype Request = AddKey(key: Variant, value: Variant) | RemoveKey(key: Variant) | ClearAll

  function Answered(view: map<Variant, Variant>, r: Request): map<Variant, Variant> {
    match r
    case AddKey(key, value) => if Refused(key) then view else view[Canon(key) := value]
    case RemoveKey(key) => if Refused(key) then view else view - {Canon(key)}
    case ClearAll => map[]
  }

  /** The map that the requests build, in order. */
  function Meant(rs: seq<Request>): map<Variant, Variant> {
    if rs == [] then map[] else Answered(Meant(rs[..|rs| - 1]), rs[|rs| - 1])
  }

  function OpOf(view: map<Variant, Variant>, r: Request): Op {
    match r
    case AddKey(key, _) => Op.Add(Refused(key) || Canon(key) in view)
    case RemoveKey(key) => Op.Remove(!Refused(key) && Canon(key) in view)
    case ClearAll => Op.Clear
  }

  /** What the requests do to the size of the table. */
  function OpsOf(rs: seq<Request>): (ops: seq<Op>)
    ensures |ops| == |rs|
  {
    if rs == [] then [] else OpsOf(rs[..|rs| - 1]) + [OpOf(Meant(rs[..|rs| - 1]), rs[|rs| - 1])]
  }

  lemma OneMore(rs: seq<Request>, i: nat)
    requires i < |rs|
    ensures Meant(rs[..i + 1]) == Answered(Meant(rs[..i]), rs[i])
    ensures Run(OpsOf(rs[..i + 1])) == Step(Run(OpsOf(rs[..i])), OpOf(Meant(rs[..i]), rs[i]))
  {
    hide Answered, OpOf, Step;
    assert rs[..i + 1][..i] == rs[..i];
    var ops := OpsOf(rs[..i + 1]);
    assert ops[..|ops| - 1] == OpsOf(rs[..i]);
  }

  lemma {:induction false} FewNodes(ops: seq<Op>)
    ensures Run(ops).count <= |ops|
  {
    if ops != [] { FewNodes(ops[..|ops| - 1]); }
  }

  /** A table in its band cannot reach the limit of the address space with so few requests. */
  lemma FarFromLimit(ops: seq<Op>)
    requires |ops| < MAX_BUCKETS / 8
    ensures 2 * Run(ops).bucket < MAX_BUCKETS
  {
    hide PowerOfTwo;
    FewNodes(ops);
    ResizesAreAmortized(ops);
  }

  /** One request, with memory for whatever it needs. */
  method Serve(dict: HashMap, r: Request)
    requires dict.Valid()
    modifies dict, dict.table, dict.repr
    ensures dict.Valid() && dict.View() == Answered(old(dict.View()), r)
    ensures 2 * old(dict.bucket) < MAX_BUCKETS ==> dict.Shape() == Step(old(dict.Shape()), OpOf(old(dict.View()), r))
    ensures (dict.table == old(dict.table) || fresh(dict.table)) && fresh(dict.repr - old(dict.repr))
  {
    hide HashMap.Valid, Canon, Refused, Added, Removed, Cleared;
    match r
    case AddKey(key, value) =>
      var done := dict.Add(key, value, Memory(true, true, true, true));
      RefusedIsPresent(dict.Shape());
    case RemoveKey(key) =>
      var done := dict.Remove(key, true);
    case ClearAll =>
      dict.Clear(true);
  }

  lemma RefusedIsPresent(s: Shape)
    ensures Added(s, true) == s && Removed(s, false) == s
  {
  }

  /**
   Every run on a new map, with memory for whatever it needs: it has the contents of the
   mathematical map, and unless the table has reached the limit of the address space, which takes
   2^58 requests, it is in its band and its resizes have relinked at most three nodes per add and
   two per remove.
   */
  method RunAll(seed: Word64, rs: seq<Request>) returns (dict: HashMap, ghost limited: bool)
    ensures dict.Valid() && dict.View() == Meant(rs)
    ensures !limited ==> dict.Shape() == Run(OpsOf(rs)) && InBand(dict.Shape())
    ensures !limited ==> dict.relinked <= 3 * Adds(OpsOf(rs)) + 2 * Removes(OpsOf(rs))
    ensures |rs| <= 0x400_0000_0000_0000 ==> !limited
  {
    hide HashMap.Valid, Answered, OpOf, Step, InBand, HashMap.View, Adds, Removes;
    dict := new HashMap(seed);
    limited := false;
    assert rs[..0] == [];
    for i := 0 to |rs|
      invariant dict.Valid() && fresh(dict) && fresh(dict.table) && fresh(dict.repr)
      invariant dict.View() == Meant(rs[..i])
      invariant !limited ==> dict.Shape() == Run(OpsOf(rs[..i]))
      invariant |rs| <= MAX_BUCKETS / 8 ==> !limited
    {
      OneMore(rs, i);
      if |rs| <= MAX_BUCKETS / 8 { FarFromLimit(OpsOf(rs[..i])); }
      limited := limited || 2 * dict.bucket >= MAX_BUCKETS;
      Serve(dict, rs[i]);
    }
    assert rs[..|rs|] == rs;
    ResizesAreAmortized(OpsOf(rs));
  }

  // ---- what a run means, told by the requests alone -----------------------------------------------

  /** The request concerns the key: it is about the same value, or clears the map. */
  predicate About(r: Request, k: Variant) {
    r.ClearAll? || SameValue(r.key, k)
  }

  /** Request `i` is the last one that concerns the key. */
  ghost predicate Decides(rs: seq<Request>, i: nat, k: Variant) {
    i < |rs| && About(rs[i], k) && forall j | i < j < |rs| :: !About(rs[j], k)
  }

  lemma AnswerMeans(view: map<Variant, Variant>, r: Request, k: Variant)
    requires !Refused(k)
    ensures About(r, k) ==>
      && (Canon(k) in Answered(view, r) <==> r.AddKey?)
      && (r.AddKey? ==> Answered(view, r)[Canon(k)] == r.value)
    ensures !About(r, k) ==>
      && (Canon(k) in Answered(view, r) <==> Canon(k) in view)
      && (Canon(k) in view ==> Answered(view, r)[Canon(k)] == view[Canon(k)])
  {
    if !r.ClearAll? {
      EqualsIffSameValue(r.key, k);
      EqualsIffSameValue(k, r.key);
    }
    hide SameValue;
  }

  /** A key is in the map exactly if the last request that concerns it is an add, and has the value of that add. */
  lemma {:induction false} LastDecides(rs: seq<Request>, k: Variant)
    requires !Refused(k)
    ensures Canon(k) in Meant(rs) <==> exists i: nat :: Decides(rs, i, k) && rs[i].AddKey?
    ensures forall i: nat | Decides(rs, i, k) && rs[i].AddKey? :: Canon(k) in Meant(rs) && Meant(rs)[Canon(k)] == rs[i].value
  {
    if rs != [] {
      var n, before := |rs| - 1, rs[..|rs| - 1];
      LastDecides(before, k);
      AnswerMeans(Meant(before), rs[n], k);
      DecidesNext(rs, k);
      hide About, Answered, Refused, Canon, Decides;
    }
  }

  lemma DecidesNext(rs: seq<Request>, k: Variant)
    requires rs != []
    ensures About(rs[|rs| - 1], k) ==> forall i: nat :: Decides(rs, i, k) <==> i == |rs| - 1
    ensures !About(rs[|rs| - 1], k) ==> forall i: nat :: Decides(rs, i, k) <==> Decides(rs[..|rs| - 1], i, k)
    ensures forall i: nat :: Decides(rs, i, k) ==> i < |rs|
    ensures forall i: nat :: Decides(rs[..|rs| - 1], i, k) ==> i < |rs| - 1 && rs[..|rs| - 1][i] == rs[i]
  {
    hide About;
    var before := rs[..|rs| - 1];
    assert forall j | 0 <= j < |before| :: before[j] == rs[j];
    forall i: nat | Decides(before, i, k) ensures i < |before| && before[i] == rs[i] {}
  }

  /** Every run, and then a question: the node that is found is that of the last add that still stands. */
  method AskAfter(seed: Word64, rs: seq<Request>, k: Variant) returns (node: Node?)
    ensures node != null <==> !Refused(k) && exists i: nat :: Decides(rs, i, k) && rs[i].AddKey?
    ensures node != null ==> forall i: nat | Decides(rs, i, k) && rs[i].AddKey? :: node.value == rs[i].value
  {
    hide Decides, HashMap.Valid, Refused, Canon;
    var dict, limited := RunAll(seed, rs);
    node := dict.Get(k);
    if !Refused(k) { LastDecides(rs, k); }
  }

  /** With memory for it, an add is refused for three keys only, and any equal key then finds the value. */
  method AddThenGet(dict: HashMap, key: Variant, value: Variant, k: Variant) returns (done: bool, node: Node?)
    requires dict.Valid() && SameValue(key, k)
    modifies dict, dict.table, dict.repr
    ensures done <==> key != Null && key != Str(None) && key != Pointer(0)
    ensures done ==> node != null && node.value == value
  {
    EqualsIffSameValue(key, k);
    hide HashMap.Valid, Canon;
    done := dict.Add(key, value, Memory(true, true, true, true));
    node := dict.Get(k);
  }
}
