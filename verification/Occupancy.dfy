/** How full the hash map gets, and what its resizes cost over a whole run. */
module Occupancy {
  import opened Bits

  const INIT_BUCKETS: nat := 8

  /** The number of buckets, of nodes, and of nodes relinked by all resizes so far. */
  datatype Shape = Shape(bucket: nat, count: nat, relinked: nat)

  /** An operation on the map, with whether its key was present. */
  datatype Op = Add(present: bool) | Remove(present: bool) | Clear

  function Added(s: Shape, present: bool): Shape {
    if present then s
    else if 4 * s.count >= 3 * s.bucket then Shape(2 * s.bucket, s.count + 1, s.relinked + s.count)
    else s.(count := s.count + 1)
  }

  function Removed(s: Shape, present: bool): Shape {
    if !present || s.count == 0 then s
    else if s.bucket > INIT_BUCKETS && 4 * (s.count - 1) <= s.bucket
    then Shape(s.bucket / 2, s.count - 1, s.relinked + s.count - 1)
    else s.(count := s.count - 1)
  }

  function Cleared(s: Shape): Shape {
    Shape(INIT_BUCKETS, 0, s.relinked)
  }

  function Step(s: Shape, op: Op): Shape {
    match op
    case Add(present) => Added(s, present)
    case Remove(present) => Removed(s, present)
    case Clear => Cleared(s)
  }

  function Run(ops: seq<Op>): Shape {
    if ops == [] then Shape(INIT_BUCKETS, 0, 0) else Step(Run(ops[..|ops| - 1]), ops[|ops| - 1])
  }

  function Adds(ops: seq<Op>): nat {
    if ops == [] then 0 else Adds(ops[..|ops| - 1]) + (if ops[|ops| - 1].Add? then 1 else 0)
  }

  function Removes(ops: seq<Op>): nat {
    if ops == [] then 0 else Removes(ops[..|ops| - 1]) + (if ops[|ops| - 1].Remove? then 1 else 0)
  }

  /**
   The table doubles exactly when an absent key comes to a table at least 0.75 full, and halves
   exactly when a removal leaves a table of more than eight buckets at most 0.25 full; each resize
   relinks every node that is there.
   */
  lemma StepsMean(s: Shape, op: Op)
    ensures var t := Step(s, op);
      match op
      case Add(present) =>
        var grows := !present && s.count as real >= 0.75 * s.bucket as real;
        && t.count == s.count + (if present then 0 else 1)
        && t.bucket == (if grows then 2 * s.bucket else s.bucket)
        && t.relinked == s.relinked + (if grows then s.count else 0)
      case Remove(present) =>
        var shrinks := present && s.count > 0 && s.bucket > 8 && (s.count - 1) as real <= 0.25 * s.bucket as real;
        && t.count == s.count - (if present && s.count > 0 then 1 else 0)
        && t.bucket == (if shrinks then s.bucket / 2 else s.bucket)
        && t.relinked == s.relinked + (if shrinks then s.count - 1 else 0)
      case Clear => t == Shape(8, 0, s.relinked)
  {}

  /** At most three quarters full; more than a quarter full unless it has its first size. */
  predicate InBand(s: Shape) {
    && PowerOfTwo(s.bucket) && s.bucket >= INIT_BUCKETS
    && 4 * s.count <= 3 * s.bucket
    && (s.bucket == INIT_BUCKETS || 4 * s.count > s.bucket)
  }

  function Max(a: int, b: int): int { if a < b then b else a }

  /** What has been paid in advance: for the next growth above half full, for the next shrinking below three eighths. */
  function Credit(s: Shape): int {
    Max(Max(0, 3 * (s.count - s.bucket / 2)),
        if s.bucket > INIT_BUCKETS then 2 * (3 * (s.bucket / 8) - s.count) else 0)
  }

  lemma EighthIsWhole(n: nat)
    requires PowerOfTwo(n) && n >= 8
    ensures n == 8 * (n / 8) && (n > 8 ==> PowerOfTwo(n / 2) && n / 2 >= 8 && n == 16 * (n / 16))
  {
    assert PowerOfTwo(n / 2) && PowerOfTwo(n / 2 / 2) && PowerOfTwo(n / 2 / 2 / 2);
    assert n > 8 ==> PowerOfTwo(n / 2 / 2 / 2 / 2);
  }

  lemma AddStaysInBand(s: Shape, present: bool, e: nat)
    requires InBand(s) && s.bucket == 8 * e && PowerOfTwo(2 * s.bucket)
    ensures InBand(Added(s, present))
  {
    hide PowerOfTwo;
    assert s.count <= 6 * e;
    if s.count == 6 * e {
      assert 4 * s.count >= 3 * s.bucket;
    } else {
      assert 4 * s.count < 3 * s.bucket;
    }
  }

  lemma RemoveStaysInBand(s: Shape, present: bool, e: nat)
    requires InBand(s) && s.bucket == 8 * e
    requires s.bucket > INIT_BUCKETS ==> PowerOfTwo(s.bucket / 2) && s.bucket / 2 >= INIT_BUCKETS
    ensures InBand(Removed(s, present))
  {
    hide PowerOfTwo;
  }

  lemma StepStaysInBand(s: Shape, op: Op)
    requires InBand(s)
    ensures InBand(Step(s, op))
  {
    EighthIsWhole(s.bucket);
    DoubledAndFirst(s.bucket);
    hide InBand, Added, Removed, PowerOfTwo;
    match op
    case Add(present) => AddStaysInBand(s, present, s.bucket / 8);
    case Remove(present) => RemoveStaysInBand(s, present, s.bucket / 8);
    case Clear => EmptyIsInBand(s);
  }

  lemma EmptyIsInBand(s: Shape)
    ensures InBand(Cleared(s))
  {
    DoubledAndFirst(4);
  }

  lemma DoubledAndFirst(n: nat)
    requires PowerOfTwo(n)
    ensures PowerOfTwo(2 * n) && PowerOfTwo(INIT_BUCKETS)
  {
    assert 2 * n / 2 == n;
    assert PowerOfTwo(4);
  }

  /** Each add pays 3 and each remove pays 2, and that covers every node a resize relinks. */
  lemma StepIsPaid(s: Shape, op: Op)
    requires InBand(s)
    ensures var t := Step(s, op);
      t.relinked + Credit(t) <= s.relinked + Credit(s) + (if op.Add? then 3 else if op.Remove? then 2 else 0)
  {
    EighthIsWhole(s.bucket);
    hide PowerOfTwo;
  }

  /**
   Over every run from a new map, if memory does not run out: the map stays in its band, and all
   resizes together relink at most three nodes per add and two per remove.
   */
  lemma {:induction false} ResizesAreAmortized(ops: seq<Op>)
    ensures InBand(Run(ops))
    ensures Run(ops).relinked + Credit(Run(ops)) <= 3 * Adds(ops) + 2 * Removes(ops)
    ensures Run(ops).relinked <= 3 * Adds(ops) + 2 * Removes(ops)
  {
    if ops == [] {
      assert PowerOfTwo(4) && PowerOfTwo(INIT_BUCKETS);
    } else {
      var before := ops[..|ops| - 1];
      ResizesAreAmortized(before);
      StepStaysInBand(Run(before), ops[|ops| - 1]);
      StepIsPaid(Run(before), ops[|ops| - 1]);
    }
  }
}
