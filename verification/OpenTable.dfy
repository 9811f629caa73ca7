/** The slots of the open-addressing set, as a value: keys, probe paths, and the set they hold. */
module OpenTable {
  import opened Counting
  import opened Bits
  import Floats

  // ---- keys ---------------------------------------------------------------------------------

  /** Numbers are their bit patterns; a string is its bytes without the terminating zero. */
  datatype Key =
    | IntKey(i: Word32)
    | LongKey(l: Word64)
    | FloatKey(f: Word32)
    | DoubleKey(d: Word64)
    | StringKey(s: seq<Byte>)

  function Fnv32(bytes: seq<Byte>): nat {
    Fnv(2166136261, bytes, 16777619, WORD32)
  }

  function Hash(k: Key): nat {
    match k
    case IntKey(i) => Fnv32(LittleEndian(i, 4))
    case LongKey(l) => Fnv32(LittleEndian(l, 8))
    case FloatKey(f) =>
      if Floats.NaN(f, Floats.FRACTION32, Floats.EXPONENTS32) then 0x7FC0_0000
      else Fnv32(LittleEndian(if Floats.Zero(f, Floats.FRACTION32, Floats.EXPONENTS32) then 0 else f, 4))
    case DoubleKey(d) =>
      if Floats.NaN(d, Floats.FRACTION64, Floats.EXPONENTS64) then 0x7FC0_0000
      else Fnv32(LittleEndian(if Floats.Zero(d, Floats.FRACTION64, Floats.EXPONENTS64) then 0 else d, 8))
    case StringKey(s) => Fnv32(s)
  }

  /** `__set_slot_equal__`. */
  predicate Equal(a: Key, b: Key) {
    match (a, b)
    case (IntKey(x), IntKey(y)) => x == y
    case (LongKey(x), LongKey(y)) => x == y
    case (FloatKey(x), FloatKey(y)) => Floats.Matches(x, y, Floats.FRACTION32, Floats.EXPONENTS32)
    case (DoubleKey(x), DoubleKey(y)) => Floats.Matches(x, y, Floats.FRACTION64, Floats.EXPONENTS64)
    case (StringKey(x), StringKey(y)) => x == y
    case _ => false
  }

  /** What a key stands for: the same for equal keys and for no others. */
  function Canon(k: Key): Key {
    match k
    case FloatKey(f) => FloatKey(Floats.Canonical(f, Floats.FRACTION32, Floats.EXPONENTS32, Floats.NAN32))
    case DoubleKey(d) => DoubleKey(Floats.Canonical(d, Floats.FRACTION64, Floats.EXPONENTS64, Floats.NAN64))
    case _ => k
  }

  /** Equality is an equivalence, and equal keys hash equally. */
  lemma EqualIffCanon(a: Key, b: Key)
    ensures Equal(a, b) <==> Canon(a) == Canon(b)
    ensures Equal(a, b) ==> Hash(a) == Hash(b)
  {
    match (a, b)
    case (FloatKey(x), FloatKey(y)) => Floats.MatchesIffCanonical(x, y, Floats.FRACTION32, Floats.EXPONENTS32, Floats.NAN32);
    case (DoubleKey(x), DoubleKey(y)) => Floats.MatchesIffCanonical(x, y, Floats.FRACTION64, Floats.EXPONENTS64, Floats.NAN64);
    case _ =>
  }

  /** The same value of the same type; floating-point values are compared as numbers. */
  predicate SameValue(a: Key, b: Key) {
    || (a == b && (a.IntKey? || a.LongKey? || a.StringKey?))
    || (a.FloatKey? && b.FloatKey? && Floats.SameNumber(a.f, b.f, 0x80_0000, 0x100))
    || (a.DoubleKey? && b.DoubleKey? && Floats.SameNumber(a.d, b.d, 0x10_0000_0000_0000, 0x800))
  }

  /** What the comparison of the code means, and what the members of `View` stand for. */
  lemma EqualIffSameValue(a: Key, b: Key)
    ensures Equal(a, b) <==> SameValue(a, b)
    ensures Canon(a) == Canon(b) <==> SameValue(a, b)
  {
    hide Floats.SameNumber, Floats.Matches;
    EqualIffCanon(a, b);
    match (a, b)
    case (FloatKey(x), FloatKey(y)) => Floats.MatchesIffSameNumber(x, y, Floats.FRACTION32, Floats.EXPONENTS32);
    case (DoubleKey(x), DoubleKey(y)) => Floats.MatchesIffSameNumber(x, y, Floats.FRACTION64, Floats.EXPONENTS64);
    case _ =>
  }

  /**
   The hash is FNV-1a of the value's bytes, lowest first; all patterns of zero hash as the pattern
   0, and whatever is no number hashes to one constant.
   */
  lemma HashMeans(k: Key)
    ensures k.IntKey? ==> Hash(k) == Fnv32(LittleEndian(k.i, 4))
    ensures k.LongKey? ==> Hash(k) == Fnv32(LittleEndian(k.l, 8))
    ensures k.StringKey? ==> Hash(k) == Fnv32(k.s)
    ensures k.FloatKey? ==>
      (Hash(k) == if Floats.NoNumber(k.f, 0x80_0000, 0x100) then 0x7FC0_0000
                  else Fnv32(LittleEndian(if Floats.Number(k.f, 0x80_0000, 0x100) == 0 then 0 else k.f, 4)))
    ensures k.DoubleKey? ==>
      (Hash(k) == if Floats.NoNumber(k.d, 0x10_0000_0000_0000, 0x800) then 0x7FC0_0000
                  else Fnv32(LittleEndian(if Floats.Number(k.d, 0x10_0000_0000_0000, 0x800) == 0 then 0 else k.d, 8)))
  {
    hide Fnv32;
    match k
    case FloatKey(f) => Floats.ClassesMean(f, Floats.FRACTION32, Floats.EXPONENTS32);
    case DoubleKey(d) => Floats.ClassesMean(d, Floats.FRACTION64, Floats.EXPONENTS64);
    case _ =>
  }

  /** FNV-1a: from the offset basis, each byte is combined by exclusive or and multiplied by the prime. */
  lemma FnvRounds(bytes: seq<Byte>, b: Byte)
    ensures Fnv32([]) == 0x811c_9dc5
    ensures Fnv32(bytes + [b]) == Xor(Fnv32(bytes), b) * 16777619 % 0x1_0000_0000
  {
    assert (bytes + [b])[..|bytes|] == bytes;
  }

  // ---- slots --------------------------------------------------------------------------------

  /** A slot of the string type whose string is the null pointer is `Unset`. */
  datatype Slot = Empty | Removed | Live(hash: nat, key: Key) | Unset(hash: nat)

  predicate IsLive(s: Slot) { s.Live? }
  predicate IsUsed(s: Slot) { !s.Empty? }
  predicate Matches(s: Slot, k: Key) { s.Live? && Equal(s.key, k) }

  /** How many steps a probe takes from slot `h` to slot `p`, going round a ring of `n` slots. */
  function Dist(h: nat, p: nat, n: nat): (d: int)
    requires h < n && p < n
    ensures 0 <= d < n
  {
    if h <= p then p - h else p - h + n
  }

  lemma DistHome(h: nat, n: nat)
    requires h < n
    ensures Dist(h, h, n) == 0
    ensures forall q: nat | q < n && Dist(h, q, n) == 0 :: q == h
  {}

  /** One step on is one further, and the distance tells the slots apart. */
  lemma DistNext(h: nat, i: nat, n: nat)
    requires h < n && i < n
    ensures var j := if i + 1 == n then 0 else i + 1;
      Dist(h, j, n) == if Dist(h, i, n) + 1 == n then 0 else Dist(h, i, n) + 1
    ensures forall q: nat | q < n && Dist(h, q, n) == Dist(h, i, n) :: q == i
  {}

  function Home(hash: nat, n: nat): (h: nat)
    requires n > 0
    ensures h < n
  {
    hash % n
  }

  /** Every slot that a probe for `hash` passes before it reaches `p` is in use. */
  ghost predicate PathUsed(ts: seq<Slot>, hash: nat, p: nat)
    requires p < |ts|
  {
    forall q | 0 <= q < |ts| :: Dist(Home(hash, |ts|), q, |ts|) < Dist(Home(hash, |ts|), p, |ts|) ==> !ts[q].Empty?
  }

  /** Live slots carry their key's hash, can be reached by probing, and hold different keys. */
  ghost predicate Table(ts: seq<Slot>) {
    && |ts| > 0
    && (forall p | 0 <= p < |ts| :: !ts[p].Unset?)
    && (forall p | 0 <= p < |ts| && ts[p].Live? :: ts[p].hash == Hash(ts[p].key) && PathUsed(ts, ts[p].hash, p))
    && (forall p, q | 0 <= p < |ts| && 0 <= q < |ts| && ts[p].Live? && ts[q].Live? ::
          Canon(ts[p].key) == Canon(ts[q].key) ==> p == q)
  }

  /** The mathematical set the table stands for. */
  ghost function View(ts: seq<Slot>): set<Key> {
    set p | 0 <= p < |ts| && ts[p].Live? :: Canon(ts[p].key)
  }

  /** `r` is the first slot on the probe path for `hash` that is not live. */
  ghost predicate FirstFree(ts: seq<Slot>, hash: nat, r: nat) {
    && r < |ts| && !ts[r].Live?
    && forall q | 0 <= q < |ts| && Dist(Home(hash, |ts|), q, |ts|) < Dist(Home(hash, |ts|), r, |ts|) :: ts[q].Live?
  }

  /** Reaching an empty slot without a match proves the key absent. */
  lemma AbsentAtEmpty(ts: seq<Slot>, k: Key, e: nat)
    requires Table(ts) && e < |ts| && ts[e].Empty?
    requires var h := Home(Hash(k), |ts|);
      forall q | 0 <= q < |ts| && Dist(h, q, |ts|) < Dist(h, e, |ts|) :: !Matches(ts[q], k)
    ensures Canon(k) !in View(ts)
    ensures forall q | 0 <= q < |ts| :: !Matches(ts[q], k)
  {
    forall q | 0 <= q < |ts| ensures !(ts[q].Live? && Canon(ts[q].key) == Canon(k)) && !Matches(ts[q], k) {
      if ts[q].Live? {
        EqualIffCanon(ts[q].key, k);
        assert PathUsed(ts, ts[q].hash, q);
      }
    }
  }

  lemma MatchMeansPresent(ts: seq<Slot>, k: Key, r: nat)
    requires r < |ts| && Matches(ts[r], k)
    ensures Canon(k) in View(ts)
  {
    EqualIffCanon(ts[r].key, k);
  }

  // ---- writing one slot -----------------------------------------------------------------------

  /** Storing an absent key in the first free slot of its path adds it to the set. */
  lemma InsertAdds(ts: seq<Slot>, k: Key, r: nat)
    requires Table(ts) && FirstFree(ts, Hash(k), r) && Canon(k) !in View(ts)
    ensures var us := ts[r := Live(Hash(k), k)];
      && Table(us) && View(us) == View(ts) + {Canon(k)}
      && Count(us, IsLive) == Count(ts, IsLive) + 1
      && Count(us, IsUsed) == Count(ts, IsUsed) + Bit(ts[r].Empty?)
  {
    var us := ts[r := Live(Hash(k), k)];
    CountUpdate(ts, r, us[r], IsLive);
    CountUpdate(ts, r, us[r], IsUsed);
    forall p | 0 <= p < |us| && us[p].Live?
      ensures us[p].hash == Hash(us[p].key) && PathUsed(us, us[p].hash, p)
    {
      if p != r { assert PathUsed(ts, ts[p].hash, p); }
    }
    forall p | 0 <= p < |ts| && ts[p].Live? ensures Canon(ts[p].key) in View(us) && Canon(ts[p].key) != Canon(k) {
      assert us[p] == ts[p];
    }
    assert Canon(us[r].key) in View(us);
  }

  /** Turning the slot of a key into a tombstone removes it, and leaves every path in use. */
  lemma RemoveDeletes(ts: seq<Slot>, r: nat)
    requires Table(ts) && r < |ts| && ts[r].Live?
    ensures var us := ts[r := Removed];
      && Table(us) && View(us) == View(ts) - {Canon(ts[r].key)}
      && Count(us, IsLive) == Count(ts, IsLive) - 1
      && Count(us, IsUsed) == Count(ts, IsUsed)
  {
    var us := ts[r := Removed];
    CountUpdate(ts, r, Removed, IsLive);
    CountUpdate(ts, r, Removed, IsUsed);
    forall p | 0 <= p < |us| && us[p].Live?
      ensures us[p].hash == Hash(us[p].key) && PathUsed(us, us[p].hash, p)
    {
      assert PathUsed(ts, ts[p].hash, p);
    }
    forall x | x in View(ts) && x != Canon(ts[r].key) ensures x in View(us) {
      var p :| 0 <= p < |ts| && ts[p].Live? && Canon(ts[p].key) == x;
      assert us[p] == ts[p];
    }
  }

  // ---- does the probe ever stop? ----------------------------------------------------------------

  /** The probe loop leaves at a slot that is empty or holds the key. */
  predicate Stops(s: Slot, k: Key) { s.Empty? || Matches(s, k) }

  /** The slot the n-th iteration of the unbounded probe loop looks at. */
  function Visited(hash: nat, n: nat, size: nat): nat
    requires size > 0
  {
    (hash + n) % size
  }

  /** The unbounded probe loop for `k` leaves after finitely many iterations. */
  ghost predicate Halts(ts: seq<Slot>, k: Key)
    requires |ts| > 0
  {
    exists n: nat :: Stops(ts[Visited(Hash(k), n, |ts|)], k)
  }

  lemma HaltsIffSomeSlotStops(ts: seq<Slot>, k: Key)
    requires |ts| > 0
    ensures Halts(ts, k) <==> exists p | 0 <= p < |ts| :: Stops(ts[p], k)
  {
    forall p | 0 <= p < |ts| && Stops(ts[p], k) ensures Halts(ts, k) {
      var h := Home(Hash(k), |ts|);
      var n := Dist(h, p, |ts|);
      VisitedAt(Hash(k), p, |ts|);
      assert Stops(ts[Visited(Hash(k), n, |ts|)], k);
    }
  }

  lemma VisitedAt(hash: nat, p: nat, size: nat)
    requires p < size
    ensures Visited(hash, Dist(Home(hash, size), p, size), size) == p
  {
    var h := Home(hash, size);
    var d := Dist(h, p, size);
    assert hash == hash / size * size + h;
    if h <= p {
      ModUnique(hash + d, size, hash / size, p);
    } else {
      assert (hash / size + 1) * size == hash / size * size + size;
      ModUnique(hash + d, size, hash / size + 1, p);
    }
  }

  /** A search halts exactly when the key is present or some slot has never been used. */
  lemma HaltsIffPresentOrRoom(ts: seq<Slot>, k: Key)
    requires |ts| > 0
    ensures Halts(ts, k) <==> Canon(k) in View(ts) || Count(ts, IsUsed) < |ts|
  {
    HaltsIffSomeSlotStops(ts, k);
    CountFull(ts, IsUsed);
    if Canon(k) in View(ts) {
      var p :| 0 <= p < |ts| && ts[p].Live? && Canon(ts[p].key) == Canon(k);
      EqualIffCanon(ts[p].key, k);
      assert Stops(ts[p], k);
    } else if Count(ts, IsUsed) < |ts| {
      var p :| 0 <= p < |ts| && !IsUsed(ts[p]);
      assert Stops(ts[p], k);
    } else {
      forall p | 0 <= p < |ts| ensures !Stops(ts[p], k) {
        assert IsUsed(ts[p]);
        if Matches(ts[p], k) { MatchMeansPresent(ts, k, p); }
      }
    }
  }

  // ---- does the probe survive? --------------------------------------------------------------------

  /** The probe for `k` gets to compare strings with a slot that has none. */
  ghost predicate Crashes(ts: seq<Slot>, k: Key)
    requires |ts| > 0
  {
    k.StringKey? &&
      exists n: nat :: ts[Visited(Hash(k), n, |ts|)].Unset? &&
        forall m: nat | m < n :: !Stops(ts[Visited(Hash(k), m, |ts|)], k)
  }

  /** The slot visited after `m` steps is `m` steps away. */
  lemma VisitedDist(hash: nat, m: nat, size: nat)
    requires m < size
    ensures Dist(Home(hash, size), Visited(hash, m, size), size) == m
  {
    var h := Home(hash, size);
    var q := if h + m < size then h + m else h + m - size;
    assert Dist(h, q, size) == m;
    VisitedAt(hash, q, size);
  }

  /** A slot left without its string where a key was to go is the first that the key's probe meets. */
  lemma UnsetCrashes(ts: seq<Slot>, k: Key, r: nat)
    requires FirstFree(ts, Hash(k), r) && Canon(k) !in View(ts) && k.StringKey?
    ensures Crashes(ts[r := Unset(Hash(k))], k) && !Table(ts[r := Unset(Hash(k))])
  {
    var us, h := ts[r := Unset(Hash(k))], Home(Hash(k), |ts|);
    var n := Dist(h, r, |ts|);
    VisitedAt(Hash(k), r, |ts|);
    forall m: nat | m < n ensures !Stops(us[Visited(Hash(k), m, |ts|)], k) {
      var q := Visited(Hash(k), m, |ts|);
      VisitedDist(Hash(k), m, |ts|);
      assert ts[q].Live? && us[q] == ts[q];
      if Matches(ts[q], k) { MatchMeansPresent(ts, k, q); }
    }
    assert us[Visited(Hash(k), n, |us|)].Unset?;
  }
}
