/** The open-addressing set: probing, growing and shrinking in place. */
module OpenSet {
  import opened Counting
  import opened Bits
  import opened OpenTable
  import opened Wrappers

  /** The counters of a set: slots, slots ever used since the last rehash, live slots. */
  datatype Load = Load(capacity: nat, used: nat, count: nat)

  function Rehashed(l: Load, capacity: nat): Load {
    Load(capacity, l.count, l.count)
  }

  predicate MustGrow(l: Load) { 4 * l.used >= 3 * l.capacity }

  function Grown(l: Load): Load {
    if MustGrow(l) then Rehashed(l, 2 * l.capacity) else l
  }

  /** What adding an absent key does to the counters; `reuse` if it takes a tombstone's slot. */
  function Added(l: Load, reuse: bool): Load {
    Load(l.capacity, if reuse then l.used else l.used + 1, l.count + 1)
  }

  function Shrunk(l: Load): Load {
    if 4 * l.count >= 3 * (l.capacity / 2) then l else Rehashed(l, l.capacity / 2)
  }

  function Deleted(l: Load, memory: bool): Load
    requires l.count > 0
  {
    var l := l.(count := l.count - 1);
    if 4 * l.count <= l.capacity && memory then Shrunk(l) else l
  }

  /**
   The load invariant. From four slots on, a quarter of the slots has never been used, so every
   search ends; below that the table may fill up.
   */
  ghost predicate Loaded(l: Load) {
    && PowerOfTwo(l.capacity)
    && l.count <= l.used <= l.capacity
    && (l.capacity >= 4 ==> 4 * l.used <= 3 * l.capacity)
  }

  /** How the counters may change in a put, by whether the key was present. */
  ghost predicate PutLoads(l: Load, m: Load, present: bool) {
    if present then m == Grown(l)
    else m == Added(Grown(l), false) || (m == Added(Grown(l), true) && Grown(l).used > Grown(l).count)
  }

  /**
   The tests of the code on its own numbers: the table doubles from 0.75 used on, and a deletion
   that leaves at most 0.25 live halves it if the half is then less than 0.75 full.
   */
  lemma LoadsMean(l: Load)
    ensures MustGrow(l) <==> l.used as real >= l.capacity as real * 0.75
    ensures Grown(l) == if l.used as real >= l.capacity as real * 0.75 then Load(2 * l.capacity, l.count, l.count) else l
    ensures l.count > 0 ==>
      var left := l.count - 1;
      var halves := left as real <= l.capacity as real * 0.25 && (left as real) < (l.capacity / 2) as real * 0.75;
      && Deleted(l, true) == (if halves then Load(l.capacity / 2, left, left) else Load(l.capacity, l.used, left))
      && Deleted(l, false) == Load(l.capacity, l.used, left)
  {}

  /** What a put does to the counters, told without the functions above. */
  lemma PutLoadsMean(l: Load, m: Load, present: bool)
    requires PutLoads(l, m, present)
    ensures var grows := l.used as real >= l.capacity as real * 0.75;
      var used := if grows then l.count else l.used;
      && m.capacity == (if grows then 2 * l.capacity else l.capacity)
      && m.count == l.count + (if present then 0 else 1)
      && (if present then m.used == used else m.used == used + 1 || (m.used == used && !grows && l.used > l.count))
  {
    LoadsMean(l);
  }

  /** A string key is copied before it is stored; other keys need no copy. */
  predicate Copied(k: Key, copied: bool) { k.StringKey? ==> copied }

  lemma GrownHasRoom(l: Load)
    requires Loaded(l)
    ensures Loaded(Grown(l)) && Grown(l).used < Grown(l).capacity && !MustGrow(Grown(l))
  {
    assert MustGrow(l) ==> PowerOfTwo(2 * l.capacity) by { assert 2 * l.capacity / 2 == l.capacity; }
  }

  lemma AddedStaysLoaded(l: Load, reuse: bool)
    requires Loaded(l) && l.used < l.capacity && !MustGrow(l)
    requires reuse ==> l.used > l.count
    ensures Loaded(Added(l, reuse))
  {
    hide PowerOfTwo;
    if l.capacity >= 4 {
      QuarterIsWhole(l.capacity);
      var quarter := l.capacity / 4;
      assert l.capacity == 4 * quarter && l.used < 3 * quarter;
    }
  }

  lemma QuarterIsWhole(n: nat)
    requires PowerOfTwo(n) && n >= 4
    ensures n % 4 == 0
  {
    var m := n / 2;
    assert PowerOfTwo(m) && m >= 2 && m % 2 == 0;
  }

  lemma ShrunkStaysLoaded(l: Load)
    requires Loaded(l) && 4 * l.count < 3 * (l.capacity / 2)
    ensures Loaded(Rehashed(l, l.capacity / 2)) && l.count < l.capacity / 2
  {}

  class Set {
    var buckets: array<Slot>
    var capacity: nat
    var count: nat
    var used: nat

    /** The slots form a table and the counters count them. */
    ghost predicate Sound()
      reads this, buckets
    {
      && buckets.Length == capacity >= 1
      && PowerOfTwo(capacity)
      && Table(buckets[..])
      && count == Counting.Count(buckets[..], IsLive)
      && used == Counting.Count(buckets[..], IsUsed)
    }

    ghost predicate Valid()
      reads this, buckets
    {
      Sound() && Loaded(Loads())
    }

    ghost function Loads(): Load
      reads this
    {
      Load(capacity, used, count)
    }

    /** The set of values, up to equality, that the table holds. */
    ghost function Contents(): set<Key>
      reads this, buckets
    {
      View(buckets[..])
    }

    constructor ()
      ensures Valid() && fresh(buckets)
      ensures Contents() == {} && Loads() == Load(16, 0, 0)
    {
      used, count, capacity := 0, 0, 16;
      buckets := new Slot[16](_ => Empty);
      new;
      AllEmpty(buckets[..]);
      assert PowerOfTwo(4) && PowerOfTwo(16);
    }

    /** `set_create`: null exactly if one of its two allocations fails. */
    static method Create(memory: bool, slots: bool) returns (set': Set?)
      ensures set' == null <==> !memory || !slots
      ensures set' != null ==> set'.Valid() && fresh(set') && fresh(set'.buckets)
      ensures set' != null ==> set'.Contents() == {} && set'.Loads() == Load(16, 0, 0)
    {
      if !memory || !slots { return null; }
      set' := new Set();
    }

    // ---- searching ----------------------------------------------------------------------------

    /**
     The probe loop. The C loop has no bound: here None stands for a loop that never leaves,
     and is answered after a full round without a stop, when the loop can only repeat itself.
     Otherwise the result is the slot of the key, or the first slot of its path that is free.
     */
    method FindSlot(k: Key, hash: nat) returns (r: Option<nat>)
      requires Sound() && hash == Hash(k)
      ensures r.Some? <==> Halts(buckets[..], k)
      ensures r.Some? ==> r.value < capacity
      ensures r.Some? && Matches(buckets[r.value], k) ==> Canon(k) in Contents()
      ensures r.Some? && !Matches(buckets[r.value], k) ==>
        Canon(k) !in Contents() && FirstFree(buckets[..], hash, r.value)
    {
      hide Equal, Canon, Hash, PowerOfTwo, And, Halts, View, Table, Loaded, Counting.Count, Dist, FirstFree, Searched;
      ghost var ts := buckets[..];
      ghost var h := Home(hash, capacity);
      DistHome(h, capacity);
      SearchStarts(ts, k);
      MaskIsMod(hash, capacity);
      var idx: nat := And(hash, capacity - 1);
      var tombstone: Option<nat> := None;
      var probes := 0;
      while probes < capacity
        invariant 0 <= probes <= capacity && idx < capacity
        invariant probes < capacity ==> Dist(h, idx, capacity) == probes
        invariant Searched(ts, k, probes, tombstone)
      {
        var slot := buckets[idx];
        SearchGoes(ts, k, idx, probes, tombstone);
        if slot.Empty? {
          return if tombstone.Some? then tombstone else Some(idx);
        } else if slot.Removed? {
          if tombstone.None? { tombstone := Some(idx); }
        } else if Equal(slot.key, k) {
          return Some(idx);
        }
        MaskedNext(idx, capacity);
        DistNext(h, idx, capacity);
        idx := And(idx + 1, capacity - 1);
        probes := probes + 1;
      }
      SearchFails(ts, k, tombstone);
      r := None;
    }

    // ---- rehashing ----------------------------------------------------------------------------

    /** Move the live slots to a new array of `n` slots, as growing and shrinking both do. */
    method Rehash(n: nat)
      requires Sound() && PowerOfTwo(n) && count < n
      modifies this
      ensures Sound() && fresh(buckets) && Contents() == old(Contents())
      ensures Loads() == Rehashed(old(Loads()), n)
    {
      hide Equal, Canon, Hash, Table, View;
      var oldBuckets, oldCapacity := buckets, capacity;
      used, capacity := count, n;
      buckets := new Slot[n](_ => Empty);
      AllEmpty(buckets[..]);
      var i := 0;
      AllEmpty(oldBuckets[..0]);
      while i < oldCapacity
        invariant 0 <= i <= oldCapacity
        invariant fresh(buckets) && buckets.Length == capacity == n && used == count == old(count)
        invariant oldBuckets[..] == old(buckets[..]) && oldBuckets != buckets
        invariant Table(buckets[..]) && View(buckets[..]) == View(oldBuckets[..i])
        invariant Counting.Count(buckets[..], IsUsed) == Counting.Count(buckets[..], IsLive) == Counting.Count(oldBuckets[..i], IsLive)
        invariant forall p | 0 <= p < n :: !buckets[p].Removed?
      {
        var slot := oldBuckets[i];
        PrefixStep(oldBuckets[..], i);
        if slot.Live? {
          Place(slot);
        }
        i := i + 1;
      }
      assert oldBuckets[..i] == oldBuckets[..];
    }

    /** The inner loop of a rehash: the first empty slot of a path in a table with room. */
    method FirstEmpty(hash: nat) returns (idx: nat)
      requires buckets.Length == capacity && PowerOfTwo(capacity)
      requires Counting.Count(buckets[..], IsUsed) < capacity
      requires forall p | 0 <= p < capacity :: !buckets[p].Removed? && !buckets[p].Unset?
      ensures FirstFree(buckets[..], hash, idx) && buckets[idx].Empty?
    {
      hide Equal, Canon, Hash, PowerOfTwo, And, View, Table, Halts, Dist, Counting.Count;
      ghost var ts := buckets[..];
      CountFull(ts, IsUsed);
      ghost var e: nat :| 0 <= e < capacity && !IsUsed(ts[e]);
      MaskIsMod(hash, capacity);
      idx := And(hash, capacity - 1);
      ghost var h := Home(hash, capacity);
      DistHome(h, capacity);
      while !buckets[idx].Empty?
        invariant idx < capacity
        invariant Dist(h, idx, capacity) <= Dist(h, e, capacity)
        invariant forall q | 0 <= q < capacity && Dist(h, q, capacity) < Dist(h, idx, capacity) :: ts[q].Live?
        decreases Dist(h, e, capacity) - Dist(h, idx, capacity)
      {
        MaskedNext(idx, capacity);
        DistNext(h, idx, capacity);
        assert ts[idx] == buckets[idx] && idx != e;
        idx := And(idx + 1, capacity - 1);
      }
    }

    /** Move a live slot whose key is not in the new table yet to its place there. */
    method Place(slot: Slot)
      requires slot.Live? && slot.hash == Hash(slot.key)
      requires buckets.Length == capacity && PowerOfTwo(capacity) && Table(buckets[..])
      requires Canon(slot.key) !in View(buckets[..])
      requires Counting.Count(buckets[..], IsUsed) == Counting.Count(buckets[..], IsLive) < capacity
      requires forall p | 0 <= p < capacity :: !buckets[p].Removed?
      modifies buckets
      ensures Table(buckets[..]) && View(buckets[..]) == old(View(buckets[..])) + {Canon(slot.key)}
      ensures Counting.Count(buckets[..], IsUsed) == Counting.Count(buckets[..], IsLive) == old(Counting.Count(buckets[..], IsLive)) + 1
      ensures forall p | 0 <= p < capacity :: !buckets[p].Removed?
    {
      hide Equal, Canon, Hash;
      var idx := FirstEmpty(slot.hash);
      ghost var ts := buckets[..];
      InsertAdds(ts, slot.key, idx);
      buckets[idx] := slot;
      assert buckets[..] == ts[idx := slot];
    }

    // ---- adding -------------------------------------------------------------------------------

    /** `__set_put__` up to the search: double the table when it is three quarters used. */
    method Grow(memory: bool) returns (done: bool)
      requires Valid()
      modifies this
      ensures done <==> memory || !MustGrow(old(Loads()))
      ensures Sound() && Contents() == old(Contents())
      ensures done ==> Loads() == Grown(old(Loads()))
      ensures buckets == old(buckets) || fresh(buckets)
    {
      hide Equal, Canon, Hash, Table, View;
      if 4 * used >= 3 * capacity {
        if !memory { return false; }
        GrownHasRoom(Loads());
        Rehash(2 * capacity);
      }
      done := true;
    }

    /**
     Write an absent key to the free slot the search has found for it. Whether `strdup` succeeds is
     not checked: without a copy the slot has the type of a string but no string.
     */
    method Store(k: Key, hash: nat, r: nat, copied: bool)
      requires Sound() && hash == Hash(k) && FirstFree(buckets[..], hash, r) && Canon(k) !in Contents()
      modifies this`used, this`count, buckets
      ensures Copied(k, copied) ==> Sound() && Contents() == old(Contents()) + {Canon(k)}
      ensures !Copied(k, copied) ==> !Sound() && Crashes(buckets[..], k)
      ensures !Copied(k, copied) ==> buckets[..] == old(buckets[..])[r := Unset(hash)]
      ensures Loads() == Added(old(Loads()), old(buckets[r].Removed?))
    {
      hide Equal, Canon, Hash, Crashes;
      ghost var ts := buckets[..];
      InsertAdds(ts, k, r);
      if buckets[r].Empty? { used := used + 1; }
      if Copied(k, copied) {
        buckets[r] := Live(hash, k);
        assert buckets[..] == ts[r := Live(hash, k)];
      } else {
        UnsetCrashes(ts, k, r);
        buckets[r] := Unset(hash);
        assert buckets[..] == ts[r := Unset(hash)];
      }
      count := count + 1;
    }

    /**
     `__set_put__`. When the table has to grow and there is no memory for it the C code frees the
     set and exits the process; `exits` reports that. Otherwise it always comes back. The set is
     still a set exactly if the key was present, is no string, or could be copied; if not, the next
     probe for the key compares it with a null string.
     */
    method Put(k: Key, memory: bool, copied: bool) returns (exits: bool)
      requires Valid()
      modifies this, buckets
      ensures exits <==> MustGrow(old(Loads())) && !memory
      ensures !exits ==> (Valid() <==> Canon(k) in old(Contents()) || Copied(k, copied))
      ensures !exits && Valid() ==> Contents() == old(Contents()) + {Canon(k)}
      ensures !exits && !Valid() ==> buckets.Length > 0 && Crashes(buckets[..], k)
      ensures !exits ==> PutLoads(old(Loads()), Loads(), Canon(k) in old(Contents()))
      ensures buckets == old(buckets) || fresh(buckets)
    {
      hide Equal, Canon, Hash, Table, View, PowerOfTwo, Crashes;
      var done := Grow(memory);
      if !done { return true; }
      exits := false;
      GrownHasRoom(old(Loads()));
      Enter(k, copied);
    }

    /** `__set_put__` from the search on: a slot is unused, so the search comes back. */
    method Enter(k: Key, copied: bool)
      requires Sound() && Loaded(Loads()) && used < capacity && !MustGrow(Loads())
      modifies this`used, this`count, buckets
      ensures Sound() <==> Canon(k) in old(Contents()) || Copied(k, copied)
      ensures Loaded(Loads()) && (Sound() ==> Contents() == old(Contents()) + {Canon(k)})
      ensures !Sound() ==> Crashes(buckets[..], k)
      ensures Loads() == if Canon(k) in old(Contents()) then old(Loads()) else Added(old(Loads()), used == old(used))
      ensures Canon(k) !in old(Contents()) && used == old(used) ==> old(used) > old(count)
    {
      hide Equal, Canon, Hash, Table, View, Halts, Stops, PowerOfTwo, Crashes;
      HaltsIffPresentOrRoom(buckets[..], k);
      var hash := Hash(k);
      var found := FindSlot(k, hash);
      var r := found.value;
      if buckets[r].Live? && Equal(buckets[r].key, k) { return; }
      ghost var reuse := buckets[r].Removed?;
      FreeSlotReused(buckets[..], r);
      AddedStaysLoaded(Loads(), reuse);
      Store(k, hash, r, copied);
    }

    // ---- deleting -----------------------------------------------------------------------------

    /** Turn a live slot into a tombstone. */
    method Bury(r: nat)
      requires Sound() && r < capacity && buckets[r].Live?
      modifies this`count, buckets
      ensures Sound() && Contents() == old(Contents()) - {old(Canon(buckets[r].key))}
      ensures old(count) > 0 && count == old(count) - 1
    {
      hide Equal, Canon, Hash;
      ghost var ts := buckets[..];
      RemoveDeletes(ts, r);
      buckets[r] := Removed;
      count := count - 1;
      assert buckets[..] == ts[r := Removed];
    }

    /** `__set_shrink__`; without memory, or while the half would be too full, nothing happens. */
    method Shrink(memory: bool)
      requires Sound() && Loaded(Loads())
      modifies this
      ensures Sound() && Loaded(Loads()) && Contents() == old(Contents())
      ensures Loads() == if memory then Shrunk(old(Loads())) else old(Loads())
      ensures buckets == old(buckets) || fresh(buckets)
    {
      hide Equal, Canon, Hash, Table, View;
      var n := capacity / 2;
      if 4 * count >= 3 * n { return; }
      if !memory { return; }
      ShrunkStaysLoaded(Loads());
      Rehash(n);
    }

    /** `__set_del__`; None when the search never comes back. */
    method Delete(k: Key, memory: bool) returns (deleted: Option<bool>)
      requires Valid()
      modifies this, buckets
      ensures Valid()
      ensures deleted == None <==> Canon(k) !in old(Contents()) && old(used == capacity)
      ensures deleted.Some? ==> deleted.value == (Canon(k) in old(Contents()))
      ensures deleted == Some(true) ==> old(count) > 0 && Loads() == Deleted(old(Loads()), memory)
      ensures Contents() == old(Contents()) - {Canon(k)}
      ensures deleted != Some(true) ==> Loads() == old(Loads())
      ensures buckets == old(buckets) || fresh(buckets)
    {
      hide Equal, Canon, Hash, Table, Halts, Stops, View;
      HaltsIffPresentOrRoom(buckets[..], k);
      var hash := Hash(k);
      var found := FindSlot(k, hash);
      if found.None? { return None; }
      var r := found.value;
      if !(buckets[r].Live? && Equal(buckets[r].key, k)) { return Some(false); }
      EqualIffCanon(buckets[r].key, k);
      Bury(r);
      deleted := Some(true);
      if 4 * count <= capacity {
        Shrink(memory);
      }
    }

    /** `__set_contains__`; None when the search never comes back. */
    method Contains(k: Key) returns (present: Option<bool>)
      requires Valid()
      ensures present == None <==> Canon(k) !in Contents() && used == capacity
      ensures present.Some? ==> present.value == (Canon(k) in Contents())
      ensures capacity >= 4 ==> present.Some?
    {
      hide Equal, Canon, Hash, Table, Halts, Stops, View;
      HaltsIffPresentOrRoom(buckets[..], k);
      var hash := Hash(k);
      var found := FindSlot(k, hash);
      if found.None? { return None; }
      var r := found.value;
      return Some(buckets[r].Live? && Equal(buckets[r].key, k));
    }
  }

  lemma AllEmpty(ts: seq<Slot>)
    requires forall p | 0 <= p < |ts| :: ts[p].Empty?
    ensures |ts| > 0 ==> Table(ts)
    ensures View(ts) == {} && Counting.Count(ts, IsLive) == 0 && Counting.Count(ts, IsUsed) == 0
  {
    CountZero(ts, IsLive);
    CountZero(ts, IsUsed);
  }

  // ---- a search half way -----------------------------------------------------------------------

  /** The first `n` slots of the path stop no search for `k`; `free` is the first free one among them. */
  ghost predicate Searched(ts: seq<Slot>, k: Key, n: nat, free: Option<nat>)
    requires |ts| > 0
  {
    var h := Home(Hash(k), |ts|);
    && (forall q | 0 <= q < |ts| && Dist(h, q, |ts|) < n :: !Stops(ts[q], k))
    && (free.None? ==> forall q | 0 <= q < |ts| && Dist(h, q, |ts|) < n :: ts[q].Live?)
    && (free.Some? ==> free.value < |ts| && FirstFree(ts, Hash(k), free.value))
  }

  lemma SearchStarts(ts: seq<Slot>, k: Key)
    requires |ts| > 0
    ensures Searched(ts, k, 0, None)
  {
    hide Equal, Canon, Hash;
  }

  /** What the next slot of the path, at `idx`, means for the search. */
  lemma SearchGoes(ts: seq<Slot>, k: Key, idx: nat, n: nat, free: Option<nat>)
    requires Table(ts) && idx < |ts| && Dist(Home(Hash(k), |ts|), idx, |ts|) == n && Searched(ts, k, n, free)
    ensures !ts[idx].Unset?
    ensures Stops(ts[idx], k) ==> Halts(ts, k)
    ensures Matches(ts[idx], k) ==> Canon(k) in View(ts)
    ensures ts[idx].Empty? ==>
      && Canon(k) !in View(ts) && var r := if free.Some? then free.value else idx;
      r < |ts| && !Matches(ts[r], k) && FirstFree(ts, Hash(k), r)
    ensures !Stops(ts[idx], k) ==>
      Searched(ts, k, n + 1, if free.None? && !ts[idx].Live? then Some(idx) else free)
  {
    hide Equal, Canon, Hash;
    DistNext(Home(Hash(k), |ts|), idx, |ts|);
    hide Dist, Halts, PathUsed;
    if Stops(ts[idx], k) { StopHalts(ts, k, idx); }
    if Matches(ts[idx], k) { MatchMeansPresent(ts, k, idx); }
    if ts[idx].Empty? { AbsentAtEmpty(ts, k, idx); }
  }

  lemma SearchFails(ts: seq<Slot>, k: Key, free: Option<nat>)
    requires |ts| > 0 && Searched(ts, k, |ts|, free)
    ensures !Halts(ts, k)
  {
    hide Equal, Canon, Hash, Halts;
    HaltsIffSomeSlotStops(ts, k);
  }

  lemma StopHalts(ts: seq<Slot>, k: Key, p: nat)
    requires p < |ts| && Stops(ts[p], k)
    ensures Halts(ts, k)
  {
    HaltsIffSomeSlotStops(ts, k);
  }

  /** A tombstone is a used slot that is not live. */
  lemma FreeSlotReused(ts: seq<Slot>, r: nat)
    requires r < |ts|
    ensures ts[r].Removed? ==> Counting.Count(ts, IsUsed) > Counting.Count(ts, IsLive)
    ensures Counting.Count(ts, IsLive) <= Counting.Count(ts, IsUsed) <= |ts|
  {
    CountLe(ts, IsLive, IsUsed);
    if ts[r].Removed? {
      CountUpdate(ts, r, Empty, IsUsed);
      CountUpdate(ts, r, Empty, IsLive);
      CountLe(ts[r := Empty], IsLive, IsUsed);
    }
  }

  /** Taking one more slot of the old table into account. */
  lemma PrefixStep(ts: seq<Slot>, i: nat)
    requires Table(ts) && i < |ts|
    ensures Counting.Count(ts[..i + 1], IsLive) == Counting.Count(ts[..i], IsLive) + Bit(ts[i].Live?)
    ensures Counting.Count(ts[..i + 1], IsLive) <= Counting.Count(ts, IsLive)
    ensures View(ts[..i + 1]) == View(ts[..i]) + (if ts[i].Live? then {Canon(ts[i].key)} else {})
    ensures ts[i].Live? ==> Canon(ts[i].key) !in View(ts[..i]) && ts[i].hash == Hash(ts[i].key)
  {
    hide *;
    PrefixCounts(ts, i);
    PrefixView(ts[..i], ts[i]);
    assert ts[..i + 1] == ts[..i] + [ts[i]];
    if ts[i].Live? { NotBefore(ts, i); }
  }

  lemma PrefixCounts(ts: seq<Slot>, i: nat)
    requires i < |ts|
    ensures Counting.Count(ts[..i + 1], IsLive) == Counting.Count(ts[..i], IsLive) + Bit(ts[i].Live?)
    ensures Counting.Count(ts[..i + 1], IsLive) <= Counting.Count(ts, IsLive)
  {
    assert ts[..i + 1][..i] == ts[..i];
    PrefixCount(ts, i + 1);
  }

  lemma NotBefore(ts: seq<Slot>, i: nat)
    requires Table(ts) && i < |ts| && ts[i].Live?
    ensures Canon(ts[i].key) !in View(ts[..i]) && ts[i].hash == Hash(ts[i].key)
  {
    hide Equal, Canon, Hash, PathUsed;
    forall p | 0 <= p < i ensures !(ts[..i][p].Live? && Canon(ts[..i][p].key) == Canon(ts[i].key)) {
      assert ts[..i][p] == ts[p];
    }
  }

  lemma PrefixView(ts: seq<Slot>, t: Slot)
    ensures View(ts + [t]) == View(ts) + (if t.Live? then {Canon(t.key)} else {})
  {
    hide Equal, Canon, Hash;
    var us := ts + [t];
    forall x | x in View(ts) ensures x in View(us) {
      var p :| 0 <= p < |ts| && ts[p].Live? && Canon(ts[p].key) == x;
      assert us[p] == ts[p];
    }
    assert us[|ts|] == t;
  }

  lemma {:induction false} PrefixCount(ts: seq<Slot>, i: nat)
    requires i <= |ts|
    ensures Counting.Count(ts[..i], IsLive) <= Counting.Count(ts, IsLive)
  {
    if i == |ts| {
      assert ts[..i] == ts;
    } else {
      var us := ts[..|ts| - 1];
      assert us[..i] == ts[..i];
      PrefixCount(us, i);
    }
  }

  // ---- the table that fills up --------------------------------------------------------------------

  /**
   A set can be driven to a single slot, and one element then fills it: asking for any other
   element never comes back. Four rounds of adding and removing an element shrink the sixteen
   slots to one.
   */
  method FillsUp(x: Key, y: Key) returns (present: Option<bool>)
    requires !Equal(x, y)
    ensures present == None
  {
    EqualIffCanon(x, y);
    hide Canon, Hash, Equal, Set.Sound, Set.Contents, PowerOfTwo;
    var s := new Set();
    var i := 0;
    while i < 4
      invariant 0 <= i <= 4
      invariant s.Valid() && fresh(s) && fresh(s.buckets) && s.Contents() == {}
      invariant s.Loads() == Load([16, 8, 4, 2, 1][i], 0, 0)
    {
      var exits := s.Put(x, true, true);
      var deleted := s.Delete(x, true);
      i := i + 1;
    }
    var exits := s.Put(x, true, true);
    present := s.Contains(y);
  }

  // ---- the string that cannot be copied -------------------------------------------------------------

  /** A new set is given a string while memory runs out, and the same string is asked for next. */
  method Uncopied(x: Key) returns (s: Set)
    requires x.StringKey?
    ensures s.count == 1 && s.buckets.Length > 0 && Crashes(s.buckets[..], x)
  {
    s := new Set();
    var exits := s.Put(x, true, false);
  }
}
