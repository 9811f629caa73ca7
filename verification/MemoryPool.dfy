/**
 The size-class allocator of memorypool.c. Memory is the map `words` from header addresses to
 the word stored there: the link of a free block or of a chunk, or the class index of a live
 block, which share storage. Reading a word needs it to be allocated, and giving a region back
 to `free` removes every word in it.
 */
module MemoryPools {
  import opened Bits
  import opened BlockMemory
  import opened Powers
  import opened Sequences

  /** What the allocator handed out: the class (or FALLBACK) and the size asked for. */
  datatype Use = Use(cls: nat, size: Word64)

  /** The bytes asked of `malloc` for a size no class can hold; the sum wraps around. */
  function Bytes(size: Word64): nat { (HEADER + size) % WORD64 }

  /** The bytes behind the header that belong to the block. */
  function Room(u: Use): nat {
    if u.cls < CLASSES then SIZES[u.cls] else if Bytes(u.size) < HEADER then 0 else Bytes(u.size) - HEADER
  }

  predicate Fits(cls: nat, size: Word64) {
    if cls < CLASSES then SIZES[cls] >= size && forall j | 0 <= j < cls :: SIZES[j] < size
    else cls == FALLBACK && forall j | 0 <= j < CLASSES :: SIZES[j] < size
  }

  /** The class a size is served from: the first that is large enough. */
  function ClassOf(size: Word64, i: nat := 0): (cls: nat)
    requires i <= CLASSES && forall j | 0 <= j < i :: SIZES[j] < size
    ensures Fits(cls, size)
    decreases CLASSES - i
  {
    if i == CLASSES then FALLBACK else if SIZES[i] >= size then i else ClassOf(size, i + 1)
  }

  /** The classes by size: up to 32 bytes, then up to each doubling, and none above 4096. */
  lemma ClassOfMeans(size: Word64)
    ensures ClassOf(size) == FALLBACK <==> size > 4096
    ensures ClassOf(size) == 0 <==> size <= 32
    ensures forall i: nat | 0 < i < 8 :: ClassOf(size) == i <==> 16 * Pow(2, i) < size <= 32 * Pow(2, i)
  {
    FirstClasses();
    LastClasses();
    var c := ClassOf(size);
    hide Pow, ClassOf;
    assert Fits(c, size);
    forall i: nat | 0 < i < 8 ensures c == i <==> 16 * Pow(2, i) < size <= 32 * Pow(2, i) {
      ClassesMean(i);
      ClassesMean(i - 1);
    }
  }

  lemma FitsOnce(cls: nat, size: Word64)
    requires Fits(cls, size)
    ensures cls == ClassOf(size)
  {
    var c := ClassOf(size);
    assert cls < CLASSES && c < CLASSES ==> !(cls < c) && !(c < cls);
  }

  /** A header word that `memorypool_free` takes for no class and no fallback. */
  predicate Ignored(word: nat) { word >= CLASSES && word != FALLBACK }

  // ---- the invariant, part by part --------------------------------------------------------------

  ghost predicate Lists(words: map<nat, nat>, heads: seq<nat>, lists: seq<seq<nat>>) {
    && |heads| == |lists| == CLASSES
    && forall i | 0 <= i < CLASSES :: ListIn(words, heads[i], lists[i]) && NoRepeats(lists[i])
  }

  /** A free block lies in a chunk of its class and is not in use. */
  predicate FreeHomed(homes: map<nat, Home>, free: seq<seq<nat>>, live: map<nat, Use>) {
    && |free| == CLASSES
    && forall i, h | 0 <= i < CLASSES && h in free[i] :: h in homes && homes[h].cls == i && h !in live
  }

  /** Every carved block is in use or on the free list of its class. */
  predicate NoneLost(homes: map<nat, Home>, free: seq<seq<nat>>, live: map<nat, Use>) {
    && |free| == CLASSES
    && forall h | h in homes && h !in live :: homes[h].cls < CLASSES && h in free[homes[h].cls]
  }

  predicate ChunksListed(regions: map<nat, Region>, chains: seq<seq<nat>>) {
    && |chains| == CLASSES
    && (forall i, b | 0 <= i < CLASSES && b in chains[i] :: b in regions && regions[b] == Chunk(i))
    && (forall b | b in regions && regions[b].Chunk? :: regions[b].cls < CLASSES && b in chains[regions[b].cls])
  }

  predicate LiveAt(regions: map<nat, Region>, homes: map<nat, Home>, h: nat, u: Use) {
    && Fits(u.cls, u.size)
    && if u.cls < CLASSES then h in homes && homes[h].cls == u.cls
       else h in regions && regions[h] == Big(Bytes(u.size))
  }

  /** The header of a live block still names the class of the block. */
  predicate HeadersIntact(words: map<nat, nat>, live: map<nat, Use>) {
    forall h | h in live :: h in words && words[h] == live[h].cls
  }

  predicate LiveOk(regions: map<nat, Region>, homes: map<nat, Home>, live: map<nat, Use>) {
    && (forall h | h in live :: LiveAt(regions, homes, h, live[h]))
    && (forall b | b in regions && regions[b].Big? :: b in live)
  }

  ghost function LiveOf(live: map<nat, Use>, i: nat): set<nat> {
    set h | h in live && live[h].cls == i
  }

  /**
   Free and live blocks of a class make up all the blocks of its chunks, but for `missing` blocks
   of class `c` that are still to be carved.
   */
  ghost predicate Balanced(free: seq<seq<nat>>, live: map<nat, Use>, chains: seq<seq<nat>>, c: nat, missing: nat) {
    && |free| == |chains| == CLASSES
    && forall i | 0 <= i < CLASSES ::
        |free[i]| + |LiveOf(live, i)| + (if i == c then missing else 0) == BLOCKS[i] * |chains[i]|
  }

  // ---- geometry of what is handed out -------------------------------------------------------------

  lemma AlignedApart(a: nat, b: nat)
    requires a % 16 == 0 && b % 16 == 0 && a < b
    ensures a + 16 <= b
  {
    assert a == 16 * (a / 16) && b == 16 * (b / 16);
  }

  /** A block is apart from every region but its own chunk, and never begins one. */
  lemma BlockAndRegion(regions: map<nat, Region>, h: nat, p: Home, c: nat)
    requires Regions(regions) && HomeOk(regions, h, p) && c in regions
    ensures h != c && Apart(c, HEADER, h, BlockSize(p.cls))
    ensures c != p.base ==> Apart(h, BlockSize(p.cls), c, Length(regions[c]))
  {
    BlockInside(regions, h, p);
    if c < p.base {
      AlignedApart(c, p.base);
    } else if p.base + Length(regions[p.base]) <= c {
    } else {
      assert c == p.base;
    }
  }

  lemma BytesExact(size: Word64)
    ensures Bytes(size) == if HEADER + size < WORD64 then HEADER + size else HEADER + size - WORD64
  {
  }

  lemma SizesSmall(i: nat)
    requires i < CLASSES
    ensures SIZES[i] <= 4096
  {
  }

  /** The whole extent of a live block: header and room. */
  lemma LiveExtent(regions: map<nat, Region>, homes: map<nat, Home>, h: nat, u: Use)
    requires Regions(regions) && Homes(regions, homes) && LiveAt(regions, homes, h, u)
    ensures h % 16 == 0
    ensures u.cls < CLASSES ==> HEADER + Room(u) == BlockSize(u.cls)
    ensures Room(u) >= u.size <==> HEADER + u.size < WORD64
  {
    BytesExact(u.size);
    if u.cls < CLASSES {
      assert HomeOk(regions, h, homes[h]);
      hide Regions, Bytes, Homes;
      BlockInside(regions, h, homes[h]);
      SizesSmall(u.cls);
    } else {
      assert h % 16 == 0;
      hide Regions, Bytes, Homes;
      assert SIZES[7] < u.size;
    }
  }

  /**
   Two live blocks share no byte, header or payload; so a client that stays within its room can
   change neither another client's payload nor a header.
   */
  lemma LiveBlocksApart(regions: map<nat, Region>, homes: map<nat, Home>, live: map<nat, Use>, g: nat, h: nat)
    requires Regions(regions) && Homes(regions, homes) && LiveOk(regions, homes, live)
    requires g in live && h in live && g != h
    ensures Apart(g, HEADER + Room(live[g]), h, HEADER + Room(live[h]))
  {
    var u, v := live[g], live[h];
    assert LiveAt(regions, homes, g, u) && LiveAt(regions, homes, h, v);
    LiveExtent(regions, homes, g, u);
    LiveExtent(regions, homes, h, v);
    if u.cls < CLASSES {
      assert HomeOk(regions, g, homes[g]);
      if v.cls < CLASSES {
        assert HomeOk(regions, h, homes[h]);
        BlocksApart(regions, g, homes[g], h, homes[h]);
      } else {
        BlockAndRegion(regions, g, homes[g], h);
      }
    } else if v.cls < CLASSES {
      assert HomeOk(regions, h, homes[h]);
      BlockAndRegion(regions, h, homes[h], g);
    } else if g < h {
      AlignedApart(g, h);
    } else {
      AlignedApart(h, g);
    }
  }

  /** The payload of a live block covers no link: no free block and no chunk header. */
  lemma LivePayloadCoversNoLink(regions: map<nat, Region>, homes: map<nat, Home>, live: map<nat, Use>, g: nat, h: nat)
    requires Regions(regions) && Homes(regions, homes) && LiveOk(regions, homes, live)
    requires g in live && h != g && (h in homes || h in regions)
    ensures Apart(g + HEADER, Room(live[g]), h, HEADER)
  {
    var u := live[g];
    assert LiveAt(regions, homes, g, u);
    LiveExtent(regions, homes, g, u);
    if u.cls < CLASSES {
      assert HomeOk(regions, g, homes[g]);
      if h in homes {
        assert HomeOk(regions, h, homes[h]);
        BlocksApart(regions, g, homes[g], h, homes[h]);
      } else {
        BlockAndRegion(regions, g, homes[g], h);
      }
    } else if h in homes {
      assert HomeOk(regions, h, homes[h]);
      BlockAndRegion(regions, h, homes[h], g);
      BlockInside(regions, h, homes[h]);
      if g < h { AlignedApart(g, h); }
    } else if g < h {
      AlignedApart(g, h);
    }
  }

  /** List `i` lost its first member, or got `h` as a new one; the others stayed. */
  predicate Dropped(was: seq<seq<nat>>, now: seq<seq<nat>>, i: nat) {
    i < |was| && was[i] != [] && now == was[i := was[i][1..]]
  }

  predicate Prepended(was: seq<seq<nat>>, now: seq<seq<nat>>, i: nat, h: nat) {
    i < |was| && now == was[i := [h] + was[i]]
  }

  // ---- the lists under single writes ------------------------------------------------------------

  lemma ListsFrame(words: map<nat, nat>, after: map<nat, nat>, heads: seq<nat>, lists: seq<seq<nat>>)
    requires Lists(words, heads, lists)
    requires forall i, x | 0 <= i < CLASSES && x in lists[i] :: x in words ==> x in after && after[x] == words[x]
    ensures Lists(after, heads, lists)
  {
    forall i | 0 <= i < CLASSES ensures ListIn(after, heads[i], lists[i]) {
      assert ListIn(words, heads[i], lists[i]);
      assert forall j | 0 <= j < |lists[i]| :: lists[i][j] in lists[i];
    }
  }

  lemma ListsPush(words: map<nat, nat>, heads: seq<nat>, lists: seq<seq<nat>>, i: nat, h: nat)
    requires Lists(words, heads, lists) && i < CLASSES && h != 0
    requires forall j | 0 <= j < CLASSES :: h !in lists[j]
    ensures Lists(words[h := heads[i]], heads[i := h], lists[i := [h] + lists[i]])
  {
    var ls: seq<seq<nat>> := lists[i := [h] + lists[i]];
    forall j | 0 <= j < CLASSES
      ensures ListIn(words[h := heads[i]], heads[i := h][j], ls[j]) && NoRepeats(ls[j])
    {
      assert ListIn(words, heads[j], lists[j]);
      if j == i {
        ListPush(words, heads[i], lists[i], h);
      } else {
        ListFrame(words, heads[j], lists[j], h, heads[i]);
      }
    }
  }

  lemma ListsPop(words: map<nat, nat>, heads: seq<nat>, lists: seq<seq<nat>>, i: nat)
    requires Lists(words, heads, lists) && i < CLASSES && lists[i] != []
    ensures heads[i] == lists[i][0] && heads[i] in words && heads[i] !in lists[i][1..]
    ensures Lists(words, heads[i := words[heads[i]]], lists[i := lists[i][1..]])
  {
    assert ListIn(words, heads[i], lists[i]) && NoRepeats(lists[i]);
    ListPop(words, heads[i], lists[i]);
    assert NoRepeats(lists[i][1..]) by {
      forall a, b | 0 <= a < b < |lists[i][1..]| ensures lists[i][1..][a] != lists[i][1..][b] {
        assert lists[i][a + 1] != lists[i][b + 1];
      }
    }
  }

  /** A block that no home names yet has a new address. */
  lemma NewBlock(regions: map<nat, Region>, homes: map<nat, Home>, p: Home)
    requires Regions(regions) && Homes(regions, homes)
    requires p.cls < CLASSES && HomeOk(regions, Address(p), p)
    requires forall h | h in homes :: homes[h] != p
    ensures Address(p) !in homes && Address(p) !in regions
  {
    var h := Address(p);
    if h in homes {
      BlocksApart(regions, h, p, h, homes[h]);
    }
    if h in regions {
      BlockAndRegion(regions, h, p, h);
    }
  }

  lemma HeadersFrame(words: map<nat, nat>, live: map<nat, Use>, h: nat, v: nat)
    requires HeadersIntact(words, live) && h !in live
    ensures HeadersIntact(words[h := v], live)
  {
  }

  // ---- counting the live blocks of a class ----------------------------------------------------------

  lemma LiveAdded(live: map<nat, Use>, h: nat, u: Use, i: nat)
    requires h !in live
    ensures |LiveOf(live[h := u], i)| == |LiveOf(live, i)| + (if u.cls == i then 1 else 0)
  {
    if u.cls == i {
      assert LiveOf(live[h := u], i) == LiveOf(live, i) + {h};
    } else {
      assert LiveOf(live[h := u], i) == LiveOf(live, i);
    }
  }

  lemma LiveRemoved(live: map<nat, Use>, h: nat, i: nat)
    requires h in live
    ensures |LiveOf(live - {h}, i)| == |LiveOf(live, i)| - (if live[h].cls == i then 1 else 0)
  {
    if live[h].cls == i {
      assert LiveOf(live, i) == LiveOf(live - {h}, i) + {h};
    } else {
      assert LiveOf(live - {h}, i) == LiveOf(live, i);
    }
  }

  lemma NoChange(live: map<nat, Use>, free: seq<seq<nat>>, chains: seq<seq<nat>>, h: nat, u: Use)
    requires Balanced(free, live, chains, 0, 0) && h !in live && u.cls >= CLASSES
    ensures Balanced(free, live[h := u], chains, 0, 0)
  {
    forall i | 0 <= i < CLASSES ensures |LiveOf(live[h := u], i)| == |LiveOf(live, i)| {
      LiveAdded(live, h, u, i);
    }
  }

  lemma TakenBalanced(live: map<nat, Use>, free: seq<seq<nat>>, chains: seq<seq<nat>>, h: nat, u: Use)
    requires Balanced(free, live, chains, 0, 0) && h !in live && u.cls < CLASSES && free[u.cls] != []
    ensures Balanced(free[u.cls := free[u.cls][1..]], live[h := u], chains, 0, 0)
  {
    forall i | 0 <= i < CLASSES
      ensures |LiveOf(live[h := u], i)| == |LiveOf(live, i)| + (if u.cls == i then 1 else 0)
    {
      LiveAdded(live, h, u, i);
    }
  }

  lemma ReturnedBalanced(live: map<nat, Use>, free: seq<seq<nat>>, chains: seq<seq<nat>>, h: nat)
    requires Balanced(free, live, chains, 0, 0) && h in live
    ensures live[h].cls < CLASSES ==>
              Balanced(free[live[h].cls := [h] + free[live[h].cls]], live - {h}, chains, 0, 0)
    ensures live[h].cls >= CLASSES ==> Balanced(free, live - {h}, chains, 0, 0)
  {
    forall i | 0 <= i < CLASSES
      ensures |LiveOf(live - {h}, i)| == |LiveOf(live, i)| - (if live[h].cls == i then 1 else 0)
    {
      LiveRemoved(live, h, i);
    }
  }

  /** The words that remain when the region at `base` goes back to `free`. */
  function Forget(words: map<nat, nat>, base: nat, n: nat): map<nat, nat> {
    map a | a in words && !(base <= a < base + n) :: words[a]
  }

  /** The members of the lists, to be used while the lists themselves are hidden. */
  lemma ListMembers(regions: map<nat, Region>, homes: map<nat, Home>, live: map<nat, Use>,
                    free: seq<seq<nat>>, chains: seq<seq<nat>>)
    requires ChunksListed(regions, chains) && FreeHomed(homes, free, live)
    ensures |free| == |chains| == CLASSES
    ensures forall i, x | 0 <= i < CLASSES && x in chains[i] :: x in regions
    ensures forall i, x | 0 <= i < CLASSES && x in free[i] :: x in homes && x !in live
  {
  }

  // ---- a new region -----------------------------------------------------------------------------

  lemma HomesStay(regions: map<nat, Region>, homes: map<nat, Home>, base: nat, r: Region)
    requires Homes(regions, homes) && Available(regions, base, r)
    ensures Homes(regions[base := r], homes)
    ensures base !in homes
  {
    forall h | h in homes ensures HomeOk(regions[base := r], h, homes[h]) && h != base {
      assert HomeOk(regions, h, homes[h]);
      BlockAndRegion(regions[base := r], h, homes[h], base);
    }
  }

  lemma LiveStays(regions: map<nat, Region>, homes: map<nat, Home>, live: map<nat, Use>, base: nat, r: Region)
    requires LiveOk(regions, homes, live) && base !in regions && base !in homes
    ensures base !in live
    ensures r.Chunk? ==> LiveOk(regions[base := r], homes, live)
    ensures forall h | h in live :: LiveAt(regions[base := r], homes, h, live[h])
  {
    forall h | h in live ensures LiveAt(regions[base := r], homes, h, live[h]) && h != base {
      assert LiveAt(regions, homes, h, live[h]);
    }
  }

  lemma ChunkListed(regions: map<nat, Region>, chains: seq<seq<nat>>, base: nat, i: nat)
    requires ChunksListed(regions, chains) && base !in regions && i < CLASSES
    ensures ChunksListed(regions[base := Chunk(i)], chains[i := [base] + chains[i]])
    ensures forall j | 0 <= j < CLASSES :: base !in chains[j]
  {
    var after := chains[i := [base] + chains[i]];
    forall j, b | 0 <= j < CLASSES && b in after[j]
      ensures b in regions[base := Chunk(i)] && regions[base := Chunk(i)][b] == Chunk(j)
    {
      assert (b == base && j == i) || b in chains[j];
    }
  }

  lemma ChunkBalanced(free: seq<seq<nat>>, live: map<nat, Use>, chains: seq<seq<nat>>, base: nat, i: nat)
    requires Balanced(free, live, chains, 0, 0) && i < CLASSES
    ensures Balanced(free, live, chains[i := [base] + chains[i]], i, BLOCKS[i])
  {
    assert BLOCKS[i] * (1 + |chains[i]|) == BLOCKS[i] + BLOCKS[i] * |chains[i]|;
  }

  /** No block lies in a region that is not there. */
  lemma NoHomeIn(regions: map<nat, Region>, homes: map<nat, Home>, base: nat)
    requires Homes(regions, homes) && base !in regions
    ensures forall h | h in homes :: homes[h].base != base
  {
    forall h | h in homes ensures homes[h].base != base {
      assert HomeOk(regions, h, homes[h]);
    }
  }

  // ---- a new block ----------------------------------------------------------------------------------

  lemma BlockHomed(regions: map<nat, Region>, homes: map<nat, Home>, live: map<nat, Use>, p: Home)
    requires Homes(regions, homes) && LiveOk(regions, homes, live)
    requires p.cls < CLASSES && HomeOk(regions, Address(p), p)
    requires Address(p) !in homes && Address(p) !in regions
    ensures Address(p) !in live
    ensures Homes(regions, homes[Address(p) := p]) && LiveOk(regions, homes[Address(p) := p], live)
  {
    var after := homes[Address(p) := p];
    forall h | h in live ensures h != Address(p) && LiveAt(regions, after, h, live[h]) {
      assert LiveAt(regions, homes, h, live[h]);
    }
  }

  lemma BlockListed(homes: map<nat, Home>, free: seq<seq<nat>>, live: map<nat, Use>, h: nat, p: Home)
    requires FreeHomed(homes, free, live) && NoneLost(homes, free, live)
    requires h !in homes && h !in live && p.cls < CLASSES
    ensures FreeHomed(homes[h := p], free[p.cls := [h] + free[p.cls]], live)
    ensures NoneLost(homes[h := p], free[p.cls := [h] + free[p.cls]], live)
    ensures forall i | 0 <= i < CLASSES :: h !in free[i]
  {
    var i := p.cls;
    var after := free[i := [h] + free[i]];
    forall j, x | 0 <= j < CLASSES && x in after[j]
      ensures x in homes[h := p] && homes[h := p][x].cls == j && x !in live
    {
      assert (x == h && j == i) || x in free[j];
    }
    forall x | x in homes[h := p] && x !in live ensures x in after[homes[h := p][x].cls] {
      assert x == h || x in free[homes[x].cls];
    }
  }

  lemma BlockBalanced(free: seq<seq<nat>>, live: map<nat, Use>, chains: seq<seq<nat>>, i: nat, m: nat, h: nat)
    requires Balanced(free, live, chains, i, m) && i < CLASSES && m > 0
    ensures Balanced(free[i := [h] + free[i]], live, chains, i, m - 1)
  {
  }

  lemma NoneMissing(free: seq<seq<nat>>, live: map<nat, Use>, chains: seq<seq<nat>>, i: nat)
    requires Balanced(free, live, chains, i, 0)
    ensures Balanced(free, live, chains, 0, 0)
  {
  }

  // ---- handing out and taking back a block ------------------------------------------------------------

  lemma NullIffEmpty(words: map<nat, nat>, heads: seq<nat>, lists: seq<seq<nat>>, i: nat)
    requires Lists(words, heads, lists) && i < CLASSES
    ensures heads[i] == 0 <==> lists[i] == []
  {
    assert ListIn(words, heads[i], lists[i]);
  }

  lemma HomesNoRegion(regions: map<nat, Region>, homes: map<nat, Home>, h: nat)
    requires Regions(regions) && Homes(regions, homes) && h in homes
    ensures h !in regions && h >= HEADER
  {
    hide Regions;
    assert HomeOk(regions, h, homes[h]);
    BlockInside(regions, h, homes[h]);
    if h in regions { BlockAndRegion(regions, h, homes[h], h); }
  }

  lemma HeadTaken(homes: map<nat, Home>, free: seq<seq<nat>>, live: map<nat, Use>, i: nat, u: Use)
    requires FreeHomed(homes, free, live) && NoneLost(homes, free, live)
    requires i < CLASSES && free[i] != [] && free[i][0] !in free[i][1..] && u.cls == i
    ensures
      var h, after := free[i][0], free[i := free[i][1..]];
      && h in homes && homes[h].cls == i && h !in live
      && FreeHomed(homes, after, live[h := u]) && NoneLost(homes, after, live[h := u])
      && forall j, x | 0 <= j < CLASSES && x in after[j] :: x != h
  {
    var h := free[i][0];
    var after := free[i := free[i][1..]];
    assert h in free[i];
    forall j, x | 0 <= j < CLASSES && x in after[j] ensures x in free[j] && x != h {
      assert x in free[j] && homes[x].cls == j;
    }
    forall x | x in homes && x !in live[h := u] ensures x in after[homes[x].cls] {
      assert x in free[homes[x].cls] && free[i] == [h] + free[i][1..];
    }
  }

  lemma HeadLive(regions: map<nat, Region>, homes: map<nat, Home>, live: map<nat, Use>, h: nat, u: Use)
    requires LiveOk(regions, homes, live) && LiveAt(regions, homes, h, u) && h !in live
    ensures LiveOk(regions, homes, live[h := u])
  {
  }

  lemma HeaderWritten(words: map<nat, nat>, live: map<nat, Use>, h: nat, u: Use)
    requires HeadersIntact(words, live) && h !in live
    ensures HeadersIntact(words[h := u.cls], live[h := u])
  {
  }

  lemma BlockReturned(homes: map<nat, Home>, free: seq<seq<nat>>, live: map<nat, Use>, h: nat, i: nat)
    requires FreeHomed(homes, free, live) && NoneLost(homes, free, live)
    requires i < CLASSES && h in live && h in homes && homes[h].cls == i
    ensures FreeHomed(homes, free[i := [h] + free[i]], live - {h})
    ensures NoneLost(homes, free[i := [h] + free[i]], live - {h})
    ensures forall j | 0 <= j < CLASSES :: h !in free[j]
  {
    var after := free[i := [h] + free[i]];
    forall j, x | 0 <= j < CLASSES && x in after[j]
      ensures x in homes && homes[x].cls == j && x !in live - {h}
    {
      assert (x == h && j == i) || x in free[j];
    }
  }

  lemma LiveReturned(regions: map<nat, Region>, homes: map<nat, Home>, live: map<nat, Use>, h: nat)
    requires LiveOk(regions, homes, live) && h in live && h !in regions
    ensures LiveOk(regions, homes, live - {h})
  {
  }

  lemma HeaderReleased(words: map<nat, nat>, live: map<nat, Use>, h: nat, v: nat)
    requires HeadersIntact(words, live)
    ensures HeadersIntact(words[h := v], live - {h})
  {
  }

  // ---- a region of its own, and regions given back ---------------------------------------------------

  lemma BigIsNoChunk(regions: map<nat, Region>, chains: seq<seq<nat>>, base: nat, n: nat)
    requires ChunksListed(regions, chains) && base !in regions
    ensures ChunksListed(regions[base := Big(n)], chains)
  {
  }

  lemma BigLive(regions: map<nat, Region>, homes: map<nat, Home>, live: map<nat, Use>, base: nat, u: Use)
    requires LiveOk(regions, homes, live) && base !in regions && base !in homes
    requires u.cls == FALLBACK && Fits(u.cls, u.size)
    ensures LiveOk(regions[base := Big(Bytes(u.size))], homes, live[base := u]) && base !in live
  {
    LiveStays(regions, homes, live, base, Big(Bytes(u.size)));
  }

  lemma NotFree(homes: map<nat, Home>, free: seq<seq<nat>>, live: map<nat, Use>, h: nat, u: Use)
    requires FreeHomed(homes, free, live) && NoneLost(homes, free, live) && h !in homes
    ensures FreeHomed(homes, free, live[h := u]) && NoneLost(homes, free, live[h := u])
    ensures FreeHomed(homes, free, live - {h}) && NoneLost(homes, free, live - {h})
  {
  }

  /** Giving a region back keeps every word outside it. */
  lemma RegionsReturned(regions: map<nat, Region>, c: nat)
    requires Regions(regions) && c in regions
    ensures Regions(regions - {c})
    ensures forall b | b in regions && b != c && Length(regions[b]) > 0 :: !(c <= b < c + Length(regions[c]))
  {
    forall b | b in regions && b != c && Length(regions[b]) > 0
      ensures !(c <= b < c + Length(regions[c]))
    {
      assert Apart(b, Length(regions[b]), c, Length(regions[c]));
    }
  }

  lemma HomesReturned(regions: map<nat, Region>, homes: map<nat, Home>, c: nat)
    requires Regions(regions) && Homes(regions, homes) && c in regions && regions[c].Big?
    ensures Homes(regions - {c}, homes)
    ensures forall h | h in homes :: !(c <= h < c + Length(regions[c]))
  {
    hide Regions;
    forall h | h in homes
      ensures HomeOk(regions - {c}, h, homes[h]) && !(c <= h < c + Length(regions[c]))
    {
      assert HomeOk(regions, h, homes[h]);
      BlockAndRegion(regions, h, homes[h], c);
    }
  }

  lemma BigReturned(regions: map<nat, Region>, homes: map<nat, Home>, live: map<nat, Use>, chains: seq<seq<nat>>, c: nat)
    requires LiveOk(regions, homes, live) && ChunksListed(regions, chains)
    requires c in live && c in regions && regions[c].Big? && c !in homes
    ensures LiveOk(regions - {c}, homes, live - {c}) && ChunksListed(regions - {c}, chains)
  {
  }

  /** The words of all other headers survive when the region at `c` is given back. */
  lemma WordsReturned(words: map<nat, nat>, regions: map<nat, Region>, homes: map<nat, Home>,
                      live: map<nat, Use>, c: nat)
    requires Regions(regions) && Homes(regions, homes) && LiveOk(regions, homes, live)
    requires HeadersIntact(words, live)
    requires c in live && c in regions && regions[c].Big? && c !in homes
    ensures HeadersIntact(Forget(words, c, Length(regions[c])), live - {c})
  {
    forall h | h in live - {c} ensures !(c < h < c + Length(regions[c])) {
      LiveBlocksApart(regions, homes, live, c, h);
      assert LiveAt(regions, homes, c, live[c]);
    }
  }

  /** Chunks are not empty, so their headers are outside every other region. */
  lemma ChunksOutside(regions: map<nat, Region>, chains: seq<seq<nat>>, c: nat)
    requires Regions(regions) && ChunksListed(regions, chains) && c in regions
    ensures forall i, b | 0 <= i < CLASSES && b in chains[i] && b != c :: !(c <= b < c + Length(regions[c]))
  {
    RegionsReturned(regions, c);
    forall i, b | 0 <= i < CLASSES && b in chains[i] && b != c
      ensures !(c <= b < c + Length(regions[c]))
    {
      assert Length(regions[b]) >= HEADER;
    }
  }

  lemma NoBlockIsRegion(regions: map<nat, Region>, homes: map<nat, Home>, c: nat)
    requires Regions(regions) && Homes(regions, homes) && c in regions
    ensures c !in homes
  {
    if c in homes { HomesNoRegion(regions, homes, c); }
  }

  lemma NotListed(regions: map<nat, Region>, chains: seq<seq<nat>>, c: nat)
    requires ChunksListed(regions, chains) && c in regions && regions[c].Big?
    ensures forall i | 0 <= i < CLASSES :: c !in chains[i]
  {
  }

  lemma LiveHeader(words: map<nat, nat>, regions: map<nat, Region>, homes: map<nat, Home>, live: map<nat, Use>, h: nat)
    requires HeadersIntact(words, live) && LiveOk(regions, homes, live) && h in live
    ensures h in words && words[h] == live[h].cls && LiveAt(regions, homes, h, live[h])
  {
  }

  /** A block that ends its free list and is made the head of list 0 leaves no sound lists. */
  lemma MisfiledBreaks(words: map<nat, nat>, heads: seq<nat>, free: seq<seq<nat>>, homes: map<nat, Home>,
                       live: map<nat, Use>, h: nat)
    requires Lists(words, heads, free) && FreeHomed(homes, free, live) && NoneLost(homes, free, live)
    requires h in homes && h !in live && h in words && words[h] == 0 && h != 0
    ensures !Lists(words[h := heads[0]], heads[0 := h], free)
  {
    var xs := free[0];
    assert ListIn(words, heads[0], xs) && NoRepeats(xs);
    hide Lists;
    if |xs| > 1 {
      assert words[xs[0]] == words[xs[1 - 1]] == xs[1];
    }
    assert !ListIn(words[h := heads[0]], h, xs);
    NotLists(words[h := heads[0]], heads[0 := h], free);
  }

  lemma NotLists(words: map<nat, nat>, heads: seq<nat>, lists: seq<seq<nat>>)
    requires |heads| == |lists| == CLASSES && !ListIn(words, heads[0], lists[0])
    ensures !Lists(words, heads, lists)
  {}

  // ---- giving all chunks back -------------------------------------------------------------------

  lemma ChunkReturned(words: map<nat, nat>, regions: map<nat, Region>, heads: seq<nat>, chains: seq<seq<nat>>, i: nat)
    requires Regions(regions) && Lists(words, heads, chains) && ChunksListed(regions, chains)
    requires i < CLASSES && chains[i] != []
    ensures heads[i] in words && heads[i] in regions && regions[heads[i]].Chunk?
    ensures
      var c := heads[i];
      && Regions(regions - {c})
      && Lists(Forget(words, c, Length(regions[c])), heads[i := words[c]], chains[i := chains[i][1..]])
      && ChunksListed(regions - {c}, chains[i := chains[i][1..]])
  {
    hide Regions, ListIn, NoRepeats;
    var c, rest := heads[i], chains[i := chains[i][1..]];
    ListsPop(words, heads, chains, i);
    assert c in chains[i];
    RegionsReturned(regions, c);
    ChunksOutside(regions, chains, c);
    forall j, b | 0 <= j < CLASSES && b in rest[j]
      ensures b in chains[j] && b != c
    {
    }
    assert chains[i] == [c] + chains[i][1..];
    ListsFrame(words, Forget(words, c, Length(regions[c])), heads[i := words[c]], rest);
  }

  /** The chunk lists of the classes before `i` have been given back. */
  ghost predicate Emptied(words: map<nat, nat>, regions: map<nat, Region>, heads: seq<nat>, rest: seq<seq<nat>>, i: nat) {
    && Regions(regions) && Lists(words, heads, rest) && ChunksListed(regions, rest)
    && |rest| == CLASSES && forall j | 0 <= j < i && j < CLASSES :: rest[j] == []
  }

  predicate OnlyChunksGone(was: map<nat, Region>, now: map<nat, Region>) {
    && (forall b | b in now :: b in was && now[b] == was[b])
    && (forall b | b in was && was[b].Big? :: b in now)
  }

  lemma AllGone(words: map<nat, nat>, regions: map<nat, Region>, heads: seq<nat>, rest: seq<seq<nat>>)
    requires Emptied(words, regions, heads, rest, CLASSES)
    ensures forall b | b in regions :: regions[b].Big?
  {
  }

  // ---- every block is free or live -----------------------------------------------------------------

  ghost function Elements(xs: seq<nat>): set<nat> { set x | x in xs }

  /** All blocks carved for class `i`. */
  ghost function BlocksOf(homes: map<nat, Home>, i: nat): set<nat> {
    set h | h in homes && homes[h].cls == i
  }

  lemma {:induction false} ListedOnce(xs: seq<nat>)
    requires NoRepeats(xs)
    ensures |Elements(xs)| == |xs|
  {
    if xs == [] {
      assert Elements(xs) == {};
    } else {
      var rest := xs[1..];
      assert NoRepeats(rest) by {
        forall a, b | 0 <= a < b < |rest| ensures rest[a] != rest[b] { assert xs[a + 1] != xs[b + 1]; }
      }
      ListedOnce(rest);
      assert xs == [xs[0]] + rest;
      assert Elements(xs) == {xs[0]} + Elements(rest);
      assert xs[0] !in Elements(rest);
    }
  }

  lemma FreeOrLive(regions: map<nat, Region>, homes: map<nat, Home>, free: seq<seq<nat>>, live: map<nat, Use>, i: nat)
    requires FreeHomed(homes, free, live) && NoneLost(homes, free, live) && LiveOk(regions, homes, live)
    requires Regions(regions) && Homes(regions, homes) && i < CLASSES
    ensures |BlocksOf(homes, i)| == |Elements(free[i])| + |LiveOf(live, i)|
  {
    hide Regions, Homes;
    forall h | h in live
      ensures live[h].cls == i ==> h in homes && homes[h].cls == i
      ensures h in homes ==> live[h].cls == homes[h].cls
    {
      assert LiveAt(regions, homes, h, live[h]);
      if h in homes { HomesNoRegion(regions, homes, h); }
    }
    hide LiveOk;
    assert BlocksOf(homes, i) == Elements(free[i]) + LiveOf(live, i);
    assert Elements(free[i]) !! LiveOf(live, i);
  }

  lemma BlockAligned(regions: map<nat, Region>, homes: map<nat, Home>, h: nat)
    requires Regions(regions) && Homes(regions, homes) && h in homes
    ensures h % 16 == 0 && h >= HEADER
  {
    hide Regions;
    assert HomeOk(regions, h, homes[h]);
    BlockInside(regions, h, homes[h]);
  }

  class MemoryPool {
    const freeList: array<nat>
    const chunkList: array<nat>
    var words: map<nat, nat>
    var regions: map<nat, Region>
    ghost var homes: map<nat, Home>
    ghost var live: map<nat, Use>
    ghost var free: seq<seq<nat>>
    ghost var chains: seq<seq<nat>>

    ghost predicate Shape()
      reads this, freeList, chunkList
    {
      && freeList != chunkList && freeList.Length == chunkList.Length == CLASSES
      && Regions(regions) && Homes(regions, homes)
      && Lists(words, freeList[..], free) && Lists(words, chunkList[..], chains)
      && FreeHomed(homes, free, live) && ChunksListed(regions, chains)
      && HeadersIntact(words, live) && LiveOk(regions, homes, live)
    }

    ghost predicate Valid()
      reads this, freeList, chunkList
    {
      Shape() && NoneLost(homes, free, live) && Balanced(free, live, chains, 0, 0)
    }

    /**
     What a client may rely on in every state a run of calls can reach: its block is 16-byte
     aligned, has the room asked for (unless header and size overflow a word), overlaps no other
     live block, and covers none of the allocator's links.
     */
    lemma LiveIsSafe(h: nat)
      requires Valid() && h in live
      ensures (h + HEADER) % 16 == 0
      ensures Room(live[h]) >= live[h].size <==> HEADER + live[h].size < WORD64
      ensures forall g | g in live && g != h :: Apart(g, HEADER + Room(live[g]), h, HEADER + Room(live[h]))
      ensures forall g | g != h && (g in homes || g in regions) :: Apart(h + HEADER, Room(live[h]), g, HEADER)
    {
      hide Lists, FreeHomed, NoneLost, ChunksListed, Balanced, Regions, Homes;
      LiveExtent(regions, homes, h, live[h]);
      hide LiveOk, Room, Bytes;
      forall g | g in live && g != h
        ensures Apart(g, HEADER + Room(live[g]), h, HEADER + Room(live[h]))
      {
        LiveBlocksApart(regions, homes, live, g, h);
      }
      forall g | g != h && (g in homes || g in regions)
        ensures Apart(h + HEADER, Room(live[h]), g, HEADER)
      {
        LivePayloadCoversNoLink(regions, homes, live, h, g);
      }
    }

    /** Free and live blocks of each class add up to its chunks times the blocks of a chunk. */
    lemma BlocksConserved(i: nat)
      requires Valid() && i < CLASSES
      ensures |free| == |chains| == CLASSES && NoRepeats(free[i])
      ensures |BlocksOf(homes, i)| == |free[i]| + |LiveOf(live, i)| == BLOCKS[i] * |chains[i]|
    {
      hide Regions, Homes, ListIn;
      ListedOnce(free[i]);
      FreeOrLive(regions, homes, free, live, i);
    }

    constructor ()
      ensures Valid() && fresh(freeList) && fresh(chunkList)
      ensures live == map[] && regions == map[]
    {
      freeList, chunkList := new nat[CLASSES], new nat[CLASSES];
      words, regions, homes, live := map[], map[], map[], map[];
      free, chains := seq(CLASSES, i => []), seq(CLASSES, i => []);
      new;
      for i := 0 to CLASSES
        modifies freeList, chunkList
        invariant forall j | 0 <= j < i :: freeList[j] == 0 && chunkList[j] == 0
      {
        freeList[i], chunkList[i] := 0, 0;
      }
    }

    /** `memorypool_create`: null exactly if its allocation fails. */
    static method Create(memory: bool) returns (pool: MemoryPool?)
      ensures pool == null <==> !memory
      ensures pool != null ==> pool.Valid() && fresh(pool) && fresh(pool.freeList) && fresh(pool.chunkList)
      ensures pool != null ==> pool.live == map[] && pool.regions == map[]
    {
      if !memory { return null; }
      pool := new MemoryPool();
    }

    /** The search for the smallest class that holds `size`. */
    static method FindClass(size: Word64) returns (idx: nat)
      ensures Fits(idx, size)
      ensures idx == FALLBACK <==> size > 4096
    {
      idx := FALLBACK;
      for i := 0 to CLASSES
        invariant idx == FALLBACK
        invariant forall j | 0 <= j < i :: SIZES[j] < size
      {
        if SIZES[i] >= size {
          idx := i;
          break;
        }
      }
      assert SIZES[7] == 4096;
    }

    /** Links a new chunk of class `i` into the chunk list. */
    method LinkChunk(i: nat, base: nat)
      requires Valid() && i < CLASSES
      requires Available(regions, base, Chunk(i)) && base != 0
      modifies this`words, this`regions, this`chains, chunkList
      ensures Shape() && NoneLost(homes, free, live) && Balanced(free, live, chains, i, BLOCKS[i])
      ensures regions == old(regions)[base := Chunk(i)]
    {
      hide Regions, Homes, Lists, FreeHomed, NoneLost, ChunksListed, LiveOk, HeadersIntact, Balanced;
      ListMembers(regions, homes, live, free, chains);
      HomesStay(regions, homes, base, Chunk(i));
      LiveStays(regions, homes, live, base, Chunk(i));
      ChunkListed(regions, chains, base, i);
      ChunkBalanced(free, live, chains, base, i);
      ListsPush(words, chunkList[..], chains, i, base);
      HeadersFrame(words, live, base, chunkList[i]);
      ListsFrame(words, words[base := chunkList[i]], freeList[..], free);
      words := words[base := chunkList[i]];
      chunkList[i] := base;
      regions := regions[base := Chunk(i)];
      chains := chains[i := [base] + chains[i]];
      assert chunkList[..] == old(chunkList[..])[i := base];
    }

    /** Carves the blocks of the new chunk at `base`, each pushed onto the free list. */
    method Carve(i: nat, base: nat)
      requires i < CLASSES && Shape() && NoneLost(homes, free, live)
      requires base in regions && regions[base] == Chunk(i)
      requires forall h | h in homes :: homes[h].base != base
      requires Balanced(free, live, chains, i, BLOCKS[i]) && |free| == CLASSES && free[i] == []
      modifies this`words, this`homes, this`free, freeList
      ensures Valid() && |free| == CLASSES && |free[i]| == BLOCKS[i]
    {
      hide Regions, Homes, Lists, FreeHomed, NoneLost, ChunksListed, LiveOk, HeadersIntact, Balanced;
      var start := base + HEADER;
      for k := 0 to BLOCKS[i]
        modifies this`words, this`homes, this`free, freeList
        invariant Shape() && NoneLost(homes, free, live)
        invariant Balanced(free, live, chains, i, BLOCKS[i] - k) && |free| == CLASSES && |free[i]| == k
        invariant forall h | h in homes && homes[h].base == base :: homes[h].j < k
      {
        PushBlock(i, base, k, start + k * BlockSize(i));
      }
      NoneMissing(free, live, chains, i);
    }

    method PushBlock(i: nat, base: nat, k: nat, block: nat)
      requires i < CLASSES && Shape() && NoneLost(homes, free, live)
      requires base in regions && regions[base] == Chunk(i) && k < BLOCKS[i]
      requires forall h | h in homes && homes[h].base == base :: homes[h].j < k
      requires block == Address(Home(base, i, k))
      requires Balanced(free, live, chains, i, BLOCKS[i] - k)
      modifies this`words, this`homes, this`free, freeList
      ensures Shape() && NoneLost(homes, free, live) && Balanced(free, live, chains, i, BLOCKS[i] - k - 1)
      ensures homes == old(homes)[block := Home(base, i, k)]
      ensures free == old(free)[i := [block] + old(free)[i]]
    {
      ghost var p := Home(base, i, k);
      hide Regions, Homes, Lists, FreeHomed, NoneLost, ChunksListed, LiveOk, HeadersIntact, Balanced;
      ListMembers(regions, homes, live, free, chains);
      NewBlock(regions, homes, p);
      BlockHomed(regions, homes, live, p);
      BlockListed(homes, free, live, block, p);
      BlockBalanced(free, live, chains, i, BLOCKS[i] - k, block);
      HeadersFrame(words, live, block, freeList[i]);
      ListsPush(words, freeList[..], free, i, block);
      ListsFrame(words, words[block := freeList[i]], chunkList[..], chains);
      words := words[block := freeList[i]];
      freeList[i] := block;
      homes := homes[block := p];
      free := free[i := [block] + free[i]];
      assert freeList[..] == old(freeList[..])[i := block];
    }

    /** Takes the first free block of class `i` and writes its header. */
    method Take(i: nat, size: Word64) returns (ptr: nat)
      requires Valid() && i < CLASSES && Fits(i, size) && freeList[i] != 0
      modifies this`words, this`live, this`free, freeList
      ensures Valid() && ptr == old(freeList[i]) + HEADER
      ensures old(freeList[i]) !in old(live)
      ensures live == old(live)[old(freeList[i]) := Use(i, size)]
      ensures Dropped(old(free), free, i)
    {
      hide Regions, Homes, Lists, FreeHomed, NoneLost, ChunksListed, LiveOk, HeadersIntact, Balanced;
      ListMembers(regions, homes, live, free, chains);
      NullIffEmpty(words, freeList[..], free, i);
      ListsPop(words, freeList[..], free, i);
      var block: nat := freeList[i];
      ghost var u := Use(i, size);
      HeadTaken(homes, free, live, i, u);
      HomesNoRegion(regions, homes, block);
      HeadLive(regions, homes, live, block, u);
      HeaderWritten(words, live, block, u);
      TakenBalanced(live, free, chains, block, u);
      ListsFrame(words, words[block := i], freeList[..][i := words[block]], free[i := free[i][1..]]);
      ListsFrame(words, words[block := i], chunkList[..], chains);
      freeList[i] := words[block];
      words := words[block := i];
      free := free[i := free[i][1..]];
      live := live[block := u];
      ptr := block + HEADER;
      assert freeList[..] == old(freeList[..])[i := old(words)[block]];
    }

    /** A request too big for every class; `base` is what `malloc` answers, 0 for a failure. */
    method TakeBig(size: Word64, base: nat) returns (ptr: nat)
      requires Valid() && Fits(FALLBACK, size)
      requires base != 0 ==> Available(regions, base, Big(Bytes(size)))
      modifies this`words, this`regions, this`live
      ensures Valid()
      ensures base == 0 ==> ptr == 0 && live == old(live) && regions == old(regions)
      ensures base != 0 ==>
        && ptr == base + HEADER && base !in old(live)
        && live == old(live)[base := Use(FALLBACK, size)]
        && regions == old(regions)[base := Big(Bytes(size))]
    {
      hide Regions, Homes, Lists, FreeHomed, NoneLost, ChunksListed, LiveOk, HeadersIntact, Balanced, Fits;
      if base == 0 { return 0; }
      ghost var u := Use(FALLBACK, size);
      ListMembers(regions, homes, live, free, chains);
      HomesStay(regions, homes, base, Big(Bytes(size)));
      BigLive(regions, homes, live, base, u);
      BigIsNoChunk(regions, chains, base, Bytes(size));
      NotFree(homes, free, live, base, u);
      HeaderWritten(words, live, base, u);
      NoChange(live, free, chains, base, u);
      ListsFrame(words, words[base := FALLBACK], freeList[..], free);
      ListsFrame(words, words[base := FALLBACK], chunkList[..], chains);
      words := words[base := FALLBACK];
      regions := regions[base := Big(Bytes(size))];
      live := live[base := u];
      return base + HEADER;
    }

    /** A new chunk for class `i`, whose free list has run empty. */
    method Grow(i: nat, base: nat)
      requires Valid() && i < CLASSES && freeList[i] == 0
      requires base != 0 && Available(regions, base, Chunk(i))
      modifies this`words, this`regions, this`homes, this`free, this`chains, freeList, chunkList
      ensures Valid() && freeList[i] != 0
      ensures regions == old(regions)[base := Chunk(i)]
    {
      hide Regions, Homes, Lists, FreeHomed, NoneLost, ChunksListed, LiveOk, HeadersIntact, Balanced;
      ListMembers(regions, homes, live, free, chains);
      NullIffEmpty(words, freeList[..], free, i);
      NoHomeIn(regions, homes, base);
      LinkChunk(i, base);
      Carve(i, base);
      NullIffEmpty(words, freeList[..], free, i);
    }

    /**
     What `malloc` answers, if it is called: nothing, or the start of memory that was not in use.
     */
    ghost predicate MayAnswer(size: Word64, base: nat)
      requires freeList.Length == CLASSES
      reads this, freeList
    {
      var cls := ClassOf(size);
      && (base != 0 && cls == FALLBACK ==> Available(regions, base, Big(Bytes(size))))
      && (base != 0 && cls < CLASSES && freeList[cls] == 0 ==> Available(regions, base, Chunk(cls)))
    }

    /**
     `memorypool_alloc`. The pointer is null exactly when the size is 0 or `malloc` was called and
     failed; otherwise one more block is live, of the smallest class that holds the size, and
     nothing else changed hands.
     */
    method Alloc(size: Word64, base: nat) returns (ptr: nat)
      requires Valid() && MayAnswer(size, base)
      modifies this`words, this`regions, this`homes, this`live, this`free, this`chains, freeList, chunkList
      ensures Valid()
      ensures ptr == 0 <==> size == 0 || (base == 0 && (ClassOf(size) == FALLBACK || old(freeList[ClassOf(size)]) == 0))
      ensures ptr == 0 ==> live == old(live) && regions == old(regions)
      ensures ptr != 0 ==>
        && ptr > HEADER && ptr - HEADER !in old(live)
        && live == old(live)[ptr - HEADER := Use(ClassOf(size), size)]
      ensures size != 0 && ClassOf(size) < CLASSES && old(freeList[ClassOf(size)]) != 0 ==>
        ptr != 0 && Dropped(old(free), free, ClassOf(size))
    {
      hide Regions, Homes, Lists, FreeHomed, NoneLost, ChunksListed, LiveOk, HeadersIntact, Balanced, Fits;
      if size == 0 { return 0; }
      var idx := FindClass(size);
      FitsOnce(idx, size);
      if idx == FALLBACK {
        ptr := TakeBig(size, base);
        return;
      }
      if freeList[idx] == 0 {
        if base == 0 { return 0; }
        Grow(idx, base);
      }
      ptr := Take(idx, size);
    }

    /** The `free` of the C library: the region must be there, and nothing in it can be read again. */
    method Return(base: nat)
      requires Regions(regions) && base in regions
      modifies this`words, this`regions
      ensures regions == old(regions) - {base}
      ensures words == Forget(old(words), base, Length(old(regions)[base]))
    {
      words := Forget(words, base, Length(regions[base]));
      regions := regions - {base};
    }

    ghost predicate IsEmpty(i: nat)
      reads this
    {
      i < |free| && free[i] == []
    }

    lemma EmptyIffNull(i: nat)
      requires Valid() && i < CLASSES
      ensures |free| == freeList.Length == CLASSES && (freeList[i] == 0 <==> IsEmpty(i))
    {
      hide Regions, Homes, FreeHomed, NoneLost, ChunksListed, LiveOk, HeadersIntact, Balanced;
      NullIffEmpty(words, freeList[..], free, i);
    }

    /** A list of one block: its head, which a second `Free` would misread. */
    lemma OnlyOne(i: nat)
      requires Valid() && i < CLASSES && i < |free| && |free[i]| == 1
      ensures freeList[i] == free[i][0] && Misread(free[i][0] + HEADER)
    {
      hide Regions, Homes, NoneLost, ChunksListed, LiveOk, HeadersIntact, Balanced;
      LinkOf(i, 0);
      assert ListIn(words, freeList[i], free[i]) && free[i][0] in free[i];
    }

    /** The class index in a live block's header says where the block came from. */
    lemma HeaderOf(h: nat)
      requires Valid() && h in live
      ensures h in words && words[h] == live[h].cls
      ensures live[h].cls < CLASSES || live[h].cls == FALLBACK
      ensures live[h].cls < CLASSES ==> h in homes && homes[h].cls == live[h].cls
      ensures live[h].cls == FALLBACK ==> h in regions && regions[h] == Big(Bytes(live[h].size))
    {
      hide Regions, Homes, Lists, FreeHomed, NoneLost, ChunksListed, Balanced;
      LiveHeader(words, regions, homes, live, h);
    }

    /** The first word of a free block is a link: null at the end of its list, else no class index. */
    lemma LinkOf(i: nat, j: nat)
      requires Valid() && i < CLASSES && j < |free[i]|
      ensures free[i][j] !in live && free[i][j] in words
      ensures words[free[i][j]] == 0 <==> j == |free[i]| - 1
      ensures j < |free[i]| - 1 ==> Ignored(words[free[i][j]])
    {
      hide Regions, NoneLost, ChunksListed, LiveOk, HeadersIntact, Balanced;
      assert ListIn(words, freeList[i], free[i]);
      hide Lists;
      var h := free[i][j];
      if j < |free[i]| - 1 {
        var k := j + 1;
        assert words[free[i][k - 1]] == free[i][k] && free[i][k] in free[i];
        BlockAligned(regions, homes, free[i][k]);
      }
    }

    /** The first word of a block that is not in use: a link, so null or no class index. */
    lemma FreeWord(h: nat)
      requires Valid() && h in homes && h !in live
      ensures h in words && (words[h] == 0 || Ignored(words[h]))
    {
      hide Regions, Homes, Lists, FreeHomed, ChunksListed, LiveOk, HeadersIntact, Balanced;
      var i := homes[h].cls;
      var j :| 0 <= j < |free[i]| && free[i][j] == h;
      LinkOf(i, j);
    }

    /** A block that is free already and ends its list: its null link reads as class 0. */
    ghost predicate Misread(ptr: nat)
      reads this
    {
      ptr >= HEADER && ptr - HEADER in homes && ptr - HEADER !in live && ptr - HEADER in words && words[ptr - HEADER] == 0
    }

    /**
     `memorypool_free` of null, of a live pointer, of a block that is free already, or of a pointer
     whose header names no class. Exactly the live block stops being live, and only memory that
     came from `malloc` for it alone goes back. The pool survives unless the block is free already
     and ends its list: then the block is pushed onto the list of class 0 as well.
     */
    method Free(ptr: nat)
      requires Valid()
      requires ptr != 0 ==> ptr >= HEADER
      requires ptr != 0 ==> ptr - HEADER in live || ptr - HEADER in homes || (ptr - HEADER in words && Ignored(words[ptr - HEADER]))
      modifies this`words, this`regions, this`live, this`free, freeList
      ensures Valid() <==> !old(Misread(ptr))
      ensures ptr == 0 || ptr - HEADER !in old(live) ==> live == old(live) && regions == old(regions) && free == old(free)
      ensures (ptr == 0 || ptr - HEADER !in old(live)) && !old(Misread(ptr)) ==> words == old(words) && freeList[..] == old(freeList[..])
      ensures old(Misread(ptr)) ==> freeList[..] == old(freeList[..])[0 := ptr - HEADER] && words == old(words)[ptr - HEADER := old(freeList[0])]
      ensures ptr != 0 ==> live == old(live) - {ptr - HEADER}
      ensures ptr != 0 && ptr - HEADER in old(live) && old(live)[ptr - HEADER].cls == FALLBACK ==> regions == old(regions) - {ptr - HEADER}
      ensures ptr != 0 && ptr - HEADER in old(live) && old(live)[ptr - HEADER].cls < CLASSES ==>
        regions == old(regions) && Prepended(old(free), free, old(live)[ptr - HEADER].cls, ptr - HEADER)
    {
      hide Valid, Shape, LiveOf;
      if ptr == 0 { return; }
      var allocator: nat := ptr - HEADER;
      if allocator in live {
        HeaderOf(allocator);
      } else if allocator in homes {
        FreeWord(allocator);
      }
      var idx := words[allocator];
      if idx == FALLBACK {
        FreeBig(allocator);
        return;
      }
      if idx >= CLASSES { return; }
      PutBack(allocator, idx);
    }

    /** Pushes a block onto the list of the class its header names, be it live or, misread, free. */
    method PutBack(block: nat, i: nat)
      requires Valid() && i < CLASSES && block in homes && block in words && words[block] == i
      requires block in live ==> live[block].cls == homes[block].cls == i
      requires block !in live ==> i == 0
      modifies this`words, this`live, this`free, freeList
      ensures Valid() <==> block in old(live)
      ensures freeList[..] == old(freeList[..])[i := block] && words == old(words)[block := old(freeList[i])]
      ensures live == old(live) - {block}
      ensures if block in old(live) then Prepended(old(free), free, i, block) else free == old(free)
    {
      hide Regions, Homes, Lists, FreeHomed, NoneLost, ChunksListed, LiveOk, HeadersIntact, Balanced;
      ListMembers(regions, homes, live, free, chains);
      HomesNoRegion(regions, homes, block);
      if block in live {
        BlockReturned(homes, free, live, block, i);
        LiveReturned(regions, homes, live, block);
        HeaderReleased(words, live, block, freeList[i]);
        ReturnedBalanced(live, free, chains, block);
        ListsPush(words, freeList[..], free, i, block);
        ListsFrame(words, words[block := freeList[i]], chunkList[..], chains);
        free := free[i := [block] + free[i]];
        live := live - {block};
      } else {
        MisfiledBreaks(words, freeList[..], free, homes, live, block);
      }
      words := words[block := freeList[i]];
      freeList[i] := block;
      assert freeList[..] == old(freeList[..])[i := block];
    }

    method FreeBig(base: nat)
      requires Valid() && base in live && live[base].cls == FALLBACK
      requires base in regions && regions[base].Big?
      modifies this`words, this`regions, this`live
      ensures Valid() && live == old(live) - {base} && regions == old(regions) - {base}
    {
      hide Regions, Homes, Lists, FreeHomed, NoneLost, ChunksListed, LiveOk, HeadersIntact, Balanced;
      ListMembers(regions, homes, live, free, chains);
      HomesReturned(regions, homes, base);
      NoBlockIsRegion(regions, homes, base);
      RegionsReturned(regions, base);
      ChunksOutside(regions, chains, base);
      BigReturned(regions, homes, live, chains, base);
      WordsReturned(words, regions, homes, live, base);
      NotFree(homes, free, live, base, live[base]);
      ReturnedBalanced(live, free, chains, base);
      NotListed(regions, chains, base);
      ListsFrame(words, Forget(words, base, Length(regions[base])), freeList[..], free);
      ListsFrame(words, Forget(words, base, Length(regions[base])), chunkList[..], chains);
      live := live - {base};
      Return(base);
    }

    /**
     `memorypool_destroy`: every chunk goes back to `free`, once; what remains are the allocations
     the caller has not released.
     */
    method Destroy()
      requires Valid()
      modifies this`words, this`regions
      ensures regions.Keys == set b | b in old(regions) && old(regions)[b].Big?
      ensures forall b | b in regions :: regions[b] == old(regions)[b]
    {
      hide Regions, Lists, ChunksListed, ListIn, LiveOk, Homes, FreeHomed, HeadersIntact, NoneLost, Balanced;
      ListMembers(regions, homes, live, free, chains);
      ghost var heads: seq<nat>, rest: seq<seq<nat>> := chunkList[..], chains;
      for i := 0 to CLASSES
        modifies this`words, this`regions
        invariant Emptied(words, regions, heads, rest, i) && OnlyChunksGone(old(regions), regions)
        invariant |heads| == CLASSES && forall j | i <= j < CLASSES :: heads[j] == chunkList[j]
      {
        var chunk: nat := chunkList[i];
        while chunk != 0
          modifies this`words, this`regions
          invariant Emptied(words, regions, heads, rest, i) && OnlyChunksGone(old(regions), regions)
          invariant |heads| == CLASSES && heads[i] == chunk
          invariant forall j | i < j < CLASSES :: heads[j] == chunkList[j]
          decreases |rest[i]|
        {
          NullIffEmpty(words, heads, rest, i);
          ChunkReturned(words, regions, heads, rest, i);
          var next: nat := words[chunk];
          Return(chunk);
          heads, rest := heads[i := next], rest[i := rest[i][1..]];
          chunk := next;
        }
        NullIffEmpty(words, heads, rest, i);
      }
      AllGone(words, regions, heads, rest);
    }
  }

  /**
   The largest size asked of a new pool: header and size wrap around to 15 bytes, and the block
   that is handed out has no room at all.
   */
  method ShortBlock() returns (pool: MemoryPool, ptr: nat)
    ensures pool.Valid() && ptr >= HEADER && ptr - HEADER in pool.live
    ensures Room(pool.live[ptr - HEADER]) < pool.live[ptr - HEADER].size
  {
    pool := new MemoryPool();
    var size: Word64 := 0xffff_ffff_ffff_ffff;
    BytesExact(size);
    FitsOnce(FALLBACK, size);
    assert Available(pool.regions, 16, Big(Bytes(size)));
    ptr := pool.Alloc(size, 16);
  }

  lemma LargestClass()
    ensures ClassOf(4096) == 7 && Available(map[], 16, Chunk(7))
  {
    FitsOnce(7, 4096);
  }

  /** Takes a block of the largest class, from the free list or from the first chunk of a new pool. */
  method TakeLargest(pool: MemoryPool, base: nat) returns (ptr: nat)
    requires pool.Valid() && pool.freeList.Length == CLASSES
    requires if base == 0 then pool.freeList[7] != 0 else base == 16 && pool.regions == map[]
    modifies pool`words, pool`regions, pool`homes, pool`live, pool`free, pool`chains, pool.freeList, pool.chunkList
    ensures pool.Valid() && ptr > HEADER && ptr - HEADER in pool.live && pool.live[ptr - HEADER].cls == 7
    ensures base == 0 ==> Dropped(old(pool.free), pool.free, 7)
  {
    hide Available, ClassOf, MemoryPool.Valid;
    LargestClass();
    ptr := pool.Alloc(4096, base);
  }

  /** Takes blocks of the largest class until its free list is empty; answers the last one. */
  method Drain(pool: MemoryPool) returns (ptr: nat)
    requires pool.Valid() && pool.regions == map[]
    modifies pool, pool.freeList, pool.chunkList
    ensures pool.Valid() && ptr > HEADER && ptr - HEADER in pool.live && pool.live[ptr - HEADER].cls == 7
    ensures pool.IsEmpty(7)
  {
    hide MemoryPool.Valid;
    pool.EmptyIffNull(7);
    ptr := TakeLargest(pool, 16);
    pool.EmptyIffNull(7);
    while pool.freeList[7] != 0
      invariant pool.Valid() && pool.freeList.Length == |pool.free| == CLASSES
      invariant pool.freeList[7] == 0 <==> pool.IsEmpty(7)
      invariant ptr > HEADER && ptr - HEADER in pool.live && pool.live[ptr - HEADER].cls == 7
      decreases |pool.free[7]|
    {
      ptr := TakeLargest(pool, 0);
      pool.EmptyIffNull(7);
    }
  }

  /**
   A block freed twice. All blocks of the largest class are taken, the last one is freed, and freed
   again: it now heads the free lists of both the largest and the smallest class.
   */
  method FreedTwice() returns (pool: MemoryPool, ptr: nat)
    ensures pool.freeList.Length == CLASSES && ptr > HEADER
    ensures pool.freeList[0] == pool.freeList[7] == ptr - HEADER && !pool.Valid()
  {
    hide MemoryPool.Valid, MemoryPool.Shape;
    pool := new MemoryPool();
    ptr := Drain(pool);
    pool.HeaderOf(ptr - HEADER);
    pool.Free(ptr);
    pool.EmptyIffNull(7);
    pool.OnlyOne(7);
    pool.Free(ptr);
  }
}
