/**
 The address space of the size-class allocator: the regions obtained from `malloc`, the blocks
 carved from them, and the lists threaded through the blocks' first words.
 */
module BlockMemory {
  import opened Powers

  const CLASSES: nat := 8
  const FALLBACK: nat := 0xff
  const SIZES: seq<nat> := [32, 64, 128, 256, 512, 1024, 2048, 4096]
  const BLOCKS: seq<nat> := [1024, 512, 256, 128, 64, 32, 16, 8]
  const HEADER: nat := 16

  function BlockSize(i: nat): (n: nat)
    requires i < CLASSES
    ensures n > HEADER && n % 16 == 0
  {
    SIZES[i] + HEADER
  }

  /** What was asked of `malloc`: a chunk of a class, or one big allocation. */
  datatype Region = Chunk(cls: nat) | Big(bytes: nat)

  predicate ValidRegion(r: Region) { r.Chunk? ==> r.cls < CLASSES }

  function Length(r: Region): nat
    requires ValidRegion(r)
  {
    match r
    case Chunk(i) => HEADER + BLOCKS[i] * BlockSize(i)
    case Big(bytes) => bytes
  }

  predicate Apart(a: nat, m: nat, b: nat, n: nat) {
    a + m <= b || b + n <= a
  }

  /** What `malloc` promises: regions are aligned and do not overlap. */
  predicate Regions(regions: map<nat, Region>) {
    && (forall b | b in regions :: b > 0 && b % 16 == 0 && ValidRegion(regions[b]))
    && (forall b, c | b in regions && c in regions && b != c :: Apart(b, Length(regions[b]), c, Length(regions[c])))
  }

  /** `malloc` may answer `base` to a request for `r`. */
  predicate Available(regions: map<nat, Region>, base: nat, r: Region) {
    ValidRegion(r) && Regions(regions[base := r]) && base !in regions
  }

  /** Where a block lies: the j-th of the chunk at `base`. */
  datatype Home = Home(base: nat, cls: nat, j: nat)

  function Address(p: Home): nat
    requires p.cls < CLASSES
  {
    p.base + HEADER + p.j * BlockSize(p.cls)
  }

  predicate HomeOk(regions: map<nat, Region>, h: nat, p: Home) {
    && p.cls < CLASSES && p.base in regions && regions[p.base] == Chunk(p.cls)
    && p.j < BLOCKS[p.cls] && h == Address(p)
  }

  predicate Homes(regions: map<nat, Region>, homes: map<nat, Home>) {
    forall h | h in homes :: HomeOk(regions, h, homes[h])
  }

  // ---- geometry -----------------------------------------------------------------------------

  lemma MulMonotone(a: nat, b: nat, n: nat)
    requires a < b
    ensures a * n + n <= b * n
  {
    var d: nat := b - a - 1;
    assert b * n == (a + 1 + d) * n == a * n + n + d * n;
  }

  lemma MulAligned(j: nat, n: nat)
    requires n % 16 == 0
    ensures j * n % 16 == 0
  {
    var k := n / 16;
    assert j * n == 16 * (j * k);
  }

  lemma SumAligned(a: nat, b: nat)
    requires a % 16 == 0 && b % 16 == 0
    ensures (a + HEADER + b) % 16 == 0
  {
  }

  /** A block lies inside its chunk, behind the chunk's header, and is aligned. */
  lemma BlockInside(regions: map<nat, Region>, h: nat, p: Home)
    requires Regions(regions) && HomeOk(regions, h, p)
    ensures p.base + HEADER <= h && h + BlockSize(p.cls) <= p.base + Length(regions[p.base])
    ensures h % 16 == 0
  {
    assert p.base % 16 == 0;
    hide Regions, BlockSize;
    var n := BlockSize(p.cls);
    MulMonotone(p.j, BLOCKS[p.cls], n);
    MulAligned(p.j, n);
    SumAligned(p.base, p.j * n);
  }

  /** Different blocks do not overlap. */
  lemma BlocksApart(regions: map<nat, Region>, g: nat, p: Home, h: nat, q: Home)
    requires Regions(regions) && HomeOk(regions, g, p) && HomeOk(regions, h, q) && p != q
    ensures Apart(g, BlockSize(p.cls), h, BlockSize(q.cls))
  {
    BlockInside(regions, g, p);
    BlockInside(regions, h, q);
    if p.base == q.base {
      if p.j < q.j {
        MulMonotone(p.j, q.j, BlockSize(p.cls));
      } else {
        MulMonotone(q.j, p.j, BlockSize(p.cls));
      }
    }
  }

  /** The room of a class doubles from 32 bytes on, and each chunk has the same room in all. */
  lemma ClassesMean(i: nat)
    requires i < CLASSES
    ensures SIZES[i] == 32 * Pow(2, i) && SIZES[i] * BLOCKS[i] == 0x8000
    ensures BlockSize(i) == SIZES[i] + 16
    ensures CLASSES == 8 && HEADER == 16 && FALLBACK == 255
  {
    FirstClasses();
    LastClasses();
    hide Pow;
  }

  lemma FirstClasses()
    ensures Pow(2, 0) == 1 && Pow(2, 1) == 2 && Pow(2, 2) == 4 && Pow(2, 3) == 8
  {}

  lemma LastClasses()
    ensures Pow(2, 4) == 16 && Pow(2, 5) == 32 && Pow(2, 6) == 64 && Pow(2, 7) == 128
  {
    FirstClasses();
  }

  /** The blocks fill their chunk: the first begins behind the header, each at the end of the one before, and the last ends the chunk. */
  lemma ChunkFilled(base: nat, i: nat, j: nat)
    requires i < CLASSES && j < BLOCKS[i]
    ensures Address(Home(base, i, 0)) == base + 16
    ensures Address(Home(base, i, j)) + BlockSize(i) ==
      if j + 1 < BLOCKS[i] then Address(Home(base, i, j + 1)) else base + Length(Chunk(i))
  {
    var n := BlockSize(i);
    assert (j + 1) * n == j * n + n;
  }

  // ---- lists threaded through memory ----------------------------------------------------------

  /** From `head` the first words of the blocks lead through `xs` and end in NULL. */
  predicate ListIn(words: map<nat, nat>, head: nat, xs: seq<nat>) {
    && head == (if xs == [] then 0 else xs[0])
    && (forall j | 0 <= j < |xs| :: xs[j] != 0 && xs[j] in words)
    && (xs != [] ==> words[xs[|xs| - 1]] == 0)
    && (forall j | 0 < j < |xs| :: words[xs[j - 1]] == xs[j])
  }

  lemma ListFrame(words: map<nat, nat>, head: nat, xs: seq<nat>, h: nat, v: nat)
    requires ListIn(words, head, xs) && h !in xs
    ensures ListIn(words[h := v], head, xs)
  {
    assert forall j | 0 <= j < |xs| :: xs[j] in xs;
  }

  lemma ListPush(words: map<nat, nat>, head: nat, xs: seq<nat>, h: nat)
    requires ListIn(words, head, xs) && h !in xs && h != 0
    ensures ListIn(words[h := head], h, [h] + xs)
  {
    ListFrame(words, head, xs, h, head);
    var us := [h] + xs;
    forall j | 0 < j < |us| ensures words[h := head][us[j - 1]] == us[j] {
      if j > 1 {
        var k := j - 1;
        assert words[h := head][xs[k - 1]] == xs[k];
      }
    }
  }

  lemma ListPop(words: map<nat, nat>, head: nat, xs: seq<nat>)
    requires ListIn(words, head, xs) && xs != []
    ensures head == xs[0] && head in words && ListIn(words, words[head], xs[1..])
  {
    var us := xs[1..];
    if us != [] {
      assert words[xs[0]] == xs[1];
      forall j | 0 < j < |us| ensures words[us[j - 1]] == us[j] {
        var k := j + 1;
        assert words[xs[k - 1]] == xs[k];
      }
    }
  }
}
