// The allocator of process images (process_pool.h, process_pool.cpp): a bitmap with a bit for
// each kilobyte of the pool, and the table of the blocks that are in use.

module Bitmaps {

  function Mask(k: nat): bv32
    requires k < 32
  {
    (1 as bv32) << k
  }

  function Test(w: bv32, mask: bv32): bool
  {
    w & mask != 0
  }

  function Bit(w: bv32, k: nat): bool
    requires k < 32
  {
    Test(w, Mask(k))
  }

  /** The bits of a bitmap, in the order testBit numbers them. */
  ghost function Unpacked(words: seq<bv32>): seq<bool>
  {
    seq(32 * |words|, i requires 0 <= i < 32 * |words| => Bit(words[i / 32], i % 32))
  }

  predicate OneBit(m: bv32)
  {
    m != 0 && m & (m - 1) == 0
  }

  lemma MaskHasOneBit(k: nat)
    requires k < 32
    ensures OneBit(Mask(k))
  {
  }

  lemma MasksDiffer(k: nat, j: nat)
    requires k < 32 && j < 32
    ensures Mask(k) == Mask(j) <==> k == j
  {
  }

  lemma MaskFacts(k: nat, j: nat, m: bv32, o: bv32)
    requires k < 32 && j < 32 && m == Mask(k) && o == Mask(j)
    ensures OneBit(m) && OneBit(o) && (m == o <==> k == j)
  {
    MaskHasOneBit(k);
    MaskHasOneBit(j);
    MasksDiffer(k, j);
  }

  lemma MaskTests(j: nat, o: bv32)
    requires j < 32 && o == Mask(j)
    ensures forall w :: Bit(w, j) == Test(w, o)
  {
  }

  lemma OneBitChanges(w: bv32, m: bv32, o: bv32)
    requires OneBit(m) && OneBit(o)
    ensures Test(w | m, o) == (Test(w, o) || m == o)
    ensures Test(w & !m, o) == (Test(w, o) && m != o)
  {
  }

  lemma BitChanges(w: bv32, k: nat, j: nat, m: bv32, o: bv32)
    requires k < 32 && j < 32 && OneBit(m) && OneBit(o) && (m == o <==> k == j)
    requires forall v :: Bit(v, j) == Test(v, o)
    ensures Bit(w | m, j) == (Bit(w, j) || j == k)
    ensures Bit(w & !m, j) == (Bit(w, j) && j != k)
  {
    OneBitChanges(w, m, o);
  }

  /** x is w with bit k set to v. */
  ghost predicate Sets(w: bv32, x: bv32, k: nat, v: bool)
  {
    forall j :: 0 <= j < 32 ==> Bit(x, j) == if j == k then v else Bit(w, j)
  }

  /** Or with a mask sets its bit, and with the complement clears it, and neither changes another bit. */
  lemma BitsChange(w: bv32, k: nat, m: bv32)
    requires k < 32 && m == Mask(k)
    ensures Sets(w, w | m, k, true) && Sets(w, w & !m, k, false)
  {
    forall j | 0 <= j < 32
      ensures Bit(w | m, j) == (Bit(w, j) || j == k) && Bit(w & !m, j) == (Bit(w, j) && j != k)
    {
      MaskTests(j, Mask(j));
      MaskFacts(k, j, m, Mask(j));
      BitChanges(w, k, j, m, Mask(j));
    }
  }

  /** Writing one word, so that only one of its bits changes, changes one bit of the bitmap. */
  lemma WordWritten(words: seq<bv32>, bit: nat, w: bv32, v: bool)
    requires bit < 32 * |words|
    requires Sets(words[bit / 32], w, bit % 32, v)
    ensures Unpacked(words[bit / 32 := w]) == Unpacked(words)[bit := v]
  {
  }

  method WithBit(w: bv32, k: nat) returns (x: bv32)
    requires k < 32
    ensures Sets(w, x, k, true)
  {
    BitsChange(w, k, Mask(k));
    return w | Mask(k);
  }

  method WithoutBit(w: bv32, k: nat) returns (x: bv32)
    requires k < 32
    ensures Sets(w, x, k, false)
  {
    BitsChange(w, k, Mask(k));
    return w & !Mask(k);
  }
}

module ProcessPools {
  import opened Word
  import opened Bitmaps

  const BLOCK: nat := 1024

  /** The sizes in bytes of the blocks in use, by address. */
  type Blocks = map<nat, nat>

  // ----- powers of two

  lemma {:induction false} AndSelf(x: nat)
    ensures BitAnd(x, x) == x
  {
    if x > 0 { AndSelf(x / 2); }
  }

  ghost predicate PowerOfTwo(x: nat)
  {
    exists k :: x == Pow2(k)
  }

  /** The test for powers of two is exact. */
  lemma {:induction false} PowerOfTwoIff(x: nat)
    requires x > 0
    ensures BitAnd(x, x - 1) == 0 <==> PowerOfTwo(x)
  {
    if x == 1 {
      assert x == Pow2(0);
    } else if x % 2 == 1 {
      AndSelf(x / 2);
      assert (x - 1) / 2 == x / 2;
      assert forall k :: Pow2(k) % 2 == 1 ==> k == 0;
    } else {
      PowerOfTwoIff(x / 2);
      assert (x - 1) / 2 == x / 2 - 1;
      if BitAnd(x, x - 1) == 0 {
        var k: nat :| x / 2 == Pow2(k);
        assert x == Pow2(k + 1);
      } else {
        forall k: nat
          ensures x != Pow2(k)
        {
          if k > 0 { assert x / 2 != Pow2(k - 1); }
        }
      }
    }
  }

  lemma {:induction false} PowerInBlocks(k: nat)
    requires k >= 10
    ensures Pow2(k) % BLOCK == 0
  {
    if k > 10 {
      PowerInBlocks(k - 1);
      TwiceInBlocks(Pow2(k - 1));
    } else {
      Tenth();
    }
  }

  lemma TwiceInBlocks(x: nat)
    requires x % BLOCK == 0
    ensures 2 * x % BLOCK == 0
  {
  }

  predicate GoodSize(size: nat, poolSize: nat)
  {
    BitAnd(size, Wrap32(size - 1)) == 0 && size <= poolSize && size >= BLOCK
  }

  /** A size that allocate accepts is a number of blocks. */
  lemma GoodSizeBlocks(size: nat, poolSize: nat)
    requires GoodSize(size, poolSize) && poolSize < 0x1_0000_0000
    ensures size % BLOCK == 0 && PowerOfTwo(size)
  {
    PowerOfTwoIff(size);
    var k: nat :| size == Pow2(k);
    Tenth();
    if k < 10 { Pow2Monotone(k + 1, 10); }
    PowerInBlocks(k);
  }

  /** The sizes that allocate accepts, in plain words. */
  lemma GoodSizeIff(size: nat, poolSize: nat)
    requires poolSize < 0x1_0000_0000
    ensures GoodSize(size, poolSize) <==> PowerOfTwo(size) && 1024 <= size <= poolSize
  {
    if BLOCK <= size <= poolSize { PowerOfTwoIff(size); }
  }

  lemma Tenth()
    ensures Pow2(10) == BLOCK
  {
    assert Pow2(5) == 32;
    assert Pow2(10) == 32 * Pow2(5);
  }

  // ----- alignment

  /** The first bit that allocate looks at. */
  function StartBit(base: nat, size: nat): (bit: nat)
    requires size >= BLOCK
    ensures bit <= size / BLOCK
  {
    (if base % size == 0 then 0 else size - base % size) / BLOCK
  }

  /** Slots, every size bytes from the first bit, are aligned exactly in a pool that starts at a kilobyte. */
  lemma StartAlignedIff(base: nat, size: nat)
    requires size >= BLOCK && size % BLOCK == 0
    ensures (base + StartBit(base, size) * BLOCK) % size == 0 <==> base % BLOCK == 0
  {
    var r, q, n := base % size, base / size, size / BLOCK;
    assert base == q * size + r;
    KiloOf(q, size, r);
    if r == 0 {
      assert StartBit(base, size) == 0;
    } else {
      var gap := r % BLOCK;
      assert gap == base % BLOCK;
      var s := StartBit(base, size);
      if gap == 0 {
        assert s * BLOCK == size - r;
        DivModUnique(base + s * BLOCK, size, q + 1, 0);
      } else {
        assert s * BLOCK == size - r - (BLOCK - gap);
        DivModUnique(base + s * BLOCK, size, q, size - (BLOCK - gap));
      }
    }
  }

  lemma KiloOf(q: nat, size: nat, r: nat)
    requires size % BLOCK == 0
    ensures (q * size + r) % BLOCK == r % BLOCK
  {
    var n := size / BLOCK;
    assert q * size == (q * n) * BLOCK;
    DivModUnique(q * size + r, BLOCK, q * n + r / BLOCK, r % BLOCK);
  }

  /** An aligned address further on is a whole number of slots further on. */
  lemma AlignedApart(x: nat, y: nat, size: nat)
    requires size > 0 && x % size == 0 && y % size == 0 && x < y
    ensures x + size <= y && (x + size) % size == 0
  {
    var a, b := x / size, y / size;
    assert x == a * size && y == b * size;
    CancelLess(a, b, size);
    OrderTimes(a + 1, b, size);
    assert (a + 1) * size == x + size;
    DivModUnique(x + size, size, a + 1, 0);
  }

  /** No aligned address of the pool comes before the first slot. */
  lemma StartFirst(base: nat, a: nat, size: nat)
    requires size >= BLOCK && size % BLOCK == 0 && base % BLOCK == 0 && base <= a && a % size == 0
    ensures base + BLOCK * StartBit(base, size) <= a
  {
    var first := base + BLOCK * StartBit(base, size);
    StartAlignedIff(base, size);
    if a < first { AlignedApart(a, first, size); }
  }

  // ----- the live blocks and the bitmap

  ghost predicate Disjoint(a: nat, aSize: nat, b: nat, bSize: nat)
  {
    a + aSize <= b || b + bSize <= a
  }

  ghost predicate BlockOk(a: nat, blocks: Blocks, base: nat, poolSize: nat)
    requires a in blocks
  {
    && base <= a && (a - base) % BLOCK == 0 && a + blocks[a] <= base + poolSize
    && PowerOfTwo(blocks[a]) && blocks[a] >= BLOCK && blocks[a] % BLOCK == 0 && a % blocks[a] == 0
  }

  /** Blocks lie in the pool, aligned to their sizes, which are powers of two, and do not overlap. */
  ghost predicate Placed(blocks: Blocks, base: nat, poolSize: nat)
  {
    && (forall a :: a in blocks ==> BlockOk(a, blocks, base, poolSize))
    && (forall a, b :: a in blocks && b in blocks && a != b ==> Disjoint(a, blocks[a], b, blocks[b]))
  }

  ghost predicate Covered(blocks: Blocks, x: nat)
  {
    exists a :: a in blocks && a <= x < a + blocks[a]
  }

  /** The bits that are set are those of the kilobytes that live blocks cover. */
  ghost predicate Tracks(bits: seq<bool>, blocks: Blocks, base: nat)
  {
    forall i :: 0 <= i < |bits| ==> bits[i] == Covered(blocks, base + BLOCK * i)
  }

  /** size bytes at a are in the pool, aligned, and overlap no live block. */
  ghost predicate Fits(blocks: Blocks, a: nat, size: nat, base: nat, poolSize: nat)
  {
    && size > 0 && base <= a && a + size <= base + poolSize && a % size == 0
    && Free(blocks, a, size)
  }

  ghost predicate Clear(bits: seq<bool>, i: nat, n: nat)
  {
    i + n <= |bits| && forall j :: i <= j < i + n ==> !bits[j]
  }

  ghost predicate Free(blocks: Blocks, a: nat, size: nat)
  {
    forall b :: b in blocks ==> Disjoint(a, size, b, blocks[b])
  }

  /** A run of clear bits is a run of free bytes. */
  lemma ClearIff(bits: seq<bool>, blocks: Blocks, base: nat, poolSize: nat, i: nat, n: nat)
    requires Placed(blocks, base, poolSize) && Tracks(bits, blocks, base) && i + n <= |bits| && n > 0
    ensures Clear(bits, i, n) <==> Free(blocks, base + BLOCK * i, BLOCK * n)
  {
    if !Clear(bits, i, n) {
      SetBitOverlaps(bits, blocks, base, i, n);
    } else if !Free(blocks, base + BLOCK * i, BLOCK * n) {
      var b :| b in blocks && !Disjoint(base + BLOCK * i, BLOCK * n, b, blocks[b]);
      OverlapSetsBit(bits, blocks, base, poolSize, i, n, b);
    }
  }

  lemma SetBitOverlaps(bits: seq<bool>, blocks: Blocks, base: nat, i: nat, n: nat)
    requires Tracks(bits, blocks, base) && i + n <= |bits| && !Clear(bits, i, n)
    ensures !Free(blocks, base + BLOCK * i, BLOCK * n)
  {
    var j :| i <= j < i + n && bits[j];
    assert Covered(blocks, base + BLOCK * j);
    var b :| b in blocks && b <= base + BLOCK * j < b + blocks[b];
    assert !Disjoint(base + BLOCK * i, BLOCK * n, b, blocks[b]);
  }

  lemma OverlapSetsBit(bits: seq<bool>, blocks: Blocks, base: nat, poolSize: nat, i: nat, n: nat, b: nat)
    requires Placed(blocks, base, poolSize) && Tracks(bits, blocks, base) && i + n <= |bits| && n > 0
    requires b in blocks && !Disjoint(base + BLOCK * i, BLOCK * n, b, blocks[b])
    ensures !Clear(bits, i, n)
  {
    assert BlockOk(b, blocks, base, poolSize);
    var j := if b <= base + BLOCK * i then i else (b - base) / BLOCK;
    assert b <= base + BLOCK * j < b + blocks[b];
    assert bits[j];
  }

  /** The bits from i to i + n set to v. */
  ghost function Filled(bits: seq<bool>, i: nat, n: nat, v: bool): seq<bool>
  {
    seq(|bits|, j requires 0 <= j < |bits| => if i <= j < i + n then v else bits[j])
  }

  // ----- the search

  /** Bit k is where an aligned block may begin. */
  ghost predicate Slot(base: nat, size: nat, k: nat)
    requires size > 0
  {
    (base + BLOCK * k) % size == 0
  }

  /** The search passes a run in which it meets a set bit. */
  ghost predicate Taken(bits: seq<bool>, i: nat, n: nat)
  {
    exists j :: i <= j < i + n && j < |bits| && bits[j]
  }

  /** It runs past the end of the bitmap if it has met none by then. */
  ghost predicate Leaves(bits: seq<bool>, i: nat, n: nat)
  {
    i + n > |bits| && !Taken(bits, i, n)
  }

  ghost predicate SlotsTaken(bits: seq<bool>, base: nat, size: nat, n: nat, i: nat)
    requires size > 0
  {
    forall k :: 0 <= k < i && Slot(base, size, k) ==> Taken(bits, k, n)
  }

  lemma FirstSlot(bits: seq<bool>, base: nat, size: nat, n: nat)
    requires size >= BLOCK && size % BLOCK == 0 && base % BLOCK == 0
    ensures Slot(base, size, StartBit(base, size)) && SlotsTaken(bits, base, size, n, StartBit(base, size))
  {
    StartAlignedIff(base, size);
    forall k: nat | Slot(base, size, k)
      ensures k >= StartBit(base, size)
    {
      StartFirst(base, base + BLOCK * k, size);
    }
  }

  lemma NextSlot(bits: seq<bool>, base: nat, size: nat, n: nat, i: nat)
    requires size == BLOCK * n && n > 0 && Slot(base, size, i) && SlotsTaken(bits, base, size, n, i) && Taken(bits, i, n)
    ensures Slot(base, size, i + n) && SlotsTaken(bits, base, size, n, i + n)
  {
    SlotAfter(base, size, n, i);
    forall k | 0 <= k < i + n && Slot(base, size, k)
      ensures Taken(bits, k, n)
    {
      if k > i { AlignedApart(base + BLOCK * i, base + BLOCK * k, size); }
    }
  }

  lemma SlotAfter(base: nat, size: nat, n: nat, i: nat)
    requires size == BLOCK * n && n > 0 && Slot(base, size, i)
    ensures Slot(base, size, i + n)
  {
    var x := base + BLOCK * i;
    assert x == x / size * size;
    assert (x / size + 1) * size == x + size;
    DivModUnique(x + size, size, x / size + 1, 0);
    assert x + size == base + BLOCK * (i + n);
  }

  /** Every aligned free run is at x or after it. */
  ghost predicate NoneBefore(blocks: Blocks, x: nat, size: nat, base: nat, poolSize: nat)
  {
    forall a :: Fits(blocks, a, size, base, poolSize) ==> x <= a
  }

  ghost predicate AnyFits(blocks: Blocks, size: nat, base: nat, poolSize: nat)
  {
    exists a :: Fits(blocks, a, size, base, poolSize)
  }

  /** A free run in the pool begins at a slot, and its bits, as far as there are any, are clear. */
  lemma FitsAtSlot(bits: seq<bool>, blocks: Blocks, base: nat, poolSize: nat, size: nat, n: nat, a: nat) returns (k: nat)
    requires Placed(blocks, base, poolSize) && Tracks(bits, blocks, base) && base % BLOCK == 0
    requires size == BLOCK * n && n > 0 && Fits(blocks, a, size, base, poolSize)
    ensures a == base + BLOCK * k && Slot(base, size, k) && !Taken(bits, k, n)
  {
    InBlocks(a, size, n);
    k := KthBlock(a, base);
    SlotAt(a, base, size, k);
    FreeIsClear(bits, blocks, base, k, n);
  }

  lemma KthBlock(a: nat, base: nat) returns (k: nat)
    requires base <= a && a % BLOCK == 0 && base % BLOCK == 0
    ensures a == base + BLOCK * k
  {
    k := (a - base) / BLOCK;
  }

  lemma SlotAt(a: nat, base: nat, size: nat, k: nat)
    requires size > 0 && a == base + BLOCK * k && a % size == 0
    ensures Slot(base, size, k)
  {
  }

  lemma FreeIsClear(bits: seq<bool>, blocks: Blocks, base: nat, k: nat, n: nat)
    requires Tracks(bits, blocks, base) && Free(blocks, base + BLOCK * k, BLOCK * n)
    ensures !Taken(bits, k, n)
  {
    forall j | k <= j < k + n && j < |bits|
      ensures !bits[j]
    {
      NotCovered(blocks, base + BLOCK * k, BLOCK * n, base + BLOCK * j);
    }
  }

  lemma NotCovered(blocks: Blocks, a: nat, size: nat, x: nat)
    requires Free(blocks, a, size) && a <= x < a + size
    ensures !Covered(blocks, x)
  {
    forall b | b in blocks
      ensures !(b <= x < b + blocks[b])
    {
      assert Disjoint(a, size, b, blocks[b]);
    }
  }

  lemma InBlocks(a: nat, size: nat, n: nat)
    requires size == BLOCK * n && n > 0 && a % size == 0
    ensures a % BLOCK == 0
  {
    var q := a / size;
    assert a == q * size;
    assert q * size == (q * n) * BLOCK;
    DivModUnique(a, BLOCK, q * n, 0);
  }

  lemma PassedNone(bits: seq<bool>, blocks: Blocks, base: nat, poolSize: nat, size: nat, n: nat, i: nat)
    requires Placed(blocks, base, poolSize) && Tracks(bits, blocks, base) && base % BLOCK == 0
    requires size == BLOCK * n && n > 0 && SlotsTaken(bits, base, size, n, i)
    ensures NoneBefore(blocks, base + BLOCK * i, size, base, poolSize)
  {
    forall a | Fits(blocks, a, size, base, poolSize)
      ensures base + BLOCK * i <= a
    {
      var k := FitsAtSlot(bits, blocks, base, poolSize, size, n, a);
    }
  }

  /** Some slot that the search would look at makes it leave the bitmap; last is the last bit it begins at. */
  ghost predicate SomeLeaves(bits: seq<bool>, base: nat, size: nat, n: nat, last: nat)
    requires size > 0
  {
    exists i :: 0 <= i <= last && Slot(base, size, i) && Leaves(bits, i, n)
  }

  /**
   * A pool that ends at a multiple of the size never reports that it is full: a search that finds no
   * free run begins at the end of the pool, and leaves the bitmap.
   */
  lemma FullPoolLeaves(bits: seq<bool>, base: nat, poolSize: nat, size: nat, n: nat)
    requires size == BLOCK * n && n > 0 && poolSize % BLOCK == 0 && |bits| <= poolSize / BLOCK
    requires (base + poolSize) % size == 0
    ensures SomeLeaves(bits, base, size, n, poolSize / BLOCK)
  {
    var last := poolSize / BLOCK;
    assert BLOCK * last == poolSize;
    assert Slot(base, size, last) && Leaves(bits, last, n);
  }

  // ----- the size of the bitmap

  /** The words that the constructor allocates. */
  function Words(poolSize: nat): nat
  {
    poolSize / BLOCK / 8 / 4
  }

  predicate HasBit(bit: nat, poolSize: nat)
  {
    bit < 32 * Words(poolSize)
  }

  /** The bitmap has a bit for every kilobyte of the pool if and only if the pool is a multiple of 32 kilobytes. */
  lemma BitmapCoversIff(poolSize: nat)
    requires poolSize % BLOCK == 0
    ensures (forall bit :: 0 <= bit < poolSize / BLOCK ==> HasBit(bit, poolSize)) <==> poolSize % (32 * BLOCK) == 0
  {
    WordsOf(poolSize);
    var bits := 32 * Words(poolSize);
    if bits < poolSize / BLOCK { assert !HasBit(bits, poolSize); }
  }

  lemma WordsOf(poolSize: nat)
    requires poolSize % BLOCK == 0
    ensures 32 * Words(poolSize) <= poolSize / BLOCK < 32 * Words(poolSize) + 32
    ensures 32 * Words(poolSize) == poolSize / BLOCK <==> poolSize % (32 * BLOCK) == 0
  {
    var k, w := poolSize / BLOCK, Words(poolSize);
    var rest := k - 32 * w;
    assert 0 <= rest < 32;
    assert poolSize == w * 32_768 + 1024 * rest;
    DivModUnique(poolSize, 32_768, w, 1024 * rest);
  }

  /** In a pool of 33 kilobytes the last one has no bit. */
  lemma LastKilobyteWithoutBit()
    ensures 33 * BLOCK % BLOCK == 0 && 32 < 33 * BLOCK / BLOCK && Words(33 * BLOCK) == 1 && !HasBit(32, 33 * BLOCK)
  {
  }

  // ----- what allocating and freeing keep

  lemma FitsFresh(blocks: Blocks, a: nat, size: nat, base: nat, poolSize: nat)
    requires Placed(blocks, base, poolSize) && Fits(blocks, a, size, base, poolSize)
    ensures a !in blocks
  {
  }

  lemma AllocatedPlaced(blocks: Blocks, base: nat, poolSize: nat, a: nat, size: nat)
    requires Placed(blocks, base, poolSize) && Fits(blocks, a, size, base, poolSize) && (a - base) % BLOCK == 0
    requires PowerOfTwo(size) && size >= BLOCK && size % BLOCK == 0
    ensures Placed(blocks[a := size], base, poolSize)
  {
    var r := blocks[a := size];
    forall b | b in r
      ensures BlockOk(b, r, base, poolSize)
    {
      if b != a { assert BlockOk(b, blocks, base, poolSize); }
    }
  }

  lemma CoveredWith(blocks: Blocks, a: nat, size: nat, x: nat)
    requires a !in blocks
    ensures Covered(blocks[a := size], x) <==> a <= x < a + size || Covered(blocks, x)
  {
    var r := blocks[a := size];
    if Covered(blocks, x) {
      var b :| b in blocks && b <= x < b + blocks[b];
      assert b in r && b <= x < b + r[b];
    }
    if a <= x < a + size { assert a in r && a <= x < a + r[a]; }
  }

  lemma AllocatedTracks(bits: seq<bool>, blocks: Blocks, base: nat, i: nat, n: nat, a: nat, size: nat)
    requires Tracks(bits, blocks, base) && i + n <= |bits| && a == base + BLOCK * i && size == BLOCK * n && a !in blocks
    ensures Tracks(Filled(bits, i, n, true), blocks[a := size], base)
  {
    var r := Filled(bits, i, n, true);
    forall j | 0 <= j < |r|
      ensures r[j] == Covered(blocks[a := size], base + BLOCK * j)
    {
      CoveredWith(blocks, a, size, base + BLOCK * j);
    }
  }

  lemma WholeBlocks(base: nat, i: nat, n: nat, a: nat, size: nat)
    requires a == base + BLOCK * i && size == BLOCK * n && n > 0
    ensures (a - base) % BLOCK == 0 && size >= BLOCK && size % BLOCK == 0
  {
  }

  /** Setting the bits of a run that fits, and recording it, keeps the pool consistent. */
  lemma Allocated(bits: seq<bool>, blocks: Blocks, base: nat, poolSize: nat, i: nat, n: nat, a: nat, size: nat)
    requires Placed(blocks, base, poolSize) && Tracks(bits, blocks, base) && i + n <= |bits| && n > 0
    requires a == base + BLOCK * i && size == BLOCK * n
    requires Fits(blocks, a, size, base, poolSize) && PowerOfTwo(size)
    ensures Placed(blocks[a := size], base, poolSize)
    ensures Tracks(Filled(bits, i, n, true), blocks[a := size], base)
  {
    WholeBlocks(base, i, n, a, size);
    AllocatedPlaced(blocks, base, poolSize, a, size);
    FitsFresh(blocks, a, size, base, poolSize);
    AllocatedTracks(bits, blocks, base, i, n, a, size);
  }

  lemma FreedTracks(bits: seq<bool>, blocks: Blocks, base: nat, poolSize: nat, a: nat, i: nat, n: nat)
    requires Placed(blocks, base, poolSize) && Tracks(bits, blocks, base) && a in blocks
    requires a == base + BLOCK * i && blocks[a] == BLOCK * n
    ensures Tracks(Filled(bits, i, n, false), blocks - {a}, base)
  {
    var r := blocks - {a};
    assert blocks == r[a := BLOCK * n];
    forall j | 0 <= j < |bits|
      ensures (if i <= j < i + n then false else bits[j]) == Covered(r, base + BLOCK * j)
    {
      CoveredWith(r, a, BLOCK * n, base + BLOCK * j);
      if i <= j < i + n { NotCoveredTwice(blocks, base, poolSize, a, base + BLOCK * j); }
    }
  }

  lemma NotCoveredTwice(blocks: Blocks, base: nat, poolSize: nat, a: nat, x: nat)
    requires Placed(blocks, base, poolSize) && a in blocks && a <= x < a + blocks[a]
    ensures !Covered(blocks - {a}, x)
  {
    forall b | b in blocks - {a}
      ensures !(b <= x < b + blocks[b])
    {
      assert Disjoint(a, blocks[a], b, blocks[b]);
    }
  }

  lemma FreedPlaced(blocks: Blocks, base: nat, poolSize: nat, a: nat)
    requires Placed(blocks, base, poolSize) && a in blocks
    ensures Placed(blocks - {a}, base, poolSize)
    ensures Fits(blocks - {a}, a, blocks[a], base, poolSize)
  {
    assert BlockOk(a, blocks, base, poolSize);
    forall b | b in blocks - {a}
      ensures BlockOk(b, blocks - {a}, base, poolSize)
    {
      assert BlockOk(b, blocks, base, poolSize);
    }
  }

  /** The live blocks determine the bitmap, so giving back a block that was just allocated restores both. */
  lemma FreeUndoesAllocate(before: seq<bool>, after: seq<bool>, blocks: Blocks, a: nat, size: nat, base: nat, poolSize: nat)
    requires Placed(blocks, base, poolSize) && Fits(blocks, a, size, base, poolSize)
    requires |before| == |after| && Tracks(before, blocks, base) && Tracks(after, blocks[a := size] - {a}, base)
    ensures blocks[a := size] - {a} == blocks && after == before
  {
    FitsFresh(blocks, a, size, base, poolSize);
    assert blocks[a := size] - {a} == blocks;
  }

  /** OutsideBitmap: the search goes on in memory that is not the bitmap's. */
  datatype Allocation = Invalid | Block(address: nat) | OutOfMemory | OutsideBitmap

  datatype Look = Empty | Occupied | Outside

  class ProcessPool {
    const bitmap: array<bv32>
    const poolBase: nat
    const poolSize: nat
    var allocatedBlocks: Blocks

    /** The bytes that have a bit. */
    ghost function Extent(): nat
    {
      BLOCK * (32 * bitmap.Length)
    }

    ghost predicate Valid()
      reads this, bitmap
    {
      && poolBase % BLOCK == 0 && poolBase + poolSize < 0x1_0000_0000
      && poolSize % BLOCK == 0 && bitmap.Length == Words(poolSize)
      && Placed(allocatedBlocks, poolBase, Extent()) && Tracks(Bits(), allocatedBlocks, poolBase)
    }

    ghost function Bits(): (r: seq<bool>)
      reads bitmap
      ensures |r| == 32 * bitmap.Length
    {
      Unpacked(bitmap[..])
    }

    constructor (poolBase: nat, poolSize: nat)
      requires poolBase % BLOCK == 0 && poolBase + poolSize < 0x1_0000_0000 && poolSize % BLOCK == 0
      ensures Valid() && fresh(bitmap) && allocatedBlocks == map[]
      ensures this.poolBase == poolBase && this.poolSize == poolSize
    {
      this.poolBase, this.poolSize := poolBase, poolSize;
      var numBytes := poolSize / BLOCK / 8;
      bitmap := new bv32[numBytes / 4](_ => 0);
      allocatedBlocks := map[];
    }

    method TestBit(bit: nat) returns (isSet: bool)
      requires bit < 32 * bitmap.Length
      ensures isSet == Bits()[bit]
    {
      return Test(bitmap[bit / 32], Mask(bit % 32));
    }

    method SetBit(bit: nat)
      requires bit < 32 * bitmap.Length
      modifies bitmap
      ensures Bits() == old(Bits())[bit := true]
    {
      ghost var was := bitmap[..];
      var w := WithBit(bitmap[bit / 32], bit % 32);
      WordWritten(was, bit, w, true);
      bitmap[bit / 32] := w;
      assert bitmap[..] == was[bit / 32 := w];
    }

    method ClearBit(bit: nat)
      requires bit < 32 * bitmap.Length
      modifies bitmap
      ensures Bits() == old(Bits())[bit := false]
    {
      ghost var was := bitmap[..];
      var w := WithoutBit(bitmap[bit / 32], bit % 32);
      WordWritten(was, bit, w, false);
      bitmap[bit / 32] := w;
      assert bitmap[..] == was[bit / 32 := w];
    }

    /** One turn of the search, which stops where it would read a bit that is not there. */
    method LookAt(i: nat, n: nat) returns (r: Look)
      requires n > 0
      ensures r == Empty <==> Clear(Bits(), i, n)
      ensures r == Occupied <==> Taken(Bits(), i, n)
      ensures r == Outside <==> Leaves(Bits(), i, n)
    {
      var j := 0;
      while j < n
        invariant j <= n && (j > 0 ==> Clear(Bits(), i, j))
      {
        if i + j >= 32 * bitmap.Length { return Outside; }
        var isSet := TestBit(i + j);
        if isSet { return Occupied; }
        j := j + 1;
      }
      return Empty;
    }

    method SetBits(i: nat, n: nat)
      requires i + n <= 32 * bitmap.Length
      modifies bitmap
      ensures Bits() == Filled(old(Bits()), i, n, true)
    {
      var j := 0;
      while j < n
        invariant j <= n && Bits() == Filled(old(Bits()), i, j, true)
      {
        SetBit(i + j);
        j := j + 1;
      }
    }

    method ClearBits(i: nat, n: nat)
      requires i + n <= 32 * bitmap.Length
      modifies bitmap
      ensures Bits() == Filled(old(Bits()), i, n, false)
    {
      var j := i;
      while j < i + n
        invariant i <= j <= i + n && Bits() == Filled(old(Bits()), i, j - i, false)
      {
        ClearBit(j);
        j := j + 1;
      }
    }

    /** The search for the first aligned run of clear bits. */
    method Search(size: nat) returns (r: Look, i: nat)
      requires Valid() && size >= BLOCK && size % BLOCK == 0
      ensures Slot(poolBase, size, i) && SlotsTaken(Bits(), poolBase, size, size / BLOCK, i)
      ensures r == Empty ==> Clear(Bits(), i, size / BLOCK)
      ensures r == Outside ==> i <= poolSize / BLOCK && Leaves(Bits(), i, size / BLOCK)
      ensures r == Occupied ==> i > poolSize / BLOCK
    {
      var sizeBit := size / BLOCK;
      i := StartBit(poolBase, size);
      FirstSlot(Bits(), poolBase, size, sizeBit);
      while i <= poolSize / BLOCK
        invariant Slot(poolBase, size, i) && SlotsTaken(Bits(), poolBase, size, sizeBit, i)
        decreases poolSize - i
      {
        r := LookAt(i, sizeBit);
        if r != Occupied { return; }
        NextSlot(Bits(), poolBase, size, sizeBit, i);
        i := i + sizeBit;
      }
      r := Occupied;
    }

    /**
     * Takes the lowest aligned free run within the bitmap, if there is one. Otherwise the search leaves
     * the bitmap, or reports that there is no memory, and nothing changes.
     */
    method Allocate(size: nat) returns (r: Allocation)
      requires Valid()
      modifies this`allocatedBlocks, bitmap
      ensures Valid() && (r == Invalid <==> !(PowerOfTwo(size) && 1024 <= size <= poolSize))
      ensures r.Block? ==>
        && allocatedBlocks == old(allocatedBlocks)[r.address := size]
        && Fits(old(allocatedBlocks), r.address, size, poolBase, Extent())
        && NoneBefore(old(allocatedBlocks), r.address, size, poolBase, Extent())
      ensures !r.Block? ==> allocatedBlocks == old(allocatedBlocks) && Bits() == old(Bits())
      ensures r != Invalid ==>
        && size > 0 && (r.Block? <==> AnyFits(old(allocatedBlocks), size, poolBase, Extent()))
        && (r == OutsideBitmap <==> !r.Block? && SomeLeaves(old(Bits()), poolBase, size, size / BLOCK, poolSize / BLOCK))
    {
      GoodSizeIff(size, poolSize);
      if !GoodSize(size, poolSize) { return Invalid; }
      GoodSizeBlocks(size, poolSize);
      var look, i := Search(size);
      SearchMeans(Bits(), allocatedBlocks, poolBase, poolSize, size, size / BLOCK, look, i);
      if look == Outside { return OutsideBitmap; }
      if look == Occupied { return OutOfMemory; }
      Take(i, size);
      return Block(poolBase + i * BLOCK);
    }

    /** What the end of the search means for the live blocks. */
    static lemma SearchMeans(bits: seq<bool>, blocks: Blocks, base: nat, poolSize: nat, size: nat, n: nat, look: Look, i: nat)
      requires Placed(blocks, base, BLOCK * |bits|) && Tracks(bits, blocks, base) && base % BLOCK == 0
      requires size == BLOCK * n && n > 0 && BLOCK * |bits| <= poolSize
      requires Slot(base, size, i) && SlotsTaken(bits, base, size, n, i)
      requires look == Empty ==> Clear(bits, i, n)
      requires look == Outside ==> i <= poolSize / BLOCK && Leaves(bits, i, n)
      requires look == Occupied ==> i > poolSize / BLOCK
      ensures look == Empty ==> Fits(blocks, base + BLOCK * i, size, base, BLOCK * |bits|)
      ensures NoneBefore(blocks, base + BLOCK * i, size, base, BLOCK * |bits|)
      ensures look == Empty <==> AnyFits(blocks, size, base, BLOCK * |bits|)
      ensures look == Outside <==> look != Empty && SomeLeaves(bits, base, size, n, poolSize / BLOCK)
    {
      PassedNone(bits, blocks, base, BLOCK * |bits|, size, n, i);
      if look == Empty {
        ClearIff(bits, blocks, base, BLOCK * |bits|, i, n);
        assert Fits(blocks, base + BLOCK * i, size, base, BLOCK * |bits|);
      }
    }

    method Take(i: nat, size: nat)
      requires Valid() && Fits(allocatedBlocks, poolBase + BLOCK * i, size, poolBase, Extent())
      requires PowerOfTwo(size) && size >= BLOCK && size % BLOCK == 0
      modifies this`allocatedBlocks, bitmap
      ensures Valid() && allocatedBlocks == old(allocatedBlocks)[poolBase + BLOCK * i := size]
    {
      var result := poolBase + i * BLOCK;
      Allocated(Bits(), allocatedBlocks, poolBase, Extent(), i, size / BLOCK, result, size);
      SetBits(i, size / BLOCK);
      allocatedBlocks := allocatedBlocks[result := size];
    }

    /** Gives a block back; false if there is none at ptr. */
    method Deallocate(ptr: nat) returns (found: bool)
      requires Valid()
      modifies this`allocatedBlocks, bitmap
      ensures Valid() && found == (ptr in old(allocatedBlocks)) && allocatedBlocks == old(allocatedBlocks) - {ptr}
    {
      if ptr !in allocatedBlocks { return false; }
      assert BlockOk(ptr, allocatedBlocks, poolBase, Extent());
      var size := allocatedBlocks[ptr] / BLOCK;
      var firstBit := (ptr - poolBase) / BLOCK;
      FreedTracks(Bits(), allocatedBlocks, poolBase, Extent(), ptr, firstBit, size);
      FreedPlaced(allocatedBlocks, poolBase, Extent(), ptr);
      ClearBits(firstBit, size);
      allocatedBlocks := allocatedBlocks - {ptr};
      return true;
    }
  }
}
