/**
 nbd/verity/verity.go: position of the leaf hashes in a dm-verity hash tree, and verification of
 data blocks against them. Block counts and offsets are taken to stay within 63 bits.
 */
module Verity {
  import opened Bytes

  // ----- Rounding-up division -----

  function CeilDiv(a: nat, b: nat): nat
    requires b > 0
  {
    a / b + if a % b != 0 then 1 else 0
  }

  lemma MulMonotone(a: int, b: int, c: nat)
    requires a <= b
    ensures a * c <= b * c
  {
  }

  lemma CeilDivBounds(a: nat, b: nat)
    requires b > 0
    ensures (CeilDiv(a, b) - 1) * b < a <= CeilDiv(a, b) * b
  {
    assert a == a / b * b + a % b;
  }

  /** A rounded-up quotient is the only x with (x - 1) * b < a <= x * b. */
  lemma CeilDivUnique(a: nat, b: nat, x: int)
    requires b > 0 && (x - 1) * b < a <= x * b
    ensures x == CeilDiv(a, b)
  {
    var c := CeilDiv(a, b);
    CeilDivBounds(a, b);
    hide CeilDiv;
    if x < c {
      MulMonotone(x, c - 1, b);
    } else if x > c {
      MulMonotone(c, x - 1, b);
    }
  }

  lemma Reassociate(y: int, c: int, b: int)
    ensures y * c * b == y * (b * c)
  {
  }

  lemma NestedBounds(a: int, b: nat, c: nat, x: int, y: int)
    requires (x - 1) * b < a <= x * b && (y - 1) * c < x <= y * c
    ensures (y - 1) * (b * c) < a <= y * (b * c)
  {
    MulMonotone(x, y * c, b);
    MulMonotone((y - 1) * c, x - 1, b);
    Reassociate(y, c, b);
    Reassociate(y - 1, c, b);
  }

  lemma CeilDivTwice(a: nat, b: nat, c: nat)
    requires b > 0 && c > 0
    ensures b * c > 0 && CeilDiv(CeilDiv(a, b), c) == CeilDiv(a, b * c)
  {
    CeilDivBounds(a, b);
    CeilDivBounds(CeilDiv(a, b), c);
    hide CeilDiv;
    NestedBounds(a, b, c, CeilDiv(a, b), CeilDiv(CeilDiv(a, b), c));
    assert b * c > 0;
    CeilDivUnique(a, b * c, CeilDiv(CeilDiv(a, b), c));
  }

  // ----- Shape of the tree -----

  /** The level above is smaller exactly when a block holds at least two hashes. */
  lemma CeilDivShrinks(n: nat, h: nat)
    requires n >= 2 && h >= 1
    ensures 1 <= CeilDiv(n, h) <= n
    ensures CeilDiv(n, h) < n <==> h >= 2
  {
    var m := CeilDiv(n, h);
    CeilDivBounds(n, h);
    if h == 1 {
      assert m == n;
    } else {
      hide CeilDiv;
      MulMonotone(2, h, if m > 1 then m - 1 else 0);
    }
  }

  /** Number of blocks per level, leaf level first, for n data blocks and h hashes per block. */
  function Layers(n: nat, h: nat): (layers: seq<nat>)
    requires n <= 1 || h >= 2
    ensures n >= 2 ==> layers != [] && layers[|layers| - 1] == 1
    decreases n
  {
    if n <= 1 then [] else
    CeilDivShrinks(n, h);
    [CeilDiv(n, h)] + Layers(CeilDiv(n, h), h)
  }

  function Pow(base: nat, exp: nat): (p: nat)
    ensures base > 0 ==> p > 0
  {
    if exp == 0 then 1 else base * Pow(base, exp - 1)
  }

  /** Iterating the rounding-up division is one rounding-up division by the power. */
  lemma {:induction false} LayerSize(n: nat, h: nat, i: nat)
    requires n <= 1 || h >= 2
    requires i < |Layers(n, h)|
    ensures Pow(h, i + 1) > 0 && Layers(n, h)[i] == CeilDiv(n, Pow(h, i + 1))
    decreases i
  {
    hide CeilDiv;
    assert Pow(h, 1) == h * Pow(h, 0) == h;
    if i > 0 {
      var m := CeilDiv(n, h);
      LayerSize(m, h, i - 1);
      assert Layers(n, h)[i] == Layers(m, h)[i - 1];
      CeilDivTwice(n, h, Pow(h, i));
    }
  }

  /** The tree is exactly as tall as the power of h that first covers all data blocks. */
  lemma {:induction false} Height(n: nat, h: nat)
    requires h >= 2 && n >= 1
    ensures Pow(h, |Layers(n, h)|) >= n
    ensures n >= 2 ==> Pow(h, |Layers(n, h)| - 1) < n
    decreases n
  {
    hide CeilDiv;
    if n >= 2 {
      CeilDivShrinks(n, h);
      var m := CeilDiv(n, h);
      Height(m, h);
      CeilDivBounds(n, h);
      hide Pow, Layers;
      PowStep(h, |Layers(m, h)|);
      OneMoreLayer(n, h);
      MulMonotone(m, Pow(h, |Layers(m, h)|), h);
      if m >= 2 {
        PowStep(h, |Layers(m, h)| - 1);
        MulMonotone(Pow(h, |Layers(m, h)| - 1), m - 1, h);
      } else {
        NoLayers(m, h);
        PowZero(h);
      }
    }
  }

  lemma PowStep(base: nat, exp: nat)
    ensures Pow(base, exp + 1) == Pow(base, exp) * base
  {
  }

  lemma PowZero(base: nat)
    ensures Pow(base, 0) == 1
  {
  }

  lemma OneMoreLayer(n: nat, h: nat)
    requires n >= 2 && h >= 2
    ensures |Layers(n, h)| == |Layers(CeilDiv(n, h), h)| + 1
  {
  }

  lemma NoLayers(n: nat, h: nat)
    requires n <= 1
    ensures Layers(n, h) == []
  {
  }

  // ----- Layout -----

  datatype Superblock = Superblock(
    offset: nat, dataBlockSize: nat, hashBlockSize: nat, dataBlockCount: nat, hashSize: nat, salt: seq<byte>)
  {
    function HashesPerBlock(): nat
      requires hashSize > 0
    {
      hashBlockSize / hashSize
    }

    /** What the code needs in order not to divide by zero or loop forever. */
    predicate Usable() {
      && hashSize > 0 && dataBlockSize > 0
      && (dataBlockCount <= 1 || HashesPerBlock() >= 2)
    }

    /** Where the code looks for the hash of data block b. */
    function Slot(b: int): int
      requires Usable()
    {
      LeafOffset(this) + b * hashSize
    }
  }

  function LeafOffset(sb: Superblock): nat
    requires sb.Usable()
  {
    var layers := Layers(sb.dataBlockCount, sb.HashesPerBlock());
    sb.offset + sb.hashBlockSize + (if layers == [] then 0 else Sum(layers[1..])) * sb.hashBlockSize
  }

  /**
   The on-disk format written down independently: the superblock takes one hash block, then the
   levels follow from the root to the leaves, each in whole blocks of h hashes.
   */
  function LevelStart(sb: Superblock, h: nat, level: nat): nat
    requires (sb.dataBlockCount <= 1 || h >= 2) && level < |Layers(sb.dataBlockCount, h)|
    decreases |Layers(sb.dataBlockCount, h)| - level
  {
    var layers := Layers(sb.dataBlockCount, h);
    if level == |layers| - 1 then sb.offset + sb.hashBlockSize
    else LevelStart(sb, h, level + 1) + layers[level + 1] * sb.hashBlockSize
  }

  lemma {:induction false} LevelStartSum(sb: Superblock, h: nat, level: nat)
    requires (sb.dataBlockCount <= 1 || h >= 2) && level < |Layers(sb.dataBlockCount, h)|
    ensures
      var layers := Layers(sb.dataBlockCount, h);
      LevelStart(sb, h, level) == sb.offset + sb.hashBlockSize + Sum(layers[level + 1..]) * sb.hashBlockSize
    decreases |Layers(sb.dataBlockCount, h)| - level
  {
    hide Layers;
    var layers := Layers(sb.dataBlockCount, h);
    if level < |layers| - 1 {
      LevelStartSum(sb, h, level + 1);
      assert layers[level + 1..][1..] == layers[level + 2..];
      Distribute(layers[level + 1], Sum(layers[level + 2..]), sb.hashBlockSize);
    }
  }

  lemma Distribute(a: nat, b: nat, c: nat)
    ensures (a + b) * c == a * c + b * c
  {
  }

  /** The leaf offset the code computes is where its levels put the leaves. */
  lemma LeafOffsetIsLeafLevel(sb: Superblock)
    requires sb.Usable() && sb.dataBlockCount >= 2
    ensures LeafOffset(sb) == LevelStart(sb, sb.HashesPerBlock(), 0)
  {
    hide Layers;
    LevelStartSum(sb, sb.HashesPerBlock(), 0);
  }

  /** The hash of every data block lies inside the leaf level. */
  lemma SlotInsideLeafLevel(sb: Superblock, b: nat)
    requires sb.Usable() && 2 <= sb.dataBlockCount && b < sb.dataBlockCount
    ensures
      var leaf := Layers(sb.dataBlockCount, sb.HashesPerBlock())[0];
      LeafOffset(sb) <= sb.Slot(b) && sb.Slot(b) + sb.hashSize <= LeafOffset(sb) + leaf * sb.hashBlockSize
  {
    hide LeafOffset;
    var h := sb.HashesPerBlock();
    var leaf := Layers(sb.dataBlockCount, h)[0];
    assert leaf == CeilDiv(sb.dataBlockCount, h);
    hide Layers;
    CeilDivBounds(sb.dataBlockCount, h);
    hide CeilDiv;
    HashesFit(sb);
    SlotFits(b, leaf, h, sb.hashSize, sb.hashBlockSize);
  }

  lemma SlotFits(b: nat, leaf: nat, h: nat, hs: nat, block: nat)
    requires b + 1 <= leaf * h && h * hs <= block
    ensures 0 <= b * hs && b * hs + hs <= leaf * block
  {
    MulMonotone(b + 1, leaf * h, hs);
    MulMonotone(h * hs, block, leaf);
    Reassociate(leaf, h, hs);
    Distribute(b, 1, hs);
  }

  lemma HashesFit(sb: Superblock)
    requires sb.hashSize > 0
    ensures sb.HashesPerBlock() * sb.hashSize <= sb.hashBlockSize
    ensures sb.HashesPerBlock() * sb.hashSize == sb.hashBlockSize <==> sb.hashBlockSize % sb.hashSize == 0
  {
  }

  /**
   For a single data block the tree has no levels at all, and the code looks for the hash behind
   the end of it.
   */
  lemma SingleBlockHasNoSlot(sb: Superblock)
    requires sb.Usable() && sb.dataBlockCount == 1
    ensures Layers(sb.dataBlockCount, sb.HashesPerBlock()) == []
    ensures sb.Slot(0) == sb.offset + sb.hashBlockSize
  {
  }

  // ----- The format of dm-verity, type 1 -----

  predicate PowerOfTwo(n: nat) {
    n == 1 || (n > 1 && n % 2 == 0 && PowerOfTwo(n / 2))
  }

  /** The largest power of two that is not above n. */
  function PowerBelow(n: nat): (p: nat)
    requires n > 0
    ensures PowerOfTwo(p) && p <= n < 2 * p
  {
    if n == 1 then 1 else 2 * PowerBelow(n / 2)
  }

  lemma {:induction false} PowerBelowSame(n: nat)
    requires PowerOfTwo(n)
    ensures PowerBelow(n) == n
  {
    if n > 1 {
      PowerBelowSame(n / 2);
    }
  }

  lemma {:induction false} PowersDivide(a: nat, b: nat) returns (q: nat)
    requires PowerOfTwo(a) && PowerOfTwo(b) && b <= a
    ensures a == q * b && PowerOfTwo(q)
  {
    if b == 1 {
      q := a;
    } else {
      q := PowersDivide(a / 2, b / 2);
      assert q * b == q * (b / 2) * 2;
    }
  }

  lemma ExactQuotient(a: nat, b: nat, q: nat)
    requires b > 0 && a == q * b
    ensures a % b == 0 && a / b == q
  {
    if a / b < q {
      MulMonotone(a / b + 1, q, b);
    } else if a / b > q {
      MulMonotone(q + 1, a / b, b);
    }
  }

  /** Hashes are padded to a power of two, and a block holds a power of two of them. */
  function PerBlock(sb: Superblock): (h: nat)
    requires sb.hashSize > 0 && sb.HashesPerBlock() > 0
    ensures sb.HashesPerBlock() >= 2 ==> h >= 2
  {
    PowerBelow(sb.HashesPerBlock())
  }

  /** Where the format puts the hash of data block b. */
  function StandardSlot(sb: Superblock, b: nat): int
    requires sb.Usable() && sb.dataBlockCount >= 2
  {
    var h := PerBlock(sb);
    LevelStart(sb, h, 0) + (b / h * sb.hashBlockSize + b % h * (sb.hashBlockSize / h))
  }

  lemma PaddingVanishes(sb: Superblock)
    requires sb.hashSize > 0 && PowerOfTwo(sb.hashBlockSize) && PowerOfTwo(sb.hashSize) && sb.hashSize <= sb.hashBlockSize
    ensures sb.HashesPerBlock() > 0 && PerBlock(sb) == sb.HashesPerBlock()
    ensures sb.HashesPerBlock() * sb.hashSize == sb.hashBlockSize
    ensures sb.hashBlockSize / PerBlock(sb) == sb.hashSize
  {
    var q := PowersDivide(sb.hashBlockSize, sb.hashSize);
    ExactQuotient(sb.hashBlockSize, sb.hashSize, q);
    PowerBelowSame(sb.HashesPerBlock());
    ExactQuotient(sb.hashBlockSize, sb.HashesPerBlock(), sb.hashSize);
  }

  lemma HashFits(sb: Superblock)
    requires sb.hashSize > 0 && sb.HashesPerBlock() > 0
    ensures sb.hashSize <= sb.hashBlockSize && sb.HashesPerBlock() <= sb.hashBlockSize
  {
    HashesFit(sb);
    MulMonotone(1, sb.HashesPerBlock(), sb.hashSize);
    MulMonotone(1, sb.hashSize, sb.HashesPerBlock());
  }

  lemma SlotStandard(sb: Superblock, b: nat)
    requires sb.Usable() && sb.dataBlockCount >= 2 && PowerOfTwo(sb.hashBlockSize) && PowerOfTwo(sb.hashSize)
    ensures sb.Slot(b) == StandardSlot(sb, b)
  {
    hide LeafOffset, LevelStart, PowerOfTwo, PerBlock;
    HashFits(sb);
    PaddingVanishes(sb);
    LeafOffsetIsLeafLevel(sb);
    SlotSplit(b, sb.HashesPerBlock(), sb.hashSize, sb.hashBlockSize);
  }

  /**
   For block sizes that the format knows, the code finds every hash where the format puts it if
   and only if hashes need no padding, that is if their size is a power of two.
   */
  lemma SlotsStandard(sb: Superblock)
    requires sb.Usable() && sb.dataBlockCount >= 2 && PowerOfTwo(sb.hashBlockSize)
    ensures (forall b: nat :: b < sb.dataBlockCount ==> sb.Slot(b) == StandardSlot(sb, b)) <==> PowerOfTwo(sb.hashSize)
  {
    hide LeafOffset, LevelStart, PowerOfTwo;
    if PowerOfTwo(sb.hashSize) {
      forall b: nat | b < sb.dataBlockCount
        ensures sb.Slot(b) == StandardSlot(sb, b)
      {
        SlotStandard(sb, b);
      }
    } else {
      PaddedHashesMissed(sb);
    }
  }

  /** Hashes that need padding: the code misses the first or the second one. */
  lemma PaddedHashesMissed(sb: Superblock)
    requires sb.Usable() && sb.dataBlockCount >= 2 && PowerOfTwo(sb.hashBlockSize) && !PowerOfTwo(sb.hashSize)
    ensures sb.Slot(0) != StandardSlot(sb, 0) || sb.Slot(1) != StandardSlot(sb, 1)
  {
    hide LeafOffset, LevelStart, PowerOfTwo;
    var h := PerBlock(sb);
    SecondSlot(h, sb.hashBlockSize / h, sb.hashBlockSize);
    HashFits(sb);
    var q := PowersDivide(sb.hashBlockSize, h);
    ExactQuotient(sb.hashBlockSize, h, q);
  }

  lemma SecondSlot(h: nat, stride: nat, block: nat)
    requires h >= 2
    ensures 0 / h * block + 0 % h * stride == 0
    ensures 1 / h * block + 1 % h * stride == stride
  {
  }

  const SHA256_SIZE := 32

  /** The one hash function that the code supports needs no padding. */
  lemma Sha256Standard(sb: Superblock, b: nat)
    requires sb.Usable() && sb.hashSize == SHA256_SIZE && PowerOfTwo(sb.hashBlockSize)
    requires 2 <= sb.dataBlockCount && b < sb.dataBlockCount
    ensures sb.Slot(b) == StandardSlot(sb, b)
  {
    assert PowerOfTwo(2) && PowerOfTwo(4) && PowerOfTwo(8) && PowerOfTwo(16) && PowerOfTwo(32);
    SlotStandard(sb, b);
  }

  lemma SlotSplit(b: nat, h: nat, hs: nat, block: nat)
    requires h > 0 && h * hs == block
    ensures b / h * block + b % h * hs == b * hs
  {
    assert b == b / h * h + b % h;
    Regroup(b, b / h, h, b % h, hs, block);
  }

  lemma Regroup(b: int, d: int, h: int, r: int, hs: int, block: int)
    requires b == d * h + r && h * hs == block
    ensures d * block + r * hs == b * hs
  {
    assert d * h * hs == d * (h * hs);
  }

  // ----- Verification of blocks -----

  type Hash = seq<byte> -> seq<byte>

  /** Data block b and its hash can be read from the image, and they match. */
  predicate BlockOk(sb: Superblock, hash: Hash, image: seq<byte>, b: nat)
    requires sb.Usable()
  {
    var slot, start := sb.Slot(b), b * sb.dataBlockSize;
    && 0 <= slot && slot + sb.hashSize <= |image|
    && start + sb.dataBlockSize <= |image|
    && hash(sb.salt + image[start..start + sb.dataBlockSize]) == image[slot..slot + sb.hashSize]
  }

  // ----- An image with its leaf hashes, as veritysetup writes them -----

  function Put(image: seq<byte>, at: nat, data: seq<byte>): (r: seq<byte>)
    requires at + |data| <= |image|
    ensures |r| == |image|
  {
    image[..at] + data + image[at + |data|..]
  }

  /** Data blocks in front of the superblock, and room for the leaf level. */
  predicate Laid(sb: Superblock, image: seq<byte>) {
    && sb.Usable() && sb.dataBlockCount >= 2 && PowerOfTwo(sb.hashBlockSize) && PowerOfTwo(sb.hashSize)
    && sb.dataBlockCount * sb.dataBlockSize <= sb.offset
    && LeafOffset(sb) + sb.dataBlockCount * sb.hashSize <= |image|
  }

  /** The hash of a data block: of the salt, then the data. */
  function Digest(sb: Superblock, hash: Hash, image: seq<byte>, b: nat): seq<byte>
    requires b * sb.dataBlockSize + sb.dataBlockSize <= |image|
  {
    hash(sb.salt + DataOf(sb, image, b))
  }

  ghost predicate Sized(sb: Superblock, hash: Hash) {
    forall x :: |hash(x)| == sb.hashSize
  }

  lemma LeafBehind(sb: Superblock)
    requires sb.Usable()
    ensures LeafOffset(sb) >= sb.offset
  {
    hide Layers, Sum;
    var layers := Layers(sb.dataBlockCount, sb.HashesPerBlock());
    MulMonotone(0, if layers == [] then 0 else Sum(layers[1..]), sb.hashBlockSize);
  }

  lemma Among(b: nat, count: nat, each: nat, total: int)
    requires b < count && count * each <= total
    ensures 0 <= b * each && b * each + each <= total
  {
    MulMonotone(b + 1, count, each);
    Distribute(b, 1, each);
  }

  lemma Places(sb: Superblock, image: seq<byte>, b: nat)
    requires Laid(sb, image) && b < sb.dataBlockCount
    ensures b * sb.dataBlockSize + sb.dataBlockSize <= sb.offset <= |image|
    ensures sb.offset <= StandardSlot(sb, b) == sb.Slot(b) && sb.Slot(b) + sb.hashSize <= |image|
  {
    SlotStandard(sb, b);
    LeafBehind(sb);
    hide PowerOfTwo, StandardSlot, LeafOffset;
    Among(b, sb.dataBlockCount, sb.dataBlockSize, sb.offset);
    Among(b, sb.dataBlockCount, sb.hashSize, |image| - LeafOffset(sb));
  }

  /** The image with the hashes of the first n blocks where the format puts them. */
  ghost function WithHashes(sb: Superblock, hash: Hash, image: seq<byte>, n: nat): (r: seq<byte>)
    requires Laid(sb, image) && Sized(sb, hash) && n <= sb.dataBlockCount
    ensures |r| == |image|
  {
    if n == 0 then image else
    Places(sb, image, n - 1);
    Put(WithHashes(sb, hash, image, n - 1), StandardSlot(sb, n - 1), Digest(sb, hash, image, n - 1))
  }

  lemma PutKeeps(image: seq<byte>, at: nat, data: seq<byte>, a: nat, b: nat)
    requires at + |data| <= |image| && a <= b <= |image| && (b <= at || at + |data| <= a)
    ensures Put(image, at, data)[a..b] == image[a..b]
    ensures Put(image, at, data)[at..at + |data|] == data
  {
  }

  lemma SlotsApart(sb: Superblock, b: nat, c: nat)
    requires sb.Usable() && b < c
    ensures sb.Slot(b) + sb.hashSize <= sb.Slot(c)
  {
    hide LeafOffset;
    MulMonotone(b + 1, c, sb.hashSize);
    Distribute(b, 1, sb.hashSize);
  }

  /** A block's data and hash lie inside the image. */
  predicate Inside(sb: Superblock, image: seq<byte>, b: nat)
    requires sb.Usable()
  {
    && b * sb.dataBlockSize + sb.dataBlockSize <= |image|
    && 0 <= sb.Slot(b) && sb.Slot(b) + sb.hashSize <= |image|
  }

  function DataOf(sb: Superblock, image: seq<byte>, b: nat): seq<byte>
    requires b * sb.dataBlockSize + sb.dataBlockSize <= |image|
  {
    image[b * sb.dataBlockSize..b * sb.dataBlockSize + sb.dataBlockSize]
  }

  function HashAt(sb: Superblock, image: seq<byte>, b: nat): seq<byte>
    requires sb.Usable() && 0 <= sb.Slot(b) && sb.Slot(b) + sb.hashSize <= |image|
  {
    image[sb.Slot(b)..sb.Slot(b) + sb.hashSize]
  }

  /** One more hash, somewhere behind the data and behind the hashes before it. */
  lemma PutStays(sb: Superblock, hash: Hash, image: seq<byte>, before: seq<byte>, n: nat, b: nat)
    requires sb.Usable() && Inside(sb, before, b) && Inside(sb, image, n) && |before| == |image| && Sized(sb, hash)
    requires b * sb.dataBlockSize + sb.dataBlockSize <= sb.offset <= sb.Slot(n) && sb.Slot(n) + sb.hashSize <= |before|
    ensures
      var r := Put(before, sb.Slot(n), Digest(sb, hash, image, n));
      && DataOf(sb, r, b) == DataOf(sb, before, b)
      && (b < n ==> HashAt(sb, r, b) == HashAt(sb, before, b))
      && (b == n ==> HashAt(sb, r, b) == Digest(sb, hash, image, n))
  {
    var data := Digest(sb, hash, image, n);
    assert |data| == sb.hashSize;
    if b < n {
      SlotsApart(sb, b, n);
    }
    hide LeafOffset, Digest, Sized, Superblock.Usable, Superblock.Slot, PowerOfTwo;
    var at, slot, start := sb.Slot(n), sb.Slot(b), b * sb.dataBlockSize;
    PutKeeps(before, at, data, start, start + sb.dataBlockSize);
    if b < n {
      PutKeeps(before, at, data, slot, slot + sb.hashSize);
    }
    hide Put;
  }

  lemma AllInside(sb: Superblock, image: seq<byte>, b: nat)
    requires Laid(sb, image) && b < sb.dataBlockCount
    ensures sb.Usable() && Inside(sb, image, b)
    ensures b * sb.dataBlockSize + sb.dataBlockSize <= sb.offset <= sb.Slot(b) == StandardSlot(sb, b)
  {
    Places(sb, image, b);
    hide LeafOffset, StandardSlot, PowerOfTwo;
  }

  lemma Alike(sb: Superblock, image: seq<byte>, other: seq<byte>, b: nat)
    requires sb.Usable() && Inside(sb, image, b) && |other| == |image|
    ensures Inside(sb, other, b) && sb.Slot(b) + sb.hashSize <= |other|
  {
  }

  /** Writing hashes leaves the data alone, and every hash written stays. */
  lemma {:induction false} HashesStay(sb: Superblock, hash: Hash, image: seq<byte>, n: nat, b: nat)
    requires Laid(sb, image) && Sized(sb, hash) && b < sb.dataBlockCount && n <= sb.dataBlockCount
    ensures sb.Usable() && Inside(sb, image, b) && Inside(sb, WithHashes(sb, hash, image, n), b)
    ensures DataOf(sb, WithHashes(sb, hash, image, n), b) == DataOf(sb, image, b)
    ensures b < n ==> HashAt(sb, WithHashes(sb, hash, image, n), b) == Digest(sb, hash, image, b)
    decreases n
  {
    hide *;
    AllInside(sb, image, b);
    if n == 0 {
      NoHashes(sb, hash, image);
    } else {
      AllInside(sb, image, n - 1);
      HashesStay(sb, hash, image, n - 1, b);
      OneMoreHash(sb, hash, image, n);
      Alike(sb, image, WithHashes(sb, hash, image, n - 1), n - 1);
      PutStays(sb, hash, image, WithHashes(sb, hash, image, n - 1), n - 1, b);
    }
    Alike(sb, image, WithHashes(sb, hash, image, n), b);
  }

  lemma NoHashes(sb: Superblock, hash: Hash, image: seq<byte>)
    requires Laid(sb, image) && Sized(sb, hash)
    ensures WithHashes(sb, hash, image, 0) == image
  {
  }

  lemma OneMoreHash(sb: Superblock, hash: Hash, image: seq<byte>, n: nat)
    requires Laid(sb, image) && Sized(sb, hash) && 1 <= n <= sb.dataBlockCount
    ensures sb.Usable() && Inside(sb, image, n - 1) && |Digest(sb, hash, image, n - 1)| == sb.hashSize
    ensures WithHashes(sb, hash, image, n) ==
            Put(WithHashes(sb, hash, image, n - 1), sb.Slot(n - 1), Digest(sb, hash, image, n - 1))
  {
    AllInside(sb, image, n - 1);
    hide LeafOffset, StandardSlot, PowerOfTwo;
  }

  /** What a block must satisfy, with the digest and the stored hash named. */
  lemma OkIs(sb: Superblock, hash: Hash, image: seq<byte>, b: nat)
    requires sb.Usable() && Inside(sb, image, b)
    ensures BlockOk(sb, hash, image, b) <==> Digest(sb, hash, image, b) == HashAt(sb, image, b)
  {
    hide LeafOffset;
  }

  /** Verification accepts every block of a formatted image. */
  lemma FormattedVerifies(sb: Superblock, hash: Hash, image: seq<byte>, b: nat)
    requires Laid(sb, image) && Sized(sb, hash) && b < sb.dataBlockCount
    ensures BlockOk(sb, hash, WithHashes(sb, hash, image, sb.dataBlockCount), b)
  {
    HashesStay(sb, hash, image, sb.dataBlockCount, b);
    hide LeafOffset, WithHashes, Laid, Inside, HashAt, BlockOk;
    OkIs(sb, hash, WithHashes(sb, hash, image, sb.dataBlockCount), b);
  }

  /** A block whose stored hash is still there is accepted exactly if it has the hash that was written. */
  lemma ChangeDetected(sb: Superblock, hash: Hash, image: seq<byte>, changed: seq<byte>, b: nat)
    requires Laid(sb, image) && Sized(sb, hash) && b < sb.dataBlockCount && |changed| == |image|
    ensures sb.Usable() && Inside(sb, image, b) && Inside(sb, changed, b)
    ensures HashAt(sb, changed, b) == HashAt(sb, WithHashes(sb, hash, image, sb.dataBlockCount), b) ==>
              (BlockOk(sb, hash, changed, b) <==> Digest(sb, hash, changed, b) == Digest(sb, hash, image, b))
  {
    HashesStay(sb, hash, image, sb.dataBlockCount, b);
    assert Inside(sb, changed, b);
    hide LeafOffset, WithHashes, Laid, Inside, HashAt, BlockOk;
    OkIs(sb, hash, changed, b);
  }

  /** Go's division truncates towards zero. */
  function FirstBlock(sb: Superblock, offset: int): int
    requires sb.Usable()
  {
    if offset >= 0 then offset / sb.dataBlockSize else -((-offset) / sb.dataBlockSize)
  }

  /** The blocks that Verify looks at. */
  predicate Inspected(sb: Superblock, offset: int, size: int, b: int)
    requires sb.Usable()
  {
    var first := FirstBlock(sb, offset);
    0 <= first <= b < sb.dataBlockCount && (b - first) * sb.dataBlockSize < size
  }

  /** The data blocks that share a byte with the region [offset, offset + size). */
  predicate Overlapped(sb: Superblock, offset: int, size: int, b: int) {
    && 0 <= b < sb.dataBlockCount && size > 0
    && b * sb.dataBlockSize < offset + size && offset < b * sb.dataBlockSize + sb.dataBlockSize
  }

  lemma FirstBlockBounds(sb: Superblock, offset: nat)
    requires sb.Usable()
    ensures
      var start := FirstBlock(sb, offset) * sb.dataBlockSize;
      start <= offset < start + sb.dataBlockSize && (offset % sb.dataBlockSize == 0 <==> start == offset)
  {
    assert offset == offset / sb.dataBlockSize * sb.dataBlockSize + offset % sb.dataBlockSize;
  }

  lemma InspectedIsOverlapped(sb: Superblock, offset: nat, size: int, b: int)
    requires sb.Usable() && Inspected(sb, offset, size, b)
    ensures Overlapped(sb, offset, size, b)
  {
    hide FirstBlock;
    FirstBlockBounds(sb, offset);
    var first := FirstBlock(sb, offset);
    MulMonotone(first, b, sb.dataBlockSize);
    MulMonotone(0, b - first, sb.dataBlockSize);
    MulSub(b, first, sb.dataBlockSize);
  }

  lemma MulSub(b: int, first: int, d: int)
    ensures (b - first) * d == b * d - first * d
  {
  }

  /** The first block behind the ones that are inspected. */
  function Behind(sb: Superblock, offset: nat, size: nat): nat
    requires sb.Usable()
  {
    FirstBlock(sb, offset) + CeilDiv(size, sb.dataBlockSize)
  }

  /**
   The inspected blocks are all overlapped blocks if and only if the next block starts at or
   behind the end of the region or is not a data block; a block-aligned offset guarantees it.
   */
  lemma InspectionCovers(sb: Superblock, offset: nat, size: nat)
    requires sb.Usable() && size > 0
    ensures
      (forall b :: Overlapped(sb, offset, size, b) ==> Inspected(sb, offset, size, b))
      <==> Behind(sb, offset, size) >= sb.dataBlockCount
           || Behind(sb, offset, size) * sb.dataBlockSize >= offset + size
    ensures
      offset % sb.dataBlockSize == 0 ==>
        forall b :: Overlapped(sb, offset, size, b) <==> Inspected(sb, offset, size, b)
  {
    var d, next := sb.dataBlockSize, Behind(sb, offset, size);
    NextOverlapped(sb, offset, size);
    forall b | Overlapped(sb, offset, size, b)
      ensures Inspected(sb, offset, size, b) <==> b < next
    {
      InspectedBelow(sb, offset, size, b);
    }
    forall b | Inspected(sb, offset, size, b)
      ensures Overlapped(sb, offset, size, b)
    {
      InspectedIsOverlapped(sb, offset, size, b);
    }
    hide Behind, Inspected;
    forall b | Overlapped(sb, offset, size, b) && next * d >= offset + size
      ensures b < next
    {
      if b >= next {
        MulMonotone(next, b, d);
      }
    }
  }

  /** A region of two bytes around the end of the first block has its second byte left unverified. */
  lemma UnalignedMisses(sb: Superblock)
    requires sb.Usable() && sb.dataBlockSize >= 2 && sb.dataBlockCount >= 2
    ensures Overlapped(sb, sb.dataBlockSize - 1, 2, 1) && !Inspected(sb, sb.dataBlockSize - 1, 2, 1)
  {
    var d := sb.dataBlockSize;
    assert FirstBlock(sb, d - 1) == 0 by { FirstBlockBounds(sb, d - 1); ZeroTimes(FirstBlock(sb, d - 1), d); }
  }

  lemma ZeroTimes(x: int, d: nat)
    requires d > 0 && 0 <= x && x * d < d
    ensures x == 0
  {
    if x > 0 {
      MulMonotone(1, x, d);
    }
  }

  lemma InspectedBelow(sb: Superblock, offset: nat, size: nat, b: int)
    requires sb.Usable() && Overlapped(sb, offset, size, b)
    ensures Inspected(sb, offset, size, b) <==> b < Behind(sb, offset, size)
  {
    var first, d := FirstBlock(sb, offset), sb.dataBlockSize;
    var k := CeilDiv(size, d);
    FirstBlockBounds(sb, offset);
    CeilDivBounds(size, d);
    hide CeilDiv, FirstBlock;
    FirstNotAfter(first, b, d, offset);
    if b - first < k {
      MulMonotone(b - first, k - 1, d);
    } else {
      MulMonotone(k, b - first, d);
    }
  }

  lemma NextOverlapped(sb: Superblock, offset: nat, size: nat)
    requires sb.Usable() && size > 0
    ensures
      var next := Behind(sb, offset, size);
      && (Overlapped(sb, offset, size, next) <==>
          next < sb.dataBlockCount && next * sb.dataBlockSize < offset + size)
      && (offset % sb.dataBlockSize == 0 ==> next * sb.dataBlockSize >= offset + size)
  {
    var first, d := FirstBlock(sb, offset), sb.dataBlockSize;
    var k := CeilDiv(size, d);
    FirstBlockBounds(sb, offset);
    CeilDivBounds(size, d);
    hide CeilDiv, FirstBlock;
    MulMonotone(0, k, d);
    Distribute(first, k, d);
  }

  lemma FirstNotAfter(first: int, b: int, d: nat, offset: int)
    requires first * d <= offset < b * d + d && d > 0
    ensures first <= b
  {
    if first > b {
      MulMonotone(b + 1, first, d);
    }
  }

  // ----- The code -----

  lemma LayersSplit(n: nat, h: nat)
    requires n >= 2 && h >= 2
    ensures Layers(n, h) == [CeilDiv(n, h)] + Layers(CeilDiv(n, h), h)
  {
  }

  method RoundUp(blocks: nat, h: nat) returns (above: nat)
    requires h > 0
    ensures above == CeilDiv(blocks, h)
  {
    above := blocks / h;
    if blocks % h != 0 {
      above := above + 1;
    }
  }

  method LayerSizes(n: nat, h: nat) returns (layer: seq<nat>)
    requires n <= 1 || h >= 2
    ensures layer == Layers(n, h)
  {
    hide Layers, CeilDiv;
    layer := [];
    var blocks: nat := n;
    while blocks > 1
      invariant blocks <= 1 || h >= 2
      invariant Layers(n, h) == layer + Layers(blocks, h)
      decreases blocks
    {
      CeilDivShrinks(blocks, h);
      LayersSplit(blocks, h);
      var above := RoundUp(blocks, h);
      layer := layer + [above];
      blocks := above;
    }
    NoLayers(blocks, h);
  }

  method UpperLevels(layer: seq<nat>, blockSize: nat) returns (offset: nat)
    ensures offset == (if layer == [] then 0 else Sum(layer[1..])) * blockSize
  {
    offset := 0;
    var i := 1;
    while i < |layer|
      invariant 1 <= i
      invariant layer == [] ==> offset == 0
      invariant layer != [] ==>
                  i <= |layer| && offset + Sum(layer[i..]) * blockSize == Sum(layer[1..]) * blockSize
    {
      assert layer[i..][1..] == layer[i + 1..];
      Distribute(layer[i], Sum(layer[i + 1..]), blockSize);
      offset := offset + layer[i] * blockSize;
      i := i + 1;
    }
  }

  class Verity {
    const sb: Superblock
    var leafHashOffset: int

    /** verityAfterSquashfs puts the superblock behind a non-empty file system. */
    constructor (sb: Superblock)
      ensures this.sb == sb && leafHashOffset == 0
    {
      this.sb, leafHashOffset := sb, 0;
    }

    ghost predicate Valid()
      reads this
    {
      sb.Usable() && sb.offset > 0 && (leafHashOffset == 0 || leafHashOffset == LeafOffset(sb))
    }

    method FindFirstLeafHash()
      requires sb.Usable()
      modifies this
      ensures leafHashOffset == LeafOffset(sb)
    {
      var layer := LayerSizes(sb.dataBlockCount, sb.HashesPerBlock());
      hide Layers;
      var offset := UpperLevels(layer, sb.hashBlockSize);
      leafHashOffset := sb.offset + sb.hashBlockSize + offset;
    }

    method VerifyBlock(hash: Hash, image: seq<byte>, index: nat) returns (ok: bool)
      requires sb.Usable() && leafHashOffset == LeafOffset(sb)
      ensures ok == BlockOk(sb, hash, image, index)
    {
      hide LeafOffset;
      var at := leafHashOffset + index * sb.hashSize;
      if at < 0 || at + sb.hashSize > |image| {
        return false;
      }
      var want := image[at..at + sb.hashSize];
      var start := index * sb.dataBlockSize;
      if start + sb.dataBlockSize > |image| {
        return false;
      }
      var got := hash(sb.salt + image[start..start + sb.dataBlockSize]);
      ok := got == want;
    }

    /** Verify succeeds exactly when every inspected block matches its hash. */
    method Verify(hash: Hash, image: seq<byte>, offset: int, size: int) returns (ok: bool)
      requires Valid()
      modifies this
      ensures Valid()
      ensures ok <==> forall b: nat :: Inspected(sb, offset, size, b) ==> BlockOk(sb, hash, image, b)
      ensures offset >= 0 && size > 0 && offset % sb.dataBlockSize == 0 ==>
                (ok <==> forall b: nat :: Overlapped(sb, offset, size, b) ==> BlockOk(sb, hash, image, b))
    {
      if offset >= 0 && size > 0 {
        InspectionCovers(sb, offset, size);
      }
      hide Overlapped;
      if leafHashOffset < sb.offset {
        FindFirstLeafHash();
      }
      assert leafHashOffset == LeafOffset(sb);
      hide LeafOffset, BlockOk;
      var first := FirstBlock(sb, offset);
      hide FirstBlock;
      var block, rest := first, size;
      while rest > 0 && 0 <= block < sb.dataBlockCount
        invariant first <= block && rest == size - (block - first) * sb.dataBlockSize
        invariant forall b: nat :: b < block && Inspected(sb, offset, size, b) ==> BlockOk(sb, hash, image, b)
        invariant first < 0 ==> block == first
        invariant leafHashOffset == LeafOffset(sb)
        decreases sb.dataBlockCount - block
      {
        MulSub(block, first, sb.dataBlockSize);
        assert Inspected(sb, offset, size, block);
        var good := VerifyBlock(hash, image, block);
        if !good {
          return false;
        }
        assert (block + 1 - first) * sb.dataBlockSize == (block - first) * sb.dataBlockSize + sb.dataBlockSize;
        rest := rest - sb.dataBlockSize;
        block := block + 1;
      }
      forall b: nat | Inspected(sb, offset, size, b)
        ensures b < block
      {
        if b >= block {
          MulMonotone(block - first, b - first, sb.dataBlockSize);
        }
      }
      return true;
    }
  }
}
