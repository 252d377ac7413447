/** nbd/s3/chunk.go: which chunks of a remote object are in the local cache, and who waits for them. */
module ChunkMap {
  import opened Bytes

  const CHUNK_SIZE := 0x80_0000
  const VERSION: seq<byte> := [0x43, 0x68, 0x75, 0x6E, 0x6B, 0x4D, 0x61, 0x70, 0x56, 0x30, 0x32] // ChunkMapV02
  const VERSION_PREFIX := 9
  const VERSION_FIELD := 16
  const HEADER_LENGTH := 32
  const BYTE_CEILING := 0x14_0000 // an eighth of 10 << 20 chunks

  // ----- Geometry -----

  datatype Extent = Extent(offset: nat, size: nat) {
    predicate Contains(x: int) {
      offset <= x < offset + size
    }
  }

  /** Offset: the bytes of an object of length `total` that belong to chunk c. */
  function ExtentOf(total: nat, c: int): Extent {
    var offset := CHUNK_SIZE * c;
    if offset > total || offset < 0 then Extent(0, 0)
    else if offset + CHUNK_SIZE > total then Extent(offset, total - offset)
    else Extent(offset, CHUNK_SIZE)
  }

  /** The chunks tile the object: a byte belongs to chunk c exactly when c is its offset over the chunk size. */
  lemma ChunksTile(total: nat, x: int, c: int)
    ensures ExtentOf(total, c).Contains(x) <==> 0 <= x < total && c == x / CHUNK_SIZE
  {
  }

  function ChunkCount(total: nat): nat {
    (total + CHUNK_SIZE - 1) / CHUNK_SIZE
  }

  lemma NonEmptyInRange(total: nat, c: int)
    ensures ExtentOf(total, c).size > 0 <==> 0 <= c < ChunkCount(total)
  {
  }

  // ----- big.Int as a bitmap -----

  predicate Bit(n: nat, i: nat) {
    if i == 0 then n % 2 == 1 else Bit(n / 2, i - 1)
  }

  function SetBit(n: nat, i: nat, b: bool): nat {
    if i == 0 then n / 2 * 2 + (if b then 1 else 0) else SetBit(n / 2, i - 1, b) * 2 + n % 2
  }

  lemma {:induction false} BitOfSetBit(n: nat, i: nat, b: bool, j: nat)
    ensures Bit(SetBit(n, i, b), j) == if i == j then b else Bit(n, j)
    decreases i
  {
    if i > 0 && j > 0 {
      BitOfSetBit(n / 2, i - 1, b, j - 1);
    }
  }

  function BitLen(n: nat): nat {
    if n == 0 then 0 else 1 + BitLen(n / 2)
  }

  lemma {:induction false} NoBitBeyond(n: nat, i: nat)
    requires i >= BitLen(n)
    ensures !Bit(n, i)
    decreases i
  {
    if i > 0 {
      NoBitBeyond(n / 2, i - 1);
    }
  }

  /** All bits lie below k. */
  ghost predicate Below(n: nat, k: nat) {
    forall i: nat :: i >= k ==> !Bit(n, i)
  }

  lemma {:induction false} NoBitsIsZero(n: nat)
    requires Below(n, 0)
    ensures n == 0
    decreases n
  {
    assert !Bit(n, 0);
    if n > 0 {
      forall i: nat ensures !Bit(n / 2, i) {
        assert !Bit(n, i + 1);
      }
      NoBitsIsZero(n / 2);
    }
  }

  /** big.Int.Bytes: most significant byte first, no leading zero byte. */
  function Minimal(n: nat): seq<byte> {
    if n == 0 then [] else Minimal(n / 256) + [n % 256]
  }

  lemma {:induction false} MinimalRoundTrip(n: nat)
    ensures FromBigEndian(Minimal(n)) == n
  {
    if n > 0 {
      MinimalRoundTrip(n / 256);
      assert Minimal(n)[..|Minimal(n)| - 1] == Minimal(n / 256);
    }
  }

  lemma BitShift(n: nat, i: nat)
    ensures Bit(n / 256, i) == Bit(n, i + 8)
  {
    hide Bit;
    BitHalf(n, i + 7);
    BitHalf(n / 2, i + 6);
    BitHalf(n / 4, i + 5);
    BitHalf(n / 8, i + 4);
    BitHalf(n / 16, i + 3);
    BitHalf(n / 32, i + 2);
    BitHalf(n / 64, i + 1);
    BitHalf(n / 128, i);
  }

  lemma BitHalf(n: nat, i: nat)
    ensures Bit(n / 2, i) == Bit(n, i + 1)
  {
  }

  lemma {:induction false} MinimalLength(n: nat, k: nat)
    requires Below(n, k)
    ensures |Minimal(n)| <= (k + 7) / 8
    decreases n
  {
    hide Bit;
    if n > 0 {
      if k == 0 {
        NoBitsIsZero(n);
      }
      var rest := if k < 8 then 0 else k - 8;
      forall i: nat | i >= rest ensures !Bit(n / 256, i) {
        BitShift(n, i);
      }
      MinimalLength(n / 256, rest);
    }
  }

  // ----- State -----

  /**
   Channels are numbered in the order of their creation; `closed` holds the closed ones, and
   channel 0 is the package-level one that is closed from the start.
   */
  datatype State = State(size: nat, bitmap: nat, running: map<int, nat>, closed: set<nat>, made: nat)

  function Opened(size: nat, bitmap: nat): State {
    State(size, bitmap, map[], {0}, 1)
  }

  predicate Marked(m: State, c: int) {
    c >= 0 && Bit(m.bitmap, c)
  }

  function Done(m: State, c: nat): State {
    m.(bitmap := SetBit(m.bitmap, c, true),
       closed := if c in m.running then m.closed + {m.running[c]} else m.closed,
       running := m.running - {c})
  }

  function Lost(m: State, c: nat): State {
    m.(bitmap := SetBit(m.bitmap, c, false))
  }

  datatype Checked = Checked(state: State, wait: nat, done: bool)

  function Check(m: State, c: int): Checked {
    if ExtentOf(m.size, c).size == 0 || Marked(m, c) then Checked(m, 0, true)
    else if c in m.running then Checked(m, m.running[c], false)
    else Checked(m.(running := m.running[c := m.made], made := m.made + 1), m.made, false)
  }

  /**
   A chunk is never both done and awaited, an awaited chunk has an open channel of its own, and
   only existing channels are closed.
   */
  ghost predicate Valid(m: State) {
    && 0 in m.closed && m.made > 0
    && (forall ch :: ch in m.closed ==> ch < m.made)
    && (forall c :: c in m.running ==>
          && ExtentOf(m.size, c).size > 0 && !Marked(m, c)
          && m.running[c] !in m.closed && m.running[c] < m.made)
    && (forall c, d :: c in m.running && d in m.running && m.running[c] == m.running[d] ==> c == d)
  }

  lemma DoneValid(m: State, c: nat)
    requires Valid(m)
    ensures Valid(Done(m, c)) && Marked(Done(m, c), c) && c !in Done(m, c).running
    ensures Done(m, c).closed == m.closed + (if c in m.running then {m.running[c]} else {})
    ensures c in m.running ==> m.running[c] !in m.closed
    ensures forall d :: d in m.running && d != c ==> d in Done(m, c).running && Done(m, c).running[d] == m.running[d]
    ensures forall d :: d != c ==> Marked(Done(m, c), d) == Marked(m, d)
  {
    hide Bit, SetBit, ExtentOf;
    forall d: nat ensures Bit(SetBit(m.bitmap, c, true), d) == if c == d then true else Bit(m.bitmap, d) {
      BitOfSetBit(m.bitmap, c, true, d);
    }
  }

  lemma LostValid(m: State, c: nat)
    requires Valid(m)
    ensures Valid(Lost(m, c)) && !Marked(Lost(m, c), c)
    ensures forall d :: d != c ==> Marked(Lost(m, c), d) == Marked(m, d)
  {
    hide Bit, SetBit, ExtentOf;
    forall d: nat ensures Bit(SetBit(m.bitmap, c, false), d) == if c == d then false else Bit(m.bitmap, d) {
      BitOfSetBit(m.bitmap, c, false, d);
    }
  }

  /** A caller told "not done" gets the open channel that is registered for the chunk. */
  lemma CheckValid(m: State, c: int)
    requires Valid(m)
    ensures
      var r := Check(m, c);
      && Valid(r.state) && r.state.bitmap == m.bitmap && r.state.closed == m.closed
      && (r.done ==> r.wait in m.closed && r.state == m)
      && (!r.done ==> c in r.state.running && r.state.running[c] == r.wait && r.wait !in r.state.closed)
      && (forall d :: d in m.running ==> d in r.state.running && r.state.running[d] == m.running[d])
  {
    hide Bit, ExtentOf;
  }

  lemma SameMarks(m: State, n: State)
    requires m.bitmap == n.bitmap
    ensures forall c :: Marked(m, c) == Marked(n, c)
  {
  }

  // ----- File format -----

  function Padded(s: seq<byte>, width: nat): (r: seq<byte>)
    requires |s| <= width
    ensures |r| == width && s <= r
  {
    s + seq(width - |s|, _ => 0)
  }

  function Saved(bitmap: nat, size: nat): seq<byte> {
    Padded(VERSION, VERSION_FIELD) + BigEndian(CHUNK_SIZE, 8) + BigEndian(size, 8) + Minimal(bitmap)
  }

  function Loaded(file: seq<byte>, size: nat): Result<nat> {
    if |file| < HEADER_LENGTH then if |file| == 0 then Ok(0) else Err
    else if file[..VERSION_PREFIX] != VERSION[..VERSION_PREFIX] then Err
    else if file[..|VERSION|] != VERSION then Ok(0)
    else if FromBigEndian(file[16..24]) != CHUNK_SIZE || FromBigEndian(file[24..32]) != size then Ok(0)
    else if |file| - HEADER_LENGTH > size / CHUNK_SIZE / 8 + 1 || |file| - HEADER_LENGTH > BYTE_CEILING then Err
    else Ok(FromBigEndian(file[HEADER_LENGTH..]))
  }

  lemma SavedParts(bitmap: nat, size: nat)
    ensures
      var f := Saved(bitmap, size);
      && |f| == HEADER_LENGTH + |Minimal(bitmap)|
      && f[..VERSION_PREFIX] == VERSION[..VERSION_PREFIX] && f[..|VERSION|] == VERSION
      && f[16..24] == BigEndian(CHUNK_SIZE, 8) && f[24..32] == BigEndian(size, 8)
      && f[HEADER_LENGTH..] == Minimal(bitmap)
  {
    hide BigEndian, Minimal;
  }

  lemma Pow256Of8()
    ensures Pow256(8) == 0x1_0000_0000_0000_0000
  {
    assert Pow256(8) == 256 * (256 * (256 * (256 * Pow256(4))));
    assert Pow256(4) == 256 * (256 * (256 * (256 * Pow256(0))));
  }

  /** The bits in the bytes that the loader accepts for an object; the last byte may name chunks behind it. */
  function LoaderBits(size: nat): (k: nat)
    ensures ChunkCount(size) <= k < ChunkCount(size) + 9
  {
    8 * (size / CHUNK_SIZE / 8 + 1)
  }

  /** A bitmap whose bits name chunks of the object, or only just others, never fails the loader's size test. */
  lemma SavedFitsObject(bitmap: nat, size: nat)
    requires Below(bitmap, LoaderBits(size))
    ensures |Minimal(bitmap)| <= size / CHUNK_SIZE / 8 + 1
    ensures Below(bitmap, 8 * BYTE_CEILING) ==> |Minimal(bitmap)| <= BYTE_CEILING
  {
    MinimalLength(bitmap, LoaderBits(size));
    if Below(bitmap, 8 * BYTE_CEILING) {
      MinimalLength(bitmap, 8 * BYTE_CEILING);
    }
  }

  /**
   Loading what Save wrote gives back the same bitmap exactly when the bitmap has at most
   BYTE_CEILING bytes, which bits for up to 10 << 20 chunks always meet; a file written for an
   object of another size counts as an empty cache.
   */
  lemma SaveLoad(bitmap: nat, size: nat, now: nat)
    requires Below(bitmap, LoaderBits(size)) && size < 0x8000_0000_0000_0000
    ensures now == size ==> (Loaded(Saved(bitmap, size), now) == Ok(bitmap) <==> |Minimal(bitmap)| <= BYTE_CEILING)
    ensures now == size && Below(bitmap, 8 * BYTE_CEILING) ==> Loaded(Saved(bitmap, size), now) == Ok(bitmap)
    ensures now != size ==> Loaded(Saved(bitmap, size), now) == Ok(0)
  {
    hide Saved, Minimal, BigEndian, Below, ChunkCount, LoaderBits, Pow256;
    SavedParts(bitmap, size);
    SavedFitsObject(bitmap, size);
    MinimalRoundTrip(bitmap);
    Pow256Of8();
    BigEndianRoundTrip(CHUNK_SIZE, 8);
    BigEndianRoundTrip(size, 8);
  }

  lemma {:induction false} BytesBelow(s: seq<byte>)
    ensures Below(FromBigEndian(s), 8 * |s|)
    decreases |s|
  {
    var n := FromBigEndian(s);
    if s == [] {
      forall i: nat
        ensures !Bit(n, i)
      {
        NoBitBeyond(n, i);
      }
    } else {
      var front := s[..|s| - 1];
      BytesBelow(front);
      assert n / 256 == FromBigEndian(front);
      forall i: nat | i >= 8 * |s|
        ensures !Bit(n, i)
      {
        BitShift(n, i - 8);
      }
    }
  }

  /**
   Whatever a file holds, chunks are taken to be cached only if it announces this format, this
   chunk size and this object, and then only chunks whose bits fit the bytes an object needs.
   */
  lemma LoadedTrusted(file: seq<byte>, size: nat)
    requires Loaded(file, size).Ok? && Loaded(file, size).value != 0
    ensures |file| > HEADER_LENGTH && file[..|VERSION|] == VERSION
    ensures FromBigEndian(file[16..24]) == CHUNK_SIZE && FromBigEndian(file[24..32]) == size
    ensures Below(Loaded(file, size).value, LoaderBits(size)) && Below(Loaded(file, size).value, 8 * BYTE_CEILING)
  {
    var raw := file[HEADER_LENGTH..];
    BytesBelow(raw);
  }

  /** Bit i of a byte. */
  predicate ByteBit(b: byte, i: nat)
    requires i < 8
  {
    Bit(b, i)
  }

  /** The bits of a big-endian number, byte by byte from the end. */
  lemma {:induction false} BytesBits(s: seq<byte>, i: nat)
    ensures Bit(FromBigEndian(s), i) <==> i / 8 < |s| && ByteBit(s[|s| - 1 - i / 8], i % 8)
    decreases |s|
  {
    var n := FromBigEndian(s);
    if s == [] {
      NoBitBeyond(n, i);
    } else {
      var front, last := s[..|s| - 1], s[|s| - 1];
      assert n == 256 * FromBigEndian(front) + last;
      if i < 8 {
        LowBits(FromBigEndian(front), last, i);
      } else {
        BytesBits(front, i - 8);
        BitShift(n, i - 8);
      }
    }
  }

  lemma LowBits(high: nat, low: byte, i: nat)
    requires i < 8
    ensures Bit(256 * high + low, i) == Bit(low, i)
  {
    assert Pow2(8) == 2 * (2 * (2 * (2 * (2 * (2 * (2 * (2 * Pow2(0))))))));
    BitBelow(high, low, i, 8);
  }

  function Pow2(n: nat): nat {
    if n == 0 then 1 else 2 * Pow2(n - 1)
  }

  lemma {:induction false} BitBelow(high: nat, low: nat, i: nat, width: nat)
    requires i < width
    ensures Pow2(width) * high >= 0 && Bit(Pow2(width) * high + low, i) == Bit(low, i)
    decreases i
  {
    var half := Pow2(width - 1) * high;
    assert Pow2(width) * high == 2 * half;
    if i > 0 {
      BitBelow(high, low / 2, i - 1, width - 1);
      assert (2 * half + low) / 2 == half + low / 2;
    }
  }

  /**
   What becomes of every file. One that is empty, of another version of the format, or for another
   chunk or object size counts as an empty cache; one that is cut short, of no version of the format
   or too long is an error; from any other the chunks whose bits are set are taken.
   */
  lemma LoadedExactly(file: seq<byte>, size: nat)
    ensures |file| == 0 ==> Loaded(file, size) == Ok(0)
    ensures 0 < |file| < 32 ==> Loaded(file, size) == Err
    ensures
      |file| >= 32 ==>
        var known := file[..9] == [0x43, 0x68, 0x75, 0x6E, 0x6B, 0x4D, 0x61, 0x70, 0x56]; // ChunkMapV
        var same := file[9] == 0x30 && file[10] == 0x32                                    // 02
                    && FromBigEndian(file[16..24]) == 8 * 1024 * 1024 && FromBigEndian(file[24..32]) == size;
        var fits := |file| - 32 <= size / (8 * 1024 * 1024) / 8 + 1 && |file| - 32 <= 10 * 1024 * 1024 / 8;
        && (!known || (same && !fits) <==> Loaded(file, size) == Err)
        && (known && !same ==> Loaded(file, size) == Ok(0))
        && (known && same && fits ==>
              Loaded(file, size).Ok? && forall i: nat ::
                Bit(Loaded(file, size).value, i) <==> i / 8 < |file| - 32 && ByteBit(file[|file| - 1 - i / 8], i % 8))
  {
    if |file| >= 32 {
      assert file[..11] == file[..9] + [file[9], file[10]];
      var raw := file[32..];
      forall i: nat
        ensures Bit(FromBigEndian(raw), i) <==> i / 8 < |raw| && ByteBit(file[|file| - 1 - i / 8], i % 8)
      {
        BytesBits(raw, i);
      }
      hide FromBigEndian, Bit, ByteBit;
    }
  }

  // ----- The code -----

  class Map {
    var size: nat
    var bitmap: nat
    var running: map<int, nat>
    var closed: set<nat>
    var made: nat

    function Get(): State
      reads this
    {
      State(size, bitmap, running, closed, made)
    }

    constructor (size: nat)
      ensures Get() == Opened(size, 0)
    {
      this.size, bitmap, running, closed, made := size, 0, map[], {0}, 1;
    }

    /** openChunkMap on the contents of the file; a new file is empty. */
    static method Open(file: seq<byte>, size: nat) returns (m: Map?)
      ensures (m == null) == Loaded(file, size).Err?
      ensures m != null ==> fresh(m) && m.Get() == Opened(size, Loaded(file, size).value)
    {
      m := new Map(size);
      if |file| < HEADER_LENGTH {
        if |file| != 0 {
          return null;
        }
        return;
      }
      if file[..VERSION_PREFIX] != VERSION[..VERSION_PREFIX] {
        return null;
      }
      if file[..|VERSION|] != VERSION {
        return;
      }
      var chunkSize, totalSize := FromBigEndian(file[16..24]), FromBigEndian(file[24..32]);
      if chunkSize != CHUNK_SIZE || totalSize != size {
        return;
      }
      var count := |file| - HEADER_LENGTH;
      if count > size / CHUNK_SIZE / 8 + 1 || count > BYTE_CEILING {
        return null;
      }
      m.bitmap := FromBigEndian(file[HEADER_LENGTH..]);
    }

    method Save() returns (file: seq<byte>)
      ensures file == Saved(bitmap, size)
      ensures Below(bitmap, LoaderBits(size)) && Below(bitmap, 8 * BYTE_CEILING) && size < 0x8000_0000_0000_0000
              ==> Loaded(file, size) == Ok(bitmap)
    {
      file := Padded(VERSION, VERSION_FIELD);
      file := file + BigEndian(CHUNK_SIZE, 8) + BigEndian(size, 8);
      file := file + Minimal(bitmap);
      if Below(bitmap, LoaderBits(size)) && size < 0x8000_0000_0000_0000 {
        SaveLoad(bitmap, size, size);
      }
    }

    method MarkDone(c: nat)
      requires Valid(Get())
      modifies this
      ensures Get() == Done(old(Get()), c) && Valid(Get())
    {
      DoneValid(Get(), c);
      bitmap := SetBit(bitmap, c, true);
      if c in running {
        var ch := running[c];
        assert ch !in closed; // closing it again would panic
        closed := closed + {ch};
        running := running - {c};
      }
    }

    method MarkLost(c: nat)
      requires Valid(Get())
      modifies this
      ensures Get() == Lost(old(Get()), c) && Valid(Get())
    {
      LostValid(Get(), c);
      bitmap := SetBit(bitmap, c, false);
    }

    method CheckChunk(c: int) returns (ch: nat, done: bool)
      requires Valid(Get())
      modifies this
      ensures Checked(Get(), ch, done) == Check(old(Get()), c) && Valid(Get())
    {
      CheckValid(Get(), c);
      if ExtentOf(size, c).size == 0 {
        return 0, true;
      }
      if c >= 0 && Bit(bitmap, c) {
        return 0, true;
      }
      if c !in running {
        running := running[c := made];
        made := made + 1;
      }
      return running[c], false;
    }

    /** After: the first marked chunk behind the given one. */
    method After(current: nat) returns (next: nat, found: bool)
      ensures found ==> next > current && Marked(Get(), next)
                        && forall c :: current < c < next ==> !Marked(Get(), c)
      ensures !found ==> forall c :: c > current ==> !Marked(Get(), c)
    {
      hide Bit;
      next := current + 1;
      while next < BitLen(bitmap)
        invariant next > current
        invariant forall c :: current < c < next ==> !Marked(Get(), c)
      {
        if Bit(bitmap, next) {
          return next, true;
        }
        next := next + 1;
      }
      forall c | c > current
        ensures !Marked(Get(), c)
      {
        if c >= next {
          NoBitBeyond(bitmap, c);
        }
      }
      return 0, false;
    }
  }
}
