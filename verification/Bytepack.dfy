/** lib/bytepack: a sequence of byte strings stored as one blob behind a header of UTF-8 integers. */
module Bytepack {
  import opened Bytes
  import opened Utf8

  // ----- Uint -----

  /** Conversion of a Go int to the 32-bit type behind Uint. */
  function Narrow(n: int): int {
    (n + 0x8000_0000) % 0x1_0000_0000 - 0x8000_0000
  }

  /** The integers that survive storage as a Uint: [0, 0xD800) and [0xE000, 0x10FFFF]. */
  predicate Fits(n: int) {
    ValidRune(n)
  }

  lemma StoredNarrow(n: int)
    ensures Stored(Narrow(n)) == n <==> Fits(n)
  {
  }

  // ----- Specification -----

  datatype Bytepack = Bytepack(data: seq<byte>, size: seq<nat>, offset: seq<nat>) {

    /** Every element is a slice of the blob, so Element cannot fail for an index below Size. */
    predicate Valid() {
      |size| == |offset| && forall i :: 0 <= i < |size| ==> offset[i] + size[i] <= |data|
    }

    function Element(i: nat): seq<byte>
      requires Valid() && i < |offset|
    {
      data[offset[i]..offset[i] + size[i]]
    }

    function Unpacked(): (out: seq<seq<byte>>)
      requires Valid()
    {
      seq(|offset|, i requires 0 <= i < |offset| => Element(i))
    }
  }

  function Lengths(input: seq<seq<byte>>): (s: seq<nat>)
    ensures |s| == |input|
  {
    seq(|input|, i requires 0 <= i < |input| => |input[i]|)
  }

  /** The integers of the header as handed to the encoder: the count, then every length. */
  function Header(input: seq<seq<byte>>): (h: seq<int>)
    ensures |h| == |input| + 1
  {
    [Narrow(|input|)] + seq(|input|, i requires 0 <= i < |input| => Narrow(|input[i]|))
  }

  function PackedBytes(input: seq<seq<byte>>): (s: seq<byte>)
    ensures s != []
  {
    EncodeAll(Header(input)) + Flatten(input)
  }

  /** Starting positions of adjacent slices of the given sizes. */
  function Offsets(start: nat, sizes: seq<nat>): (s: seq<nat>)
    ensures |s| == |sizes|
    decreases |sizes|
  {
    if sizes == [] then [] else [start] + Offsets(start + sizes[0], sizes[1..])
  }

  /** The code points of the header, read from a part of the blob that may include element bytes. */
  function HeadRunes(encoded: seq<byte>): (r: seq<nat>)
    requires encoded != []
    ensures r != [] && r[0] == DecodeRune(encoded).rune
  {
    var probe := Min(UTF_MAX, |encoded|);
    var head := Min(probe + UTF_MAX * Runes(encoded[..probe])[0], |encoded|);
    FirstRuneStable(encoded, head);
    Runes(encoded[..head])
  }

  /** The first code point does not depend on how much of the blob is decoded. */
  lemma FirstRuneStable(encoded: seq<byte>, head: nat)
    requires encoded != [] && Min(UTF_MAX, |encoded|) <= head <= |encoded|
    ensures DecodeRune(encoded[..head]) == DecodeRune(encoded)
  {
  }

  function DecodedHead(encoded: seq<byte>): Result<(seq<nat>, seq<nat>)> {
    if encoded == [] then Ok(([], [])) else
    var r := HeadRunes(encoded);
    if r[0] == 0 then Ok(([], [])) else
    if |r| < r[0] + 1 then Err else
    var start := |EncodeAll(r[..r[0] + 1])|;
    var sizes := r[1..r[0] + 1];
    if start + Sum(sizes) != |encoded| then Err else Ok((sizes, Offsets(start, sizes)))
  }

  function Wrapped(encoded: seq<byte>): Result<Bytepack> {
    match DecodedHead(encoded)
    case Err => Err
    case Ok((size, offset)) => Ok(Bytepack(encoded, size, offset))
  }

  function Packed(input: seq<seq<byte>>): Result<Bytepack> {
    Wrapped(PackedBytes(input))
  }

  // ----- What Wrap guarantees for arbitrary bytes -----

  /** Adjacent slices of the given sizes, cut off one after the other. */
  function Cut(data: seq<byte>, start: nat, sizes: seq<nat>): seq<seq<byte>>
    requires start + Sum(sizes) <= |data|
    decreases |sizes|
  {
    if sizes == [] then []
    else [data[start..start + sizes[0]]] + Cut(data, start + sizes[0], sizes[1..])
  }

  lemma {:induction false} CutFlatten(data: seq<byte>, start: nat, sizes: seq<nat>)
    requires start + Sum(sizes) == |data|
    ensures Flatten(Cut(data, start, sizes)) == data[start..]
    decreases |sizes|
  {
    if sizes != [] {
      CutFlatten(data, start + sizes[0], sizes[1..]);
      var cut := Cut(data, start, sizes);
      assert cut[1..] == Cut(data, start + sizes[0], sizes[1..]);
    }
  }

  lemma {:induction false} CutAt(data: seq<byte>, start: nat, sizes: seq<nat>, i: nat)
    requires start + Sum(sizes) <= |data| && i < |sizes|
    ensures |Cut(data, start, sizes)| == |sizes|
    ensures
      var o := Offsets(start, sizes)[i];
      o + sizes[i] <= |data| && Cut(data, start, sizes)[i] == data[o..o + sizes[i]]
    decreases |sizes|
  {
    var rest := Cut(data, start + sizes[0], sizes[1..]);
    if i > 0 {
      CutAt(data, start + sizes[0], sizes[1..], i - 1);
    } else if |sizes| > 1 {
      CutAt(data, start + sizes[0], sizes[1..], 0);
    }
  }

  lemma CutIsUnpacked(data: seq<byte>, start: nat, sizes: seq<nat>)
    requires start + Sum(sizes) <= |data|
    ensures Bytepack(data, sizes, Offsets(start, sizes)).Valid()
    ensures Bytepack(data, sizes, Offsets(start, sizes)).Unpacked() == Cut(data, start, sizes)
  {
    hide Sum, Offsets;
    var offsets, cut := Offsets(start, sizes), Cut(data, start, sizes);
    if sizes != [] {
      CutAt(data, start, sizes, 0);
    }
    hide Cut;
    forall i | 0 <= i < |sizes|
      ensures offsets[i] + sizes[i] <= |data| && data[offsets[i]..offsets[i] + sizes[i]] == cut[i]
    {
      CutAt(data, start, sizes, i);
    }
    var pack := Bytepack(data, sizes, offsets);
    assert pack.Valid();
    assert forall i :: 0 <= i < |sizes| ==> pack.Unpacked()[i] == cut[i];
  }

  lemma {:induction false} OffsetsAdjacent(start: nat, sizes: seq<nat>)
    ensures
      var o := Offsets(start, sizes);
      && (forall i :: 0 <= i < |sizes| - 1 ==> o[i] + sizes[i] == o[i + 1])
      && (sizes != [] ==> o[|sizes| - 1] + sizes[|sizes| - 1] == start + Sum(sizes))
    decreases |sizes|
  {
    if sizes != [] {
      OffsetsAdjacent(start + sizes[0], sizes[1..]);
      var o := Offsets(start + sizes[0], sizes[1..]);
      assert forall i :: 1 <= i < |sizes| ==> Offsets(start, sizes)[i] == o[i - 1];
    }
  }

  /**
   Whatever bytes Wrap accepts, valid UTF-8 or not, the elements are in bounds, adjacent and
   disjoint, and together they are exactly the part of the blob behind the header.
   */
  lemma WrapTiles(encoded: seq<byte>)
    requires Wrapped(encoded).Ok?
    ensures
      var pack := Wrapped(encoded).value;
      && pack.data == encoded && pack.Valid()
      && |pack.offset| == (if encoded == [] then 0 else DecodeRune(encoded).rune)
      && (forall i :: 0 <= i < |pack.offset| - 1 ==>
            pack.offset[i] + pack.size[i] == pack.offset[i + 1])
      && (pack.offset != [] ==>
            && pack.offset[|pack.offset| - 1] + pack.size[|pack.offset| - 1] == |encoded|
            && Flatten(pack.Unpacked()) == encoded[pack.offset[0]..])
  {
    hide EncodeAll, HeadRunes, Sum, Cut, Flatten;
    if encoded != [] {
      var r := HeadRunes(encoded);
      if r[0] != 0 {
        var start := |EncodeAll(r[..r[0] + 1])|;
        var sizes := r[1..r[0] + 1];
        OffsetsAdjacent(start, sizes);
        CutIsUnpacked(encoded, start, sizes);
        CutFlatten(encoded, start, sizes);
      }
    }
  }

  // ----- Round trip -----

  /** What a reader of the header written for `input` sees, whatever follows the header. */
  lemma HeaderReadsBack(input: seq<seq<byte>>)
    ensures DecodeRune(PackedBytes(input)).rune == Stored(Narrow(|input|))
    ensures Fits(|input|) ==> StoredAll(Header(input)) <= HeadRunes(PackedBytes(input))
  {
    hide EncodeRune, DecodeRune, Runes, Narrow, Flatten;
    var encoded := PackedBytes(input);
    var h := Header(input);
    var tail := EncodeAll(h[1..]) + Flatten(input);
    assert encoded == EncodeRune(h[0]) + tail;
    DecodeEncode(h[0], tail);
    if Fits(|input|) {
      StoredNarrow(|input|);
      var probe := Min(UTF_MAX, |encoded|);
      FirstRuneStable(encoded, probe);
      var head := Min(probe + UTF_MAX * |input|, |encoded|);
      EncodeAllLength(h);
      assert probe == UTF_MAX ==> |EncodeAll(h)| <= head;
      RunesStartWith(h, encoded[|EncodeAll(h)|..head]);
      assert encoded[..head] == EncodeAll(h) + encoded[|EncodeAll(h)|..head];
    }
  }

  /** Storing the code points that were read back costs as many bytes as storing the originals. */
  lemma {:induction false} StoredSameBytes(rs: seq<int>)
    ensures EncodeAll(StoredAll(rs)) == EncodeAll(rs)
  {
    hide EncodeRune;
    if rs != [] {
      StoredSameBytes(rs[1..]);
      assert StoredAll(rs)[1..] == StoredAll(rs[1..]);
      StoredSameRune(rs[0]);
    }
  }

  lemma {:induction false} FlattenLength(input: seq<seq<byte>>)
    ensures |Flatten(input)| == Sum(Lengths(input))
  {
    if input != [] {
      FlattenLength(input[1..]);
      assert Lengths(input)[1..] == Lengths(input[1..]);
    }
  }

  lemma FlattenHead(prefix: seq<byte>, input: seq<seq<byte>>)
    requires input != []
    ensures prefix + input[0] + Flatten(input[1..]) == prefix + Flatten(input)
    ensures (prefix + Flatten(input))[|prefix|..|prefix| + |input[0]|] == input[0]
  {
    assert (prefix + Flatten(input))[|prefix|..] == Flatten(input);
  }

  lemma {:induction false} CutOfFlatten(prefix: seq<byte>, input: seq<seq<byte>>)
    ensures |Flatten(input)| == Sum(Lengths(input))
    ensures Cut(prefix + Flatten(input), |prefix|, Lengths(input)) == input
    decreases |input|
  {
    FlattenLength(input);
    if input != [] {
      CutOfFlatten(prefix + input[0], input[1..]);
      FlattenHead(prefix, input);
      assert Lengths(input)[1..] == Lengths(input[1..]);
      hide Flatten, Sum, Lengths;
      assert input == [input[0]] + input[1..];
    }
  }

  /** Element counts and lengths for which the format is lossless. */
  predicate Packable(input: seq<seq<byte>>) {
    Fits(|input|) && forall i :: 0 <= i < |input| ==> Fits(|input[i]|)
  }

  predicate Lossless(input: seq<seq<byte>>) {
    var pack := Packed(input);
    pack.Ok? && pack.value.Valid() && pack.value.Unpacked() == input
  }

  /** For a representable count, Wrap sees the lengths as the encoder stored them. */
  lemma PackedSizes(input: seq<seq<byte>>)
    requires Fits(|input|) && Packed(input).Ok?
    ensures |Packed(input).value.size| == |input|
    ensures forall i :: 0 <= i < |input| ==> Packed(input).value.size[i] == Stored(Narrow(|input[i]|))
  {
    hide EncodeAll, HeadRunes, Narrow;
    HeaderReadsBack(input);
    var r := HeadRunes(PackedBytes(input));
    var stored := StoredAll(Header(input));
    StoredNarrow(|input|);
    assert r[0] == stored[0] == |input|;
    forall i | 0 <= i < |input|
      ensures Packed(input).value.size[i] == Stored(Narrow(|input[i]|))
    {
      assert r[i + 1] == stored[i + 1];
    }
  }

  lemma PackableIsLossless(input: seq<seq<byte>>)
    requires Packable(input)
    ensures Lossless(input)
  {
    hide EncodeAll, HeadRunes, Narrow, Flatten, Sum, Offsets, Cut;
    HeaderReadsBack(input);
    var h := Header(input);
    var r := HeadRunes(PackedBytes(input));
    StoredNarrow(|input|);
    assert r[0] == StoredAll(h)[0] == |input|;
    assert r[..|input| + 1] == StoredAll(h);
    forall i | 0 <= i < |input|
      ensures r[i + 1] == |input[i]|
    {
      assert r[i + 1] == StoredAll(h)[i + 1];
      StoredNarrow(|input[i]|);
    }
    assert r[1..|input| + 1] == Lengths(input);
    StoredSameBytes(h);
    CutOfFlatten(EncodeAll(h), input);
    CutIsUnpacked(PackedBytes(input), |EncodeAll(h)|, Lengths(input));
  }

  /** The elements that Wrap announces are together as long as the ones that were written. */
  lemma PackedTotal(input: seq<seq<byte>>)
    requires Fits(|input|) && Packed(input).Ok?
    ensures Sum(Packed(input).value.size) == |Flatten(input)|
  {
    hide EncodeAll;
    HeaderReadsBack(input);
    var r := HeadRunes(PackedBytes(input));
    var h := Header(input);
    StoredNarrow(|input|);
    assert r[0] == StoredAll(h)[0] == |input|;
    assert r[..|input| + 1] == StoredAll(h);
    StoredSameBytes(h);
  }

  lemma PackedCount(input: seq<seq<byte>>)
    requires Packed(input).Ok?
    ensures |Packed(input).value.offset| == Stored(Narrow(|input|))
  {
    WrapTiles(PackedBytes(input));
    HeaderReadsBack(input);
  }

  lemma LosslessIsPackable(input: seq<seq<byte>>)
    requires Lossless(input)
    ensures Packable(input)
  {
    var pack := Packed(input).value;
    PackedCount(input);
    StoredNarrow(|input|);
    PackedSizes(input);
    forall i | 0 <= i < |input|
      ensures Fits(|input[i]|)
    {
      StoredNarrow(|input[i]|);
      assert |pack.Unpacked()[i]| == pack.size[i];
    }
  }

  /**
   Pack followed by Unpack is the identity exactly for the inputs whose count and element lengths
   lie in [0, 0xD800) or [0xE000, 0x10FFFF]; for every other input Pack fails or changes the data.
   */
  lemma PackRoundTrip(input: seq<seq<byte>>)
    ensures Packable(input) <==> Lossless(input)
  {
    if Packable(input) {
      PackableIsLossless(input);
    }
    if Lossless(input) {
      LosslessIsPackable(input);
    }
  }

  /** The format of a small pack: the number of elements, their lengths, the elements. */
  lemma SmallPack()
    ensures PackedBytes([[7], [8, 9]]) == [2, 1, 2, 7, 8, 9]
  {
    var input: seq<seq<byte>> := [[7], [8, 9]];
    assert Header(input) == [2, 1, 2];
    assert EncodeAll([2, 1, 2]) == [2, 1, 2] by {
      assert EncodeAll([2]) == [2] + EncodeAll([]);
      assert [1, 2][1..] == [2] && [2, 1, 2][1..] == [1, 2];
    }
    assert Flatten(input) == [7, 8, 9] by {
      assert input[1..] == [[8, 9]];
    }
  }

  /** A single element as long as the first surrogate does not survive. */
  lemma SurrogateLengthLost(element: seq<byte>)
    requires |element| == 0xD800
    ensures !Lossless([element])
  {
    PackRoundTrip([element]);
    assert !Fits(|[element][0]|);
  }

  // ----- The code -----

  lemma {:induction false} OffsetsSnoc(start: nat, sizes: seq<nat>, x: nat)
    ensures Offsets(start, sizes + [x]) == Offsets(start, sizes) + [start + Sum(sizes)]
    ensures Sum(sizes + [x]) == Sum(sizes) + x
    decreases |sizes|
  {
    if sizes != [] {
      OffsetsSnoc(start + sizes[0], sizes[1..], x);
      assert (sizes + [x])[1..] == sizes[1..] + [x];
    }
  }

  /** Uint.Encode: writes into the given buffer and reports the number of bytes written. */
  method Encode(n: int, to: array<byte>, cur: nat) returns (written: nat)
    requires cur + |EncodeRune(Narrow(n))| <= to.Length
    modifies to
    ensures written == |EncodeRune(Narrow(n))|
    ensures to[..cur + written] == old(to[..cur]) + EncodeRune(Narrow(n))
    ensures to[cur + written..] == old(to[cur + written..])
  {
    var r := Narrow(n);
    if r > MAX_RUNE {
      r := RUNE_ERROR;
    }
    if r < 0 {
      r := RUNE_ERROR;
    }
    var code := EncodeRune(r);
    written := |code|;
    forall k | 0 <= k < |code| {
      to[cur + k] := code[k];
    }
  }

  /** Upper bound on the size of the blob. */
  method Ceiling(input: seq<seq<byte>>) returns (ceil: nat)
    ensures ceil == UTF_MAX * |Header(input)| + |Flatten(input)|
  {
    ceil := UTF_MAX;
    for i := 0 to |input|
      invariant ceil == UTF_MAX * (i + 1) + |Flatten(input[..i])|
    {
      assert input[..i + 1] == input[..i] + [input[i]];
      FlattenSnoc(input[..i], input[i]);
      ceil := ceil + UTF_MAX;
      ceil := ceil + |input[i]|;
    }
    assert input[..|input|] == input;
  }

  /** Appends one more integer to a partly written header. */
  method EncodeNext(n: int, ghost written: seq<int>, buf: array<byte>, cur: nat) returns (next: nat)
    requires cur <= UTF_MAX * |written| && UTF_MAX * (|written| + 1) <= buf.Length
    requires buf[..cur] == EncodeAll(written)
    modifies buf
    ensures next <= UTF_MAX * (|written| + 1)
    ensures buf[..next] == EncodeAll(written + [Narrow(n)])
  {
    EncodeAllSnoc(written, Narrow(n));
    var width := Encode(n, buf, cur);
    next := cur + width;
  }

  method WriteHeader(input: seq<seq<byte>>, buf: array<byte>) returns (cur: nat)
    requires buf.Length >= UTF_MAX * |Header(input)|
    modifies buf
    ensures cur <= buf.Length && buf[..cur] == EncodeAll(Header(input))
  {
    ghost var h := Header(input);
    assert EncodeAll([]) == [];
    hide EncodeAll, Narrow;
    cur := EncodeNext(|input|, [], buf, 0);
    assert [] + [Narrow(|input|)] == h[..1];
    for i := 0 to |input|
      invariant cur <= UTF_MAX * (i + 1) <= buf.Length
      invariant buf[..cur] == EncodeAll(h[..i + 1])
    {
      assert h[..i + 2] == h[..i + 1] + [Narrow(|input[i]|)];
      cur := EncodeNext(|input[i]|, h[..i + 1], buf, cur);
    }
    assert h[..|input| + 1] == h;
  }

  method WriteElements(input: seq<seq<byte>>, buf: array<byte>, start: nat) returns (cur: nat)
    requires start + |Flatten(input)| <= buf.Length
    modifies buf
    ensures start <= cur <= buf.Length && buf[..cur] == old(buf[..start]) + Flatten(input)
  {
    cur := start;
    for i := 0 to |input|
      invariant start <= cur && cur + |Flatten(input[i..])| <= buf.Length
      invariant buf[..cur] == old(buf[..start]) + Flatten(input[..i])
    {
      assert input[..i + 1] == input[..i] + [input[i]];
      FlattenSnoc(input[..i], input[i]);
      assert input[i..][1..] == input[i + 1..];
      ghost var before := buf[..cur];
      var elem := input[i];
      forall k | 0 <= k < |elem| {
        buf[cur + k] := elem[k];
      }
      cur := cur + |elem|;
      assert buf[..cur] == before + elem;
    }
    assert input[..|input|] == input;
  }

  /**
   Pack: sizes a buffer up front, fills it in three passes and wraps the used part.
   That the passes verify shows that none of them can run past the end of the buffer.
   */
  method Pack(input: seq<seq<byte>>) returns (pack: Result<Bytepack>)
    ensures pack == Packed(input)
    ensures Packable(input) <==> pack.Ok? && pack.value.Valid() && pack.value.Unpacked() == input
  {
    var ceil := Ceiling(input);
    var buf := new byte[ceil](_ => 0);
    EncodeAllLength(Header(input));
    var cur := WriteHeader(input, buf);
    cur := WriteElements(input, buf, cur);
    pack := Wrap(buf[..cur]);
    PackRoundTrip(input);
  }

  /** Exact length of a header. */
  method HeaderLength(r: seq<nat>) returns (head: nat)
    ensures head == |EncodeAll(r)|
  {
    head := 0;
    for i := 0 to |r|
      invariant head == |EncodeAll(r[..i])|
    {
      assert r[..i + 1] == r[..i] + [r[i]];
      EncodeAllSnoc(r[..i], r[i]);
      head := head + |EncodeRune(r[i])|;
    }
    assert r[..|r|] == r;
  }

  /** Sizes and offsets of the elements announced by a header, and where the last one ends. */
  method Layout(head: nat, r: seq<nat>) returns (size: seq<nat>, offset: seq<nat>, got: nat)
    requires |r| >= 2
    ensures size == r[1..] && offset == Offsets(head, size) && got == head + Sum(size)
  {
    size, offset := [], [];
    for i := 0 to |r| - 1
      invariant |size| == i && forall k :: 0 <= k < i ==> size[k] == r[k + 1]
      invariant offset == Offsets(head, size)
    {
      OffsetsAdjacent(head, size);
      var next := if i == 0 then head else offset[i - 1] + size[i - 1];
      OffsetsSnoc(head, size, r[i + 1]);
      size := size + [r[i + 1]];
      offset := offset + [next];
    }
    OffsetsAdjacent(head, size);
    assert size == r[1..];
    got := offset[|offset| - 1] + size[|size| - 1];
  }

  /** Wrap with its header decoder. */
  method Wrap(encoded: seq<byte>) returns (pack: Result<Bytepack>)
    ensures pack == Wrapped(encoded)
  {
    hide EncodeAll, Sum, Offsets, Runes, DecodeRune;
    var head := Min(UTF_MAX, |encoded|);
    ghost var probe := head;
    if head == 0 {
      return Ok(Bytepack(encoded, [], []));
    }
    FirstRuneStable(encoded, head);
    var r := Runes(encoded[..head]);
    head := head + UTF_MAX * r[0];
    if head > |encoded| {
      head := |encoded|;
    }
    assert head == Min(probe + UTF_MAX * r[0], |encoded|);
    if r[0] == 0 {
      return Ok(Bytepack(encoded, [], []));
    }
    r := Runes(encoded[..head]);
    if |r| < r[0] + 1 {
      return Err;
    }
    assert r == HeadRunes(encoded);
    r := r[..r[0] + 1];
    head := HeaderLength(r);
    var size, offset, got := Layout(head, r);
    if got != |encoded| {
      return Err;
    }
    return Ok(Bytepack(encoded, size, offset));
  }
}
