/**
 initramfs/cpio/header.go: entries of the "newc" archive format described in man 5 cpio, and a
 reader for them.
 */
module CpioFormat {
  import opened Bytes

  const HEX_LENGTH := 110
  const FIELDS := 13
  const MAGIC: seq<byte> := [7, 7, 1]
  const TRAILER: seq<byte> := [0x54, 0x52, 0x41, 0x49, 0x4C, 0x45, 0x52, 0x21, 0x21, 0x21] // TRAILER!!!

  datatype Entry = Entry(inode: nat, mode: nat, name: seq<byte>, data: seq<byte>)

  /** Values that the 32-bit header fields can hold. */
  predicate Representable(e: Entry) {
    && e.inode < 0x1_0000_0000 && e.mode < 0x1_0000_0000
    && |e.data| < 0x1_0000_0000 && |e.name| + 1 < 0x1_0000_0000
  }

  // ----- Writing -----

  function Digit(n: nat): byte
    requires n < 16
  {
    if n < 10 then 48 + n else 87 + n
  }

  /** hex.NewEncoder: two lower-case digits per byte. */
  function Hex(s: seq<byte>): (h: seq<byte>)
    ensures |h| == 2 * |s|
  {
    if s == [] then [] else [Digit(s[0] / 16), Digit(s[0] % 16)] + Hex(s[1..])
  }

  /** Bytes missing to a multiple of four. */
  function Padding(n: nat): (p: nat)
    ensures p < 4 && (n + p) % 4 == 0
  {
    if n % 4 == 0 then 0 else 4 - n % 4
  }

  function Zeros(n: nat): (z: seq<byte>)
    ensures |z| == n
  {
    seq(n, _ => 0)
  }

  datatype Header = Header(inode: nat, mode: nat, filesize: nat, name: seq<byte>)

  function HeaderOf(e: Entry): Header {
    Header(e.inode, e.mode, |e.data|, e.name)
  }

  /** Header fields in their order on disk: owner, times and devices are all zero. */
  function Fields(h: Header): (f: seq<nat>)
    ensures |f| == FIELDS
  {
    [h.inode, h.mode, 0, 0, 1, 0, h.filesize, 0, 0, 0, 0, |h.name| + 1, 0]
  }

  function Pack(fields: seq<nat>): (s: seq<byte>)
    ensures |s| == 4 * |fields|
  {
    if fields == [] then [] else BigEndian(fields[0], 4) + Pack(fields[1..])
  }

  function HeaderBytes(h: Header): (s: seq<byte>)
    ensures |s| == HEX_LENGTH
  {
    Hex(MAGIC + Pack(Fields(h)))
  }

  /** Header.Write: the header, the name with its terminator, and padding. */
  function HeadBytes(h: Header): (s: seq<byte>)
    ensures |s| % 4 == 0
  {
    HeaderBytes(h) + h.name + Zeros(1 + Padding(6 + |h.name| + 1))
  }

  function EntryBytes(e: Entry): (s: seq<byte>)
    ensures |s| % 4 == 0
  {
    HeadBytes(HeaderOf(e)) + e.data + Zeros(Padding(|e.data|))
  }

  function ArchiveBytes(entries: seq<Entry>): seq<byte> {
    if entries == [] then [] else ArchiveBytes(entries[..|entries| - 1]) + EntryBytes(entries[|entries| - 1])
  }

  // ----- Reading -----

  function Undigit(b: byte): Option<nat> {
    if 48 <= b < 58 then Some(b - 48) else if 97 <= b < 103 then Some(b - 87) else None
  }

  function Unhex(h: seq<byte>): Option<seq<byte>> {
    if h == [] then Some([]) else
    if |h| < 2 || Undigit(h[0]).None? || Undigit(h[1]).None? then None else
    match Unhex(h[2..])
    case None => None
    case Some(rest) => Some([Undigit(h[0]).value * 16 + Undigit(h[1]).value] + rest)
  }

  function Field(raw: seq<byte>, i: nat): nat
    requires |raw| == 3 + 4 * FIELDS && i < FIELDS
  {
    FromBigEndian(raw[3 + 4 * i..7 + 4 * i])
  }

  datatype Parsed = Parsed(entry: Entry, rest: seq<byte>)

  /** Reads one entry: the header, a name of the announced size, the data, each padded to four bytes. */
  function ReadEntry(s: seq<byte>): Option<Parsed> {
    if |s| < HEX_LENGTH then None else
    match Unhex(s[..HEX_LENGTH])
    case None => None
    case Some(raw) =>
      if |raw| != 3 + 4 * FIELDS || raw[..3] != MAGIC then None else
      var size, names := Field(raw, 6), Field(raw, 11);
      var start := HEX_LENGTH + names + Padding(HEX_LENGTH + names);
      var end := start + size + Padding(size);
      if names == 0 || |s| < end then None else
      Some(Parsed(Entry(Field(raw, 0), Field(raw, 1), s[HEX_LENGTH..HEX_LENGTH + names - 1], s[start..start + size]), s[end..]))
  }

  /** The entries of an archive up to the trailer. */
  function ReadArchive(s: seq<byte>): Option<seq<Entry>>
    decreases |s|
  {
    match ReadEntry(s)
    case None => None
    case Some(p) =>
      if |p.rest| >= |s| then None
      else if p.entry.name == TRAILER then Some([])
      else match ReadArchive(p.rest) { case None => None case Some(es) => Some([p.entry] + es) }
  }

  // ----- Round trip -----

  lemma {:induction false} UnhexHex(s: seq<byte>)
    ensures Unhex(Hex(s)) == Some(s)
  {
    if s != [] {
      UnhexHex(s[1..]);
      DigitBack(s[0] / 16);
      DigitBack(s[0] % 16);
      hide Digit, Undigit;
      assert Hex(s)[2..] == Hex(s[1..]);
      assert s == [s[0]] + s[1..];
    }
  }

  lemma DigitBack(n: nat)
    requires n < 16
    ensures Undigit(Digit(n)) == Some(n)
  {
  }

  lemma {:induction false} PackedField(fields: seq<nat>, i: nat)
    requires i < |fields| && fields[i] < 0x1_0000_0000
    ensures FromBigEndian(Pack(fields)[4 * i..4 * i + 4]) == fields[i]
    decreases i
  {
    hide BigEndian, FromBigEndian;
    if i == 0 {
      FourBytes(fields[0]);
      assert Pack(fields)[0..4] == BigEndian(fields[0], 4);
    } else {
      PackedField(fields[1..], i - 1);
      assert Pack(fields)[4..] == Pack(fields[1..]);
      assert Pack(fields)[4 * i..4 * i + 4] == Pack(fields[1..])[4 * (i - 1)..4 * (i - 1) + 4];
    }
  }

  lemma FourBytes(n: nat)
    requires n < 0x1_0000_0000
    ensures FromBigEndian(BigEndian(n, 4)) == n
  {
    assert Pow256(4) == 256 * (256 * (256 * (256 * Pow256(0))));
    BigEndianRoundTrip(n, 4);
  }

  lemma FieldBack(e: Entry, i: nat)
    requires Representable(e) && i < FIELDS
    ensures Field(MAGIC + Pack(Fields(HeaderOf(e))), i) == Fields(HeaderOf(e))[i]
  {
    hide FromBigEndian, Pack;
    PackedField(Fields(HeaderOf(e)), i);
    var raw := MAGIC + Pack(Fields(HeaderOf(e)));
    assert raw[3..] == Pack(Fields(HeaderOf(e)));
    assert raw[3 + 4 * i..7 + 4 * i] == Pack(Fields(HeaderOf(e)))[4 * i..4 * i + 4];
  }

  /** Slices of an entry that is followed by anything. */
  lemma EntrySlices(e: Entry, rest: seq<byte>)
    ensures
      var s := EntryBytes(e) + rest;
      var names := |e.name| + 1;
      var start := HEX_LENGTH + names + Padding(HEX_LENGTH + names);
      var end := start + |e.data| + Padding(|e.data|);
      && |s| == end + |rest| && s[..HEX_LENGTH] == HeaderBytes(HeaderOf(e))
      && s[HEX_LENGTH..HEX_LENGTH + names - 1] == e.name
      && s[start..start + |e.data|] == e.data && s[end..] == rest
  {
    PadShift(|e.name| + 1);
    hide HeaderBytes, Zeros, Padding;
    Slices(HeaderBytes(HeaderOf(e)), e.name, Zeros(1 + Padding(6 + |e.name| + 1)), e.data, Zeros(Padding(|e.data|)), rest);
  }

  /** The header is two bytes off a multiple of four, and so is the six-byte magic. */
  lemma PadShift(n: nat)
    ensures Padding(HEX_LENGTH + n) == Padding(6 + n)
  {
  }

  lemma Slices(h: seq<byte>, n: seq<byte>, y: seq<byte>, d: seq<byte>, z: seq<byte>, rest: seq<byte>)
    ensures
      var s := h + n + y + d + z + rest;
      && s[..|h|] == h && s[|h|..|h| + |n|] == n
      && s[|h| + |n| + |y|..|h| + |n| + |y| + |d|] == d
      && s[|h| + |n| + |y| + |d| + |z|..] == rest
  {
    var s := h + n + y + d + z + rest;
    assert s == h + n + (y + d + z + rest);
    Slice3(h, n, y + d + z + rest);
    assert s == (h + n + y) + d + (z + rest);
    Slice3(h + n + y, d, z + rest);
  }

  lemma Slice3(a: seq<byte>, b: seq<byte>, c: seq<byte>)
    ensures (a + b + c)[..|a|] == a && (a + b + c)[|a|..|a| + |b|] == b
  {
  }

  /** The reader gets back the entry that was written, whatever follows it. */
  lemma ReadBack(e: Entry, rest: seq<byte>)
    requires Representable(e)
    ensures ReadEntry(EntryBytes(e) + rest) == Some(Parsed(e, rest))
  {
    EntrySlices(e, rest);
    var raw := HeaderReadsBack(e);
    hide EntryBytes, Padding, Unhex, Field, HeaderBytes;
  }

  lemma HeaderReadsBack(e: Entry) returns (raw: seq<byte>)
    requires Representable(e)
    ensures Unhex(HeaderBytes(HeaderOf(e))) == Some(raw) && |raw| == 3 + 4 * FIELDS && raw[..3] == MAGIC
    ensures Field(raw, 0) == e.inode && Field(raw, 1) == e.mode
    ensures Field(raw, 6) == |e.data| && Field(raw, 11) == |e.name| + 1
  {
    raw := MAGIC + Pack(Fields(HeaderOf(e)));
    UnhexHex(raw);
    FieldBack(e, 0);
    FieldBack(e, 1);
    FieldBack(e, 6);
    FieldBack(e, 11);
    hide Hex, Unhex, Pack, Field;
  }

  predicate NoTrailer(entries: seq<Entry>) {
    forall k :: 0 <= k < |entries| ==> entries[k].name != TRAILER
  }

  predicate AllRepresentable(entries: seq<Entry>) {
    forall k :: 0 <= k < |entries| ==> Representable(entries[k])
  }

  lemma {:induction false} ArchiveSplit(e: Entry, entries: seq<Entry>)
    ensures ArchiveBytes([e] + entries) == EntryBytes(e) + ArchiveBytes(entries)
    decreases |entries|
  {
    hide EntryBytes;
    if entries == [] {
      assert ArchiveBytes([e]) == ArchiveBytes([]) + EntryBytes(e);
    } else {
      var n := |entries| - 1;
      ArchiveSplit(e, entries[..n]);
      assert ([e] + entries)[..n + 1] == [e] + entries[..n];
    }
  }

  /**
   A closed archive reads back as exactly the entries written, in order, if and only if none of
   them has the name that marks the end.
   */
  lemma {:induction false} ArchiveRoundTrip(entries: seq<Entry>, trailer: Entry)
    requires AllRepresentable(entries) && Representable(trailer) && trailer.name == TRAILER
    ensures
      var r := ReadArchive(ArchiveBytes(entries + [trailer]));
      && r.Some? && r.value <= entries
      && (r.value == entries <==> NoTrailer(entries))
    decreases |entries|
  {
    hide EntryBytes, ReadEntry, Representable, ArchiveBytes;
    var all := entries + [trailer];
    var e := all[0];
    var later := all[1..];
    assert all == [e] + later;
    ArchiveSplit(e, later);
    ReadBack(e, ArchiveBytes(later));
    EntryNotEmpty(e);
    if entries != [] && e.name != TRAILER {
      assert later == entries[1..] + [trailer];
      ArchiveRoundTrip(entries[1..], trailer);
      assert entries == [e] + entries[1..];
    }
  }

  lemma EntryNotEmpty(e: Entry)
    ensures |EntryBytes(e)| >= HEX_LENGTH
  {
    hide HeaderBytes, Zeros;
  }

  /** Every header starts on a four-byte boundary, and so does the data behind it. */
  lemma {:induction false} Aligned(entries: seq<Entry>, k: nat)
    requires k <= |entries|
    ensures |ArchiveBytes(entries[..k])| % 4 == 0
    ensures k < |entries| ==> |ArchiveBytes(entries[..k]) + HeadBytes(HeaderOf(entries[k]))| % 4 == 0
    decreases k
  {
    hide HeadBytes, EntryBytes;
    if k > 0 {
      Aligned(entries, k - 1);
      assert entries[..k][..k - 1] == entries[..k - 1];
      SumOfFours(|ArchiveBytes(entries[..k - 1])|, |EntryBytes(entries[k - 1])|);
    }
    if k < |entries| {
      SumOfFours(|ArchiveBytes(entries[..k])|, |HeadBytes(HeaderOf(entries[k]))|);
    }
  }

  lemma SumOfFours(a: nat, b: nat)
    requires a % 4 == 0 && b % 4 == 0
    ensures (a + b) % 4 == 0
  {
  }
}
