/**
 The fragment of Go's unicode/utf8 and bytes packages that bytepack builds on: encoding of one
 code point, decoding of one code point from arbitrary bytes, and bytes.Runes.
 The encoding is the one of section 3 of RFC 3629.
 */
module Utf8 {
  import opened Bytes

  const RUNE_ERROR := 0xFFFD
  const MAX_RUNE := 0x10FFFF
  const UTF_MAX := 4

  /** Code points that have an encoding of their own: not above the maximum, not a surrogate. */
  predicate ValidRune(r: int) {
    0 <= r < 0xD800 || 0xE000 <= r <= MAX_RUNE
  }

  /** utf8.EncodeRune; everything without an encoding of its own is written as U+FFFD. */
  function EncodeRune(r: int): (s: seq<byte>)
    ensures 1 <= |s| <= UTF_MAX
  {
    if !ValidRune(r) then [0xEF, 0xBF, 0xBD]
    else if r < 0x80 then [r]
    else if r < 0x800 then [0xC0 + r / 64, 0x80 + r % 64]
    else if r < 0x10000 then [0xE0 + r / 4096, 0x80 + r / 64 % 64, 0x80 + r % 64]
    else [0xF0 + r / 262144, 0x80 + r / 4096 % 64, 0x80 + r / 64 % 64, 0x80 + r % 64]
  }

  predicate Tail(b: byte) {
    0x80 <= b < 0xC0
  }

  /** Payload of a byte whose marker bits are `mark`. */
  function Bits(b: byte, mark: int): int {
    b - mark
  }

  /** What one call of utf8.DecodeRune reports: a code point and the number of bytes it took. */
  datatype Decoded = Decoded(rune: nat, width: nat)

  /** utf8.DecodeRune on a non-empty string; malformed input yields U+FFFD of width one. */
  function DecodeRune(s: seq<byte>): (d: Decoded)
    requires s != []
    ensures 1 <= d.width <= |s|
  {
    var b := s[0];
    if b < 0x80 then Decoded(b, 1)
    else if 0xC2 <= b < 0xE0 && |s| >= 2 && Tail(s[1]) then
      Decoded(Bits(b, 0xC0) * 64 + Bits(s[1], 0x80), 2)
    else if 0xE0 <= b < 0xF0 && |s| >= 3 && Tail(s[1]) && Tail(s[2])
            && (b == 0xE0 ==> s[1] >= 0xA0) && (b == 0xED ==> s[1] < 0xA0) then
      Decoded(Bits(b, 0xE0) * 4096 + Bits(s[1], 0x80) * 64 + Bits(s[2], 0x80), 3)
    else if 0xF0 <= b < 0xF5 && |s| >= 4 && Tail(s[1]) && Tail(s[2]) && Tail(s[3])
            && (b == 0xF0 ==> s[1] >= 0x90) && (b == 0xF4 ==> s[1] < 0x90) then
      Decoded(Bits(b, 0xF0) * 262144 + Bits(s[1], 0x80) * 4096 + Bits(s[2], 0x80) * 64 + Bits(s[3], 0x80), 4)
    else Decoded(RUNE_ERROR, 1)
  }

  /** bytes.Runes */
  function Runes(s: seq<byte>): (rs: seq<nat>)
    ensures s != [] ==> rs != [] && rs[0] == DecodeRune(s).rune
    ensures s == [] ==> rs == []
    decreases |s|
  {
    if s == [] then [] else
      var d := DecodeRune(s);
      [d.rune] + Runes(s[d.width..])
  }

  /** The code point a decoder gets back for r. */
  function Stored(r: int): (v: nat)
    ensures ValidRune(v)
    ensures v == r <==> ValidRune(r)
  {
    if ValidRune(r) then r else RUNE_ERROR
  }

  lemma StoredSameRune(r: int)
    ensures EncodeRune(Stored(r)) == EncodeRune(r)
  {
  }

  lemma Digits3(r: nat)
    requires 0x800 <= r < 0x10000
    ensures r / 4096 * 4096 + r / 64 % 64 * 64 + r % 64 == r
    ensures r / 4096 == 0 ==> r / 64 % 64 >= 32
    ensures r / 4096 == 13 ==> (r < 0xD800 <==> r / 64 % 64 < 32)
    ensures r / 4096 < 16
  {
    assert r / 4096 == r / 64 / 64;
  }

  lemma Digits4(r: nat)
    requires 0x10000 <= r <= MAX_RUNE
    ensures r / 262144 * 262144 + r / 4096 % 64 * 4096 + r / 64 % 64 * 64 + r % 64 == r
    ensures r / 262144 == 0 ==> r / 4096 % 64 >= 16
    ensures r / 262144 == 4 ==> r / 4096 % 64 < 16
    ensures r / 262144 <= 4
  {
    assert r / 4096 == r / 64 / 64;
    assert r / 262144 == r / 4096 / 64;
  }

  lemma DecodeEncode(r: int, rest: seq<byte>)
    ensures DecodeRune(EncodeRune(r) + rest) == Decoded(Stored(r), |EncodeRune(r)|)
  {
    var e := EncodeRune(r);
    var s := e + rest;
    if |e| == 1 {
      assert s[0] == e[0];
    } else if |e| == 2 {
      assert s[0] == e[0] && s[1] == e[1];
    } else if |e| == 3 {
      assert s[0] == e[0] && s[1] == e[1] && s[2] == e[2];
      Digits3(Stored(r));
    } else {
      assert s[0] == e[0] && s[1] == e[1] && s[2] == e[2] && s[3] == e[3];
      Digits4(r);
    }
  }

  /** Encodings of several code points, one after the other. */
  function EncodeAll(rs: seq<int>): seq<byte> {
    if rs == [] then [] else EncodeRune(rs[0]) + EncodeAll(rs[1..])
  }

  lemma {:induction false} EncodeAllSnoc(rs: seq<int>, r: int)
    ensures EncodeAll(rs + [r]) == EncodeAll(rs) + EncodeRune(r)
  {
    if rs == [] {
      assert EncodeAll([r]) == EncodeRune(r) + EncodeAll([]);
    } else {
      assert (rs + [r])[1..] == rs[1..] + [r];
      EncodeAllSnoc(rs[1..], r);
    }
  }

  function StoredAll(rs: seq<int>): (vs: seq<nat>)
    ensures |vs| == |rs|
  {
    seq(|rs|, i requires 0 <= i < |rs| => Stored(rs[i]))
  }

  /** Whatever bytes follow, bytes.Runes starts with the code points that were written. */
  lemma {:induction false} RunesStartWith(rs: seq<int>, rest: seq<byte>)
    ensures StoredAll(rs) <= Runes(EncodeAll(rs) + rest)
    decreases |rs|
  {
    hide EncodeRune, DecodeRune, Stored, Runes, StoredAll;
    if rs == [] {
      assert StoredAll(rs) == [];
    } else {
      var tail := EncodeAll(rs[1..]) + rest;
      assert EncodeAll(rs) + rest == EncodeRune(rs[0]) + tail;
      RunesStartWith(rs[1..], rest);
      FirstRune(rs[0], tail);
      StoredFirst(rs);
    }
  }

  lemma FirstRune(r: int, tail: seq<byte>)
    ensures Runes(EncodeRune(r) + tail) == [Stored(r)] + Runes(tail)
  {
    DecodeEncode(r, tail);
    hide EncodeRune, DecodeRune, Stored;
    assert (EncodeRune(r) + tail)[|EncodeRune(r)|..] == tail;
  }

  lemma StoredFirst(rs: seq<int>)
    requires rs != []
    ensures StoredAll(rs) == [Stored(rs[0])] + StoredAll(rs[1..])
  {
    hide Stored;
  }

  lemma {:induction false} EncodeAllLength(rs: seq<int>)
    ensures |EncodeAll(rs)| <= UTF_MAX * |rs|
  {
    if rs != [] {
      EncodeAllLength(rs[1..]);
    }
  }
}
