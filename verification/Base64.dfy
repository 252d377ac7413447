/** Standard base64 with padding (section 4 of RFC 4648), as encoding/base64 implements it. */
module Base64 {
  import opened Bytes

  function Letter(n: nat): (c: char)
    requires n < 64
    ensures IsLetter(c)
  {
    if n < 26 then (65 + n) as char
    else if n < 52 then (71 + n) as char
    else if n < 62 then (n - 4) as char
    else if n == 62 then '+'
    else '/'
  }

  predicate IsLetter(c: char) {
    'A' <= c <= 'Z' || 'a' <= c <= 'z' || '0' <= c <= '9' || c == '+' || c == '/'
  }

  /** Value of a letter of the alphabet. */
  function Sextet(c: char): (n: nat)
    requires IsLetter(c)
    ensures n < 64 && Letter(n) == c
  {
    if 'A' <= c <= 'Z' then c as int - 65
    else if 'a' <= c <= 'z' then c as int - 71
    else if '0' <= c <= '9' then c as int + 4
    else if c == '+' then 62
    else 63
  }

  lemma SextetOfLetter(n: nat)
    requires n < 64
    ensures Sextet(Letter(n)) == n
  {
  }

  function Encode(data: seq<byte>): (text: string)
    ensures |text| % 4 == 0
    ensures data != [] ==> text != ""
    decreases |data|
  {
    if |data| == 0 then ""
    else if |data| == 1 then
      Quantum(data[0], 0, 0)[..2] + "=="
    else if |data| == 2 then
      Quantum(data[0], data[1], 0)[..3] + "="
    else
      Quantum(data[0], data[1], data[2]) + Encode(data[3..])
  }

  /** Three bytes as four letters. */
  function Quantum(x: byte, y: byte, z: byte): (q: string)
    ensures |q| == 4 && forall i :: 0 <= i < 4 ==> IsLetter(q[i])
  {
    [Letter(x / 4), Letter(x % 4 * 16 + y / 16), Letter(y % 16 * 4 + z / 64), Letter(z % 64)]
  }

  /** Decodes text without line breaks; padding is accepted in the last quantum only. */
  function DecodeQuanta(text: string): Option<seq<byte>>
    decreases |text|
  {
    if text == "" then Some([])
    else if |text| < 4 || !IsLetter(text[0]) || !IsLetter(text[1]) then None
    else
      var a, b := Sextet(text[0]), Sextet(text[1]);
      if |text| == 4 && text[2] == '=' && text[3] == '=' then Some([a * 4 + b / 16])
      else if !IsLetter(text[2]) then None
      else
        var c := Sextet(text[2]);
        if |text| == 4 && text[3] == '=' then Some([a * 4 + b / 16, b % 16 * 16 + c / 4])
        else if !IsLetter(text[3]) then None
        else
          match DecodeQuanta(text[4..])
          case None => None
          case Some(rest) => Some(Group(a, b, c, Sextet(text[3])) + rest)
  }

  /** Four sextets as three bytes. */
  function Group(a: nat, b: nat, c: nat, d: nat): seq<byte>
    requires a < 64 && b < 64 && c < 64 && d < 64
  {
    [a * 4 + b / 16, b % 16 * 16 + c / 4, c % 4 * 64 + d]
  }

  /** The decoder skips line breaks wherever they occur. */
  function WithoutBreaks(text: string): string {
    if text == "" then ""
    else if text[0] == '\n' || text[0] == '\r' then WithoutBreaks(text[1..])
    else [text[0]] + WithoutBreaks(text[1..])
  }

  function Decode(text: string): Option<seq<byte>> {
    DecodeQuanta(WithoutBreaks(text))
  }

  /** The characters Encode can produce. */
  predicate Armored(text: string) {
    forall i :: 0 <= i < |text| ==> IsLetter(text[i]) || text[i] == '='
  }

  /** Encoded text has no characters that the line format gives a meaning to. */
  lemma ArmoredPlain(text: string)
    requires Armored(text)
    ensures forall i :: 0 <= i < |text| ==>
              text[i] != ' ' && text[i] != '\t' && text[i] != '\n' && text[i] != '\r'
              && text[i] != '#' && text[i] != '-'
  {
  }

  lemma ArmoredSplit(front: string, rest: string)
    requires Armored(front + rest)
    ensures Armored(front) && Armored(rest)
  {
    var text := front + rest;
    assert forall i :: 0 <= i < |front| ==> text[i] == front[i];
    assert forall i :: 0 <= i < |rest| ==> text[|front| + i] == rest[i];
  }

  lemma {:induction false} EncodeArmored(data: seq<byte>)
    ensures Armored(Encode(data))
    decreases |data|
  {
    if |data| >= 3 {
      EncodeArmored(data[3..]);
    }
  }

  lemma {:induction false} ArmoredHasNoBreaks(text: string)
    requires Armored(text)
    ensures WithoutBreaks(text) == text
  {
    if text != "" {
      ArmoredHasNoBreaks(text[1..]);
    }
  }

  lemma Regroup(x: byte, y: byte, z: byte)
    ensures
      var a, b, c, d := x / 4, x % 4 * 16 + y / 16, y % 16 * 4 + z / 64, z % 64;
      Group(a, b, c, d) == [x, y, z]
  {
  }

  lemma QuantumDecodes(x: byte, y: byte, z: byte, rest: string)
    requires DecodeQuanta(rest).Some?
    ensures DecodeQuanta(Quantum(x, y, z) + rest) == Some([x, y, z] + DecodeQuanta(rest).value)
  {
    hide Letter, Sextet, Group, DecodeQuanta, IsLetter;
    var a, b, c, d := x / 4, x % 4 * 16 + y / 16, y % 16 * 4 + z / 64, z % 64;
    SextetOfLetter(a);
    SextetOfLetter(b);
    SextetOfLetter(c);
    SextetOfLetter(d);
    Regroup(x, y, z);
    LettersDecode(Letter(a), Letter(b), Letter(c), Letter(d), rest);
    assert Quantum(x, y, z) == [Letter(a), Letter(b), Letter(c), Letter(d)];
  }

  lemma LettersDecode(p: char, q: char, r: char, t: char, rest: string)
    requires IsLetter(p) && IsLetter(q) && IsLetter(r) && IsLetter(t)
    requires DecodeQuanta(rest).Some?
    ensures
      var a, b, c, d := Sextet(p), Sextet(q), Sextet(r), Sextet(t);
      DecodeQuanta([p, q, r, t] + rest) == Some(Group(a, b, c, d) + DecodeQuanta(rest).value)
  {
    hide Sextet, Group;
    assert r != '=' && t != '=';
    var text := [p, q, r, t] + rest;
    assert text[..4] == [p, q, r, t] && text[4..] == rest;
    assert text[0] == p && text[1] == q && text[2] == r && text[3] == t;
  }

  lemma OneByteDecodes(x: byte)
    ensures DecodeQuanta(Quantum(x, 0, 0)[..2] + "==") == Some([x])
  {
    hide Letter, Sextet;
    SextetOfLetter(x / 4);
    SextetOfLetter(x % 4 * 16);
  }

  lemma TwoBytesDecode(x: byte, y: byte)
    ensures DecodeQuanta(Quantum(x, y, 0)[..3] + "=") == Some([x, y])
  {
    hide Letter, Sextet, DecodeQuanta, IsLetter;
    var a, b, c := x / 4, x % 4 * 16 + y / 16, y % 16 * 4;
    SextetOfLetter(a);
    SextetOfLetter(b);
    SextetOfLetter(c);
    ThreeLettersDecode(Letter(a), Letter(b), Letter(c));
    assert Quantum(x, y, 0)[..3] + "=" == [Letter(a), Letter(b), Letter(c), '='];
  }

  lemma ThreeLettersDecode(p: char, q: char, r: char)
    requires IsLetter(p) && IsLetter(q) && IsLetter(r)
    ensures
      var a, b, c := Sextet(p), Sextet(q), Sextet(r);
      DecodeQuanta([p, q, r, '=']) == Some([a * 4 + b / 16, b % 16 * 16 + c / 4])
  {
    hide Sextet;
    assert r != '=';
  }

  lemma {:induction false} DecodeQuantaOfEncode(data: seq<byte>)
    ensures DecodeQuanta(Encode(data)) == Some(data)
    decreases |data|
  {
    hide Letter, Quantum;
    if |data| == 1 {
      OneByteDecodes(data[0]);
      assert data == [data[0]];
    } else if |data| == 2 {
      TwoBytesDecode(data[0], data[1]);
      assert data == [data[0], data[1]];
    } else if |data| >= 3 {
      DecodeQuantaOfEncode(data[3..]);
      QuantumDecodes(data[0], data[1], data[2], Encode(data[3..]));
      assert data == [data[0], data[1], data[2]] + data[3..];
    }
  }

  lemma DecodeOfEncode(data: seq<byte>)
    ensures Decode(Encode(data)) == Some(data)
  {
    EncodeArmored(data);
    ArmoredHasNoBreaks(Encode(data));
    DecodeQuantaOfEncode(data);
  }

  lemma ExampleQuanta()
    ensures Quantum(0x66, 0x6F, 0x6F) == "Zm9v" && Quantum(0x62, 0x61, 0x72) == "YmFy"
    ensures Quantum(0x62, 0, 0)[..2] == "Yg" && Quantum(0x62, 0x61, 0)[..3] == "YmE"
  {
  }

  /** The longer examples of section 10 of RFC 4648. */
  lemma Examples()
    ensures Encode([0x66, 0x6F, 0x6F, 0x62, 0x61, 0x72]) == "Zm9vYmFy"
    ensures Encode([0x66, 0x6F, 0x6F, 0x62]) == "Zm9vYg=="
    ensures Encode([0x66, 0x6F, 0x6F, 0x62, 0x61]) == "Zm9vYmE="
  {
    ExampleQuanta();
    hide Quantum;
    assert [0x66, 0x6F, 0x6F, 0x62, 0x61, 0x72][3..] == [0x62, 0x61, 0x72];
    assert [0x66, 0x6F, 0x6F, 0x62][3..] == [0x62];
    assert [0x66, 0x6F, 0x6F, 0x62, 0x61][3..] == [0x62, 0x61];
    assert [0x62, 0x61, 0x72][3..] == [];
  }
}
