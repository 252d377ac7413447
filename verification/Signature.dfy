/** secrets/value/value.go: what the signature of a secret value binds. */
module Signature {
  import opened Bytes
  import opened ValueFile

  /** Text whose characters are single bytes. */
  predicate ByteText(s: string) {
    forall i :: 0 <= i < |s| ==> s[i] as int < 256
  }

  /** Lines that can be told apart in the signed text. */
  predicate Separable(lines: seq<string>) {
    forall i :: 0 <= i < |lines| ==> OneLine(lines[i]) && ByteText(lines[i])
  }

  // ----- Decimal numbers -----

  function Digits(s: string): int {
    if s == "" then 0 else 10 * Digits(s[..|s| - 1]) + (s[|s| - 1] as int - 48)
  }

  function Number(s: string): int {
    if s != "" && s[0] == '-' then -Digits(s[1..]) else Digits(s)
  }

  lemma {:induction false} DigitsBack(n: nat)
    ensures Digits(Decimal(n)) == n
    ensures Decimal(n) != "" && forall i :: 0 <= i < |Decimal(n)| ==> '0' <= Decimal(n)[i] <= '9'
  {
    if n >= 10 {
      DigitsBack(n / 10);
      var s := Decimal(n);
      assert s[..|s| - 1] == Decimal(n / 10);
    }
  }

  lemma NumberBack(n: int)
    ensures Number(Decimal(n)) == n && OneLine(Decimal(n)) && ByteText(Decimal(n))
  {
    if n >= 0 {
      DigitsBack(n);
    } else {
      DigitsBack(-n);
      assert Decimal(n)[1..] == Decimal(-n);
    }
  }

  // ----- Lines of bytes -----

  lemma OctetsConcat(a: string, b: string)
    ensures Octets(a + b) == Octets(a) + Octets(b)
  {
  }

  lemma OctetsInjective(a: string, b: string)
    requires ByteText(a) && ByteText(b) && Octets(a) == Octets(b)
    ensures a == b
  {
    assert |a| == |Octets(a)| == |b|;
    forall i | 0 <= i < |a|
      ensures a[i] == b[i]
    {
      assert Octets(a)[i] == Octets(b)[i];
    }
  }

  /** A single line has no line feed before its end. */
  lemma FirstFeed(a: string, x: seq<byte>)
    requires OneLine(a) && ByteText(a)
    ensures
      var s := Octets(a) + [10] + x;
      && (forall k :: 0 <= k < |a| ==> s[k] != 10) && s[|a|] == 10
      && s[..|a|] == Octets(a) && s[|a| + 1..] == x
  {
    var s := Octets(a) + [10] + x;
    forall k | 0 <= k < |a|
      ensures s[k] != 10
    {
      assert s[k] == Octets(a)[k] == a[k] as int && a[k] in a;
    }
  }

  /** The first line of a text ends at its first line feed. */
  lemma FirstLine(a: string, b: string, x: seq<byte>, y: seq<byte>)
    requires OneLine(a) && ByteText(a) && OneLine(b) && ByteText(b)
    requires Octets(a) + [10] + x == Octets(b) + [10] + y
    ensures a == b && x == y
  {
    FirstFeed(a, x);
    FirstFeed(b, y);
    hide OneLine, ByteText, Octets;
    assert |a| == |b|;
    OctetsInjective(a, b);
  }

  lemma UnlinesOctets(lines: seq<string>, x: seq<byte>)
    requires lines != []
    ensures Octets(Unlines(lines)) + x == Octets(lines[0]) + [10] + (Octets(Unlines(lines[1..])) + x)
  {
    var rest := Unlines(lines[1..]);
    assert Unlines(lines) == lines[0] + "\n" + rest;
    OctetsConcat(lines[0] + "\n", rest);
    OctetsConcat(lines[0], "\n");
    assert Octets("\n") == [10];
    hide Octets, Unlines;
    Associative(Octets(lines[0]) + [10], Octets(rest), x);
  }

  lemma Associative(a: seq<byte>, b: seq<byte>, c: seq<byte>)
    ensures a + b + c == a + (b + c)
  {
  }

  lemma {:induction false} LinesUnique(a: seq<string>, b: seq<string>, x: seq<byte>, y: seq<byte>)
    requires |a| == |b| && Separable(a) && Separable(b)
    requires Octets(Unlines(a)) + x == Octets(Unlines(b)) + y
    ensures a == b && x == y
    decreases |a|
  {
    if a == [] {
      assert Octets(Unlines(a)) == [] && Octets(Unlines(b)) == [];
      assert [] + x == x && [] + y == y;
    } else {
      hide Octets, Unlines, OneLine, ByteText;
      UnlinesOctets(a, x);
      UnlinesOctets(b, y);
      FirstLine(a[0], b[0], Octets(Unlines(a[1..])) + x, Octets(Unlines(b[1..])) + y);
      LinesUnique(a[1..], b[1..], x, y);
      assert a == [a[0]] + a[1..] && b == [b[0]] + b[1..];
    }
  }

  // ----- The signed bytes -----

  function SignedLines(v: Content): seq<string> {
    [SIGNATURE_HEADER, Decimal(v.created.sec), Decimal(v.expires.sec)] + v.path
  }

  lemma HeaderOneLine()
    ensures OneLine(SIGNATURE_HEADER)
  {
  }

  lemma HeaderBytes()
    ensures ByteText(SIGNATURE_HEADER)
  {
  }

  lemma AllSeparable(a: string, b: string, c: string, rest: seq<string>)
    requires OneLine(a) && ByteText(a) && OneLine(b) && ByteText(b) && OneLine(c) && ByteText(c) && Separable(rest)
    ensures Separable([a, b, c] + rest)
  {
    hide OneLine, ByteText;
  }

  lemma SignedSeparable(v: Content)
    requires Separable(v.path)
    ensures Separable(SignedLines(v))
  {
    hide Decimal, OneLine, ByteText, Separable;
    NumberBack(v.created.sec);
    NumberBack(v.expires.sec);
    HeaderOneLine();
    HeaderBytes();
    AllSeparable(SIGNATURE_HEADER, Decimal(v.created.sec), Decimal(v.expires.sec), v.path);
  }

  lemma SameBinds(v: Content, w: Content, n: seq<byte>, m: seq<byte>)
    requires |n| == |m| && |v.path| == |w.path| && Separable(v.path) && Separable(w.path)
    ensures BytesToSign(v, n) == BytesToSign(w, m) <==>
            n == m && v.path == w.path && v.blob == w.blob
            && v.created.sec == w.created.sec && v.expires.sec == w.expires.sec
  {
    if BytesToSign(v, n) == BytesToSign(w, m) {
      SignedSeparable(v);
      SignedSeparable(w);
      var a, b := Octets(Unlines(SignedLines(v))) + v.blob, Octets(Unlines(SignedLines(w))) + w.blob;
      assert BytesToSign(v, n) == n + a && BytesToSign(w, m) == m + b;
      assert n == (n + a)[..|n|] && m == (m + b)[..|m|];
      assert a == (n + a)[|n|..] && b == (m + b)[|m|..];
      hide Unlines, Octets;
      LinesUnique(SignedLines(v), SignedLines(w), v.blob, w.blob);
      SameFields(v, w);
    }
  }

  /** The value with its paths from the k-th on moved to the front of the blob. */
  function Moved(v: Content, k: nat): Content
    requires k <= |v.path|
  {
    v.(path := v.path[..k], blob := Octets(Unlines(v.path[k..])) + v.blob)
  }

  /** Moving paths there leaves the signed bytes as they are. */
  lemma PathsOrBlob(v: Content, k: nat, n: seq<byte>)
    requires k <= |v.path|
    ensures BytesToSign(Moved(v, k), n) == BytesToSign(v, n)
  {
    var front, rest := SignedLines(v.(path := v.path[..k])), v.path[k..];
    assert SignedLines(v) == front + rest by {
      assert v.path[..k] + v.path[k..] == v.path;
    }
    UnlinesConcat(front, rest);
    OctetsConcat(Unlines(front), Unlines(rest));
    hide Unlines, Octets;
    assert n + (Octets(Unlines(front)) + Octets(Unlines(rest))) + v.blob ==
           n + Octets(Unlines(front)) + (Octets(Unlines(rest)) + v.blob);
  }

  /**
   Two values have the same signed bytes if and only if they have the same nonce and whole seconds,
   and one is the other with its last paths moved to the front of the blob. For equally many paths
   that means the same paths and blob: the signature binds everything but their number.
   */
  lemma SignatureBinds(v: Content, w: Content, n: seq<byte>, m: seq<byte>)
    requires |n| == |m| && |v.path| <= |w.path| && Separable(v.path) && Separable(w.path)
    ensures BytesToSign(v, n) == BytesToSign(w, m) <==>
            n == m && v.path == Moved(w, |v.path|).path && v.blob == Moved(w, |v.path|).blob
            && v.created.sec == w.created.sec && v.expires.sec == w.expires.sec
  {
    PathsOrBlob(w, |v.path|, m);
    hide BytesToSign, Octets, Unlines;
    SameBinds(v, Moved(w, |v.path|), n, m);
  }

  lemma SameFields(v: Content, w: Content)
    requires SignedLines(v) == SignedLines(w)
    ensures v.path == w.path && v.created.sec == w.created.sec && v.expires.sec == w.expires.sec
  {
    NumberBack(v.created.sec);
    NumberBack(v.expires.sec);
    NumberBack(w.created.sec);
    NumberBack(w.expires.sec);
    hide Decimal;
    assert SignedLines(v)[1] == SignedLines(w)[1] && SignedLines(v)[2] == SignedLines(w)[2];
    assert v.path == SignedLines(v)[3..] && w.path == SignedLines(w)[3..];
  }

  /** What the signed text says, read line by line: a header, the two times in seconds, the paths. */
  lemma SignedText(v: Content, nonce: seq<byte>) returns (text: string)
    requires Separable(v.path)
    ensures BytesToSign(v, nonce) == nonce + Octets(text) + v.blob
    ensures |Lines(text)| == |v.path| + 3 && Lines(text)[0] == "pond/secrets: Encrypted secret value"
    ensures Number(Lines(text)[1]) == v.created.sec && Number(Lines(text)[2]) == v.expires.sec
    ensures Lines(text)[3..] == v.path
  {
    text := Unlines(SignedLines(v));
    SignedSeparable(v);
    NumberBack(v.created.sec);
    NumberBack(v.expires.sec);
    assert Lines(text) == SignedLines(v) by {
      hide OneLine, Lines, Unlines, Decimal;
      LinesOfUnlines(SignedLines(v));
    }
    hide Lines, Unlines, Decimal, Octets, Number;
  }
}
