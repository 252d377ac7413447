/**
 secrets/value: the text file that holds one encrypted, signed secret value.
 Text is a string of single-byte characters. SSH keys, signatures and RFC 3339 timestamps are
 reached through the functions of a Suite.
 */
module ValueFile {
  import opened Bytes
  import opened Bytepack
  import Base64

  const FILE_HEADER := "[pond/secrets]"
  const SIGNATURE_HEADER := "pond/secrets: Encrypted secret value"
  const BLOB_DELIMITER := "---"
  const FIELD_COLUMN_WIDTH := 7
  const BLOB_LINE_WIDTH := 72
  const SIGNATURE_NONCE := 64
  const LONGEST_LINE := 65535 // bufio.Scanner holds a line and its terminator in 64 KiB

  // ----- Text -----

  predicate Blank(c: char) {
    c == ' ' || c == '\t'
  }

  /** strings.TrimLeft(s, " \t") */
  function TrimLeft(s: string): (t: string)
    ensures |t| <= |s|
    ensures t == s <==> s == "" || !Blank(s[0])
  {
    if s != "" && Blank(s[0]) then TrimLeft(s[1..]) else s
  }

  /** strings.TrimRight(s, "\n\r") */
  function TrimRight(s: string): (t: string)
    ensures t == "" || (t[|t| - 1] != '\n' && t[|t| - 1] != '\r')
    ensures |t| <= |s|
    ensures t == s <==> s == "" || (s[|s| - 1] != '\n' && s[|s| - 1] != '\r')
  {
    if s != "" && (s[|s| - 1] == '\n' || s[|s| - 1] == '\r') then TrimRight(s[..|s| - 1]) else s
  }

  /** Position of the first c at or after `from`, or the length of s. */
  function Find(s: string, c: char, from: nat := 0): (k: nat)
    requires from <= |s|
    ensures from <= k <= |s|
    ensures forall i :: from <= i < k ==> s[i] != c
    ensures k < |s| ==> s[k] == c
    decreases |s| - from
  {
    if from == |s| || s[from] == c then from else Find(s, c, from + 1)
  }

  /** The lines bufio.Scanner cuts text into, before it removes a trailing carriage return. */
  function Lines(text: string): seq<string>
    decreases |text|
  {
    if text == "" then []
    else
      var k := Find(text, '\n');
      if k == |text| then [text] else [text[..k]] + Lines(text[k + 1..])
  }

  function DropCR(line: string): string {
    if line != "" && line[|line| - 1] == '\r' then line[..|line| - 1] else line
  }

  function Unlines(lines: seq<string>): string {
    if lines == [] then "" else lines[0] + "\n" + Unlines(lines[1..])
  }

  predicate OneLine(s: string) {
    '\n' !in s
  }

  lemma {:induction false} LinesOfUnlines(lines: seq<string>)
    requires forall i :: 0 <= i < |lines| ==> OneLine(lines[i])
    ensures Lines(Unlines(lines)) == lines
  {
    if lines != [] {
      var text := Unlines(lines);
      var k := Find(text, '\n');
      assert text[|lines[0]|] == '\n';
      assert forall i :: 0 <= i < |lines[0]| ==> text[i] == lines[0][i];
      assert k == |lines[0]|;
      assert text[..k] == lines[0];
      assert text[k + 1..] == Unlines(lines[1..]);
      LinesOfUnlines(lines[1..]);
    }
  }

  lemma {:induction false} LinesAreSingle(text: string)
    ensures forall i :: 0 <= i < |Lines(text)| ==> OneLine(Lines(text)[i])
    decreases |text|
  {
    if text != "" {
      var k := Find(text, '\n');
      if k < |text| {
        LinesAreSingle(text[k + 1..]);
      }
    }
  }

  // ----- Values -----

  datatype PublicKey = PublicKey(material: seq<byte>)

  datatype Time = Time(sec: int, nano: nat)

  const ZERO_TIME := Time(-62135596800, 0)

  datatype Content = Content(
    path: seq<string>, created: Time, expires: Time,
    signer: Option<PublicKey>, signature: seq<byte>, blob: seq<byte>)

  /** A run of printable characters without blanks or line breaks, short enough for a line. */
  predicate Word(s: string) {
    0 < |s| <= 1000 && forall i :: 0 <= i < |s| ==> s[i] != ' ' && s[i] != '\t' && s[i] != '\n' && s[i] != '\r'
  }

  /** Seconds whose year has four digits, the range in which RFC 3339 timestamps exist. */
  predicate Dated(sec: int) {
    -62167219200 <= sec <= 253402300799
  }

  datatype Suite = Suite(
    fingerprint: PublicKey -> string,
    kind: PublicKey -> string,
    marshal: PublicKey -> seq<byte>,
    parse: seq<byte> -> Option<PublicKey>,
    check: (PublicKey, seq<byte>, seq<byte>) -> bool,
    format: int -> string,
    parseTime: string -> Option<int>)
  {
    ghost predicate Faithful() {
      && (forall k :: parse(marshal(k)) == Some(k))
      && (forall k :: Word(fingerprint(k)) && Word(kind(k)))
      && (forall t :: Word(format(t)) && parseTime(format(t)) == if Dated(t) then Some(t) else None)
    }
  }

  function Decimal(n: int): string
    decreases n < 0, if n < 0 then -n else n
  {
    if n < 0 then "-" + Decimal(-n)
    else if n < 10 then [(48 + n) as char]
    else Decimal(n / 10) + [(48 + n % 10) as char]
  }

  function Octets(s: string): seq<byte> {
    seq(|s|, i requires 0 <= i < |s| => s[i] as int % 256)
  }

  /** The bytes covered by the signature. */
  function BytesToSign(v: Content, nonce: seq<byte>): seq<byte> {
    nonce
    + Octets(Unlines([SIGNATURE_HEADER, Decimal(v.created.sec), Decimal(v.expires.sec)] + v.path))
    + v.blob
  }

  /** Verify slices such a signature out of its bounds. */
  predicate PanicsOnVerify(v: Content) {
    v.signer.Some? && 0 < |v.signature| < SIGNATURE_NONCE
  }

  predicate Verifies(s: Suite, v: Content) {
    && v.signer.Some?
    && |v.signature| >= SIGNATURE_NONCE
    && s.check(v.signer.value, BytesToSign(v, v.signature[..SIGNATURE_NONCE]), v.signature[SIGNATURE_NONCE..])
  }

  // ----- Writing -----

  function Spaces(n: nat): (p: string)
    ensures |p| == n && forall i :: 0 <= i < n ==> p[i] == ' '
  {
    seq(n, _ => ' ')
  }

  /** Blanks between a field name and its value: the name is padded to a column, then one more. */
  function Gap(key: string): (g: string)
    ensures |g| >= 1 && g == Spaces(|g|)
  {
    Spaces(if |key| < FIELD_COLUMN_WIDTH then FIELD_COLUMN_WIDTH + 1 - |key| else 1)
  }

  /** One record, without its line terminator. */
  function RecordLine(key: string, value: string): string {
    if value != "" then key + Gap(key) + TrimRight(value) else key
  }

  function PathLines(path: seq<string>): (lines: seq<string>)
    ensures |lines| == |path|
  {
    if path == [] then [] else [RecordLine("Path", path[0])] + PathLines(path[1..])
  }

  function MetaLines(s: Suite, v: Content): seq<string>
    requires v.signer.Some?
  {
    [RecordLine("Created", s.format(v.created.sec)),
     RecordLine("Expires", s.format(v.expires.sec)),
     RecordLine("Signer", SignerText(s, v.signer.value)),
     BLOB_DELIMITER]
  }

  function BlobLines(encoded: string): seq<string>
    decreases |encoded|
  {
    if encoded == "" then [] else
    var n := Min(BLOB_LINE_WIDTH, |encoded|);
    [encoded[..n]] + BlobLines(encoded[n..])
  }

  /** The base64 text is cut every 72 characters and nowhere else, and nothing of it is lost. */
  lemma {:induction false} BlobLinesCut(encoded: string, k: nat)
    requires k < |BlobLines(encoded)|
    ensures 72 * k < |encoded|
    ensures BlobLines(encoded)[k] == encoded[72 * k..if 72 * k + 72 <= |encoded| then 72 * k + 72 else |encoded|]
    ensures 72 * (|BlobLines(encoded)| - 1) < |encoded| <= 72 * |BlobLines(encoded)|
    decreases |encoded|
  {
    var n := Min(BLOB_LINE_WIDTH, |encoded|);
    var rest := encoded[n..];
    assert BlobLines(encoded) == [encoded[..n]] + BlobLines(rest);
    if BlobLines(rest) == [] {
      assert rest == "";
    } else {
      assert n == 72;
      BlobLinesCut(rest, if k > 0 then k - 1 else 0);
      hide BlobLines;
      if k > 0 {
        var end := if 72 * k + 72 <= |encoded| then 72 * k + 72 else |encoded|;
        assert rest[72 * (k - 1)..end - 72] == encoded[72 * k..end];
      }
    }
  }

  /** The lines of a value's file stand in aligned columns. */
  lemma RecordColumns(path: string, date: string, signer: string)
    requires path != "" && date != "" && signer != ""
    ensures RecordLine("Path", path) == "Path    " + TrimRight(path)
    ensures RecordLine("Created", date) == "Created " + TrimRight(date)
    ensures RecordLine("Expires", date) == "Expires " + TrimRight(date)
    ensures RecordLine("Signer", signer) == "Signer  " + TrimRight(signer)
  {
    hide TrimRight;
    assert Gap("Path") == "    " && Gap("Signer") == "  " && Gap("Created") == " " && Gap("Expires") == " ";
  }

  function Elements(s: Suite, v: Content): seq<seq<byte>>
    requires v.signer.Some?
  {
    [s.marshal(v.signer.value), v.signature, v.blob]
  }

  function FileLines(s: Suite, v: Content): seq<string>
    requires v.signer.Some?
  {
    [FILE_HEADER] + PathLines(v.path) + MetaLines(s, v)
    + BlobLines(BlobText(s, v))
  }

  lemma {:induction false} PathLineAt(path: seq<string>, i: nat)
    requires i < |path|
    ensures PathLines(path)[i] == RecordLine("Path", path[i])
  {
    if i > 0 {
      PathLineAt(path[1..], i - 1);
    }
  }

  /** A record with its name padded to a column of seven, or just the name. */
  function Columns(padded: string, bare: string, value: string): string {
    if value == "" then bare else padded + TrimRight(value)
  }

  lemma MetaLayout(s: Suite, v: Content)
    requires v.signer.Some?
    ensures MetaLines(s, v) == [
      Columns("Created ", "Created", s.format(v.created.sec)),
      Columns("Expires ", "Expires", s.format(v.expires.sec)),
      "Signer  " + TrimRight(s.fingerprint(v.signer.value) + (" (" + s.kind(v.signer.value) + ")")),
      "---"]
  {
    var created, expires := s.format(v.created.sec), s.format(v.expires.sec);
    RecordColumns("-", if created == "" then "-" else created, SignerText(s, v.signer.value));
    RecordColumns("-", if expires == "" then "-" else expires, "-");
    hide Gap, TrimRight;
  }

  lemma PathLayout(path: seq<string>, i: nat)
    requires i < |path|
    ensures PathLines(path)[i] == Columns("Path    ", "Path", path[i])
  {
    PathLineAt(path, i);
    if path[i] != "" {
      RecordColumns(path[i], "-", "-");
    }
    hide Gap, TrimRight, PathLines;
  }

  /** What the file of a value says, line by line: the header, its paths, its times, its signer, its blob. */
  lemma FileLayout(s: Suite, v: Content, i: nat)
    requires v.signer.Some?
    ensures
      var lines, n := FileLines(s, v), |v.path|;
      && |lines| == n + 5 + |BlobLines(BlobText(s, v))|
      && lines[0] == "[pond/secrets]"
      && (i < n ==> lines[1 + i] == Columns("Path    ", "Path", v.path[i]))
      && lines[n + 1] == Columns("Created ", "Created", s.format(v.created.sec))
      && lines[n + 2] == Columns("Expires ", "Expires", s.format(v.expires.sec))
      && lines[n + 3] ==
         "Signer  " + TrimRight(s.fingerprint(v.signer.value) + (" (" + s.kind(v.signer.value) + ")"))
      && lines[n + 4] == "---"
      && (i < |BlobLines(BlobText(s, v))| ==> lines[n + 5 + i] == BlobLines(BlobText(s, v))[i])
  {
    if i < |v.path| {
      PathLayout(v.path, i);
    }
    MetaLayout(s, v);
    FileParts(s, v);
    hide *;
    PartsAt("[pond/secrets]", PathLines(v.path), MetaLines(s, v), BlobLines(BlobText(s, v)), i);
  }

  lemma FileParts(s: Suite, v: Content)
    requires v.signer.Some?
    ensures FileLines(s, v) == ["[pond/secrets]"] + PathLines(v.path) + MetaLines(s, v) + BlobLines(BlobText(s, v))
  {
    hide PathLines, MetaLines, BlobLines, BlobText;
  }

  lemma PartsAt(first: string, paths: seq<string>, meta: seq<string>, blob: seq<string>, i: nat)
    requires |meta| == 4
    ensures
      var lines, n := [first] + paths + meta + blob, |paths|;
      && |lines| == n + 5 + |blob| && lines[0] == first
      && (i < n ==> lines[1 + i] == paths[i])
      && lines[n + 1] == meta[0] && lines[n + 2] == meta[1] && lines[n + 3] == meta[2] && lines[n + 4] == meta[3]
      && (i < |blob| ==> lines[n + 5 + i] == blob[i])
  {
  }

  function Serialized(s: Suite, v: Content): Result<string> {
    if !Verifies(s, v) then Err
    else if Packed(Elements(s, v)).Err? then Err
    else Ok(Unlines(FileLines(s, v)))
  }

  // ----- Reading -----

  datatype State = State(
    path: seq<string>, created: Time, expires: Time, fingerprint: string,
    blob: string, reading: bool)

  const START := State([], ZERO_TIME, ZERO_TIME, "", "", false)

  /** Effect of one field behind the file header. */
  function StepField(s: Suite, st: State, field: string, value: string): Result<State> {
    if field == "Path" then Ok(st.(path := st.path + [value]))
    else if field == "Created" then
      match s.parseTime(value) {
        case Some(t) => Ok(st.(created := Time(t, 0)))
        case None => Err
      }
    else if field == "Expires" then
      match s.parseTime(value) {
        case Some(t) => Ok(st.(expires := Time(t, 0)))
        case None => Err
      }
    else if field == "Signer" then Ok(st.(fingerprint := value[..Find(value, ' ')]))
    else Err
  }

  /** Effect of one line behind the file header. */
  function Step(s: Suite, st: State, raw: string): Result<State> {
    if |raw| > LONGEST_LINE then Err else
    var line := TrimLeft(DropCR(raw));
    var cut := Find(line, ' ');
    if line == "" || line[0] == '#' then Ok(st)
    else if line == BLOB_DELIMITER then Ok(st.(reading := !st.reading))
    else if st.reading then Ok(st.(blob := st.blob + line))
    else if cut == |line| then Err
    else StepField(s, st, line[..cut], TrimLeft(line[cut + 1..]))
  }

  function Run(s: Suite, st: State, lines: seq<string>): Result<State>
    decreases |lines|
  {
    if lines == [] then Ok(st) else
    match Step(s, st, lines[0])
    case Err => Err
    case Ok(next) => Run(s, next, lines[1..])
  }

  function Finish(s: Suite, st: State): Result<Content> {
    match Base64.Decode(st.blob)
    case None => Err
    case Some(data) =>
      match Wrapped(data)
      case Err => Err
      case Ok(pack) =>
        WrapTiles(data);
        if |pack.offset| != 3 then Err else
        match s.parse(pack.Element(0))
        case None => Err
        case Some(key) =>
          if st.fingerprint != s.fingerprint(key) then Err
          else Ok(Content(st.path, st.created, st.expires, Some(key), pack.Element(1), pack.Element(2)))
  }

  /** The value read from a file, before its signature is verified. */
  function Read(s: Suite, text: string): Result<Content> {
    var lines := Lines(text);
    if lines == [] || |lines[0]| > LONGEST_LINE || DropCR(lines[0]) != FILE_HEADER then Err else
    match Run(s, START, lines[1..])
    case Err => Err
    case Ok(st) => Finish(s, st)
  }

  function Deserialized(s: Suite, text: string): Result<Content> {
    match Read(s, text)
    case Err => Err
    case Ok(v) => if Verifies(s, v) then Ok(v) else Err
  }

  // ----- Reading back what was written -----

  lemma {:induction false} RunConcat(s: Suite, st: State, a: seq<string>, b: seq<string>)
    ensures
      Run(s, st, a + b) ==
      match Run(s, st, a) { case Err => Err case Ok(mid) => Run(s, mid, b) }
    decreases |a|
  {
    if a == [] {
      assert a + b == b;
    } else {
      assert (a + b)[1..] == a[1..] + b;
      match Step(s, st, a[0])
      case Err =>
      case Ok(next) => RunConcat(s, next, a[1..], b);
    }
  }

  /** The path a reader gets for a path that is a single line. */
  function Normal(p: string): string {
    TrimLeft(TrimRight(p))
  }

  /** A path record fits the scanner and is not empty. */
  predicate Readable(p: string) {
    p != "" && |RecordLine("Path", p)| <= LONGEST_LINE
  }

  lemma {:induction false} TrimSpaces(n: nat, t: string)
    ensures TrimLeft(Spaces(n) + t) == TrimLeft(t)
  {
    if n == 0 {
      assert Spaces(n) + t == t;
    } else {
      assert (Spaces(n) + t)[1..] == Spaces(n - 1) + t;
      TrimSpaces(n - 1, t);
    }
  }

  /** Field names, told apart from blank lines, comments and the blob delimiter. */
  predicate Key(key: string) {
    key != "" && key[0] != '#' && key[0] != '-' && forall i :: 0 <= i < |key| ==> !Blank(key[i]) && key[i] != '\r'
  }

  lemma RecordParses(s: Suite, st: State, key: string, value: string)
    requires Key(key) && value != "" && !st.reading
    ensures
      Step(s, st, RecordLine(key, value)) ==
      if |RecordLine(key, value)| > LONGEST_LINE then Err else StepField(s, st, key, Normal(value))
  {
    hide StepField, RecordLine, Normal, Key, DropCR, TrimLeft, Find;
    RecordReads(key, value);
    var line := RecordLine(key, value);
    assert line[0] != BLOB_DELIMITER[0];
  }

  lemma RecordReads(key: string, value: string)
    requires Key(key) && value != ""
    ensures
      var line := RecordLine(key, value);
      && DropCR(line) == line == TrimLeft(line)
      && Find(line, ' ') == |key| < |line|
      && line[..|key|] == key
      && TrimLeft(line[|key| + 1..]) == Normal(value)
      && line[0] != '#' && line[0] != '-'
  {
    hide TrimLeft, TrimRight, Find, DropCR;
    var line := RecordLine(key, value);
    RecordField(key, Gap(key), TrimRight(value));
  }

  lemma RecordField(key: string, gap: string, t: string)
    requires Key(key) && |gap| >= 1 && gap == Spaces(|gap|)
    requires t == "" || t[|t| - 1] != '\r'
    ensures
      var line := key + gap + t;
      && DropCR(line) == line == TrimLeft(line)
      && Find(line, ' ') == |key| < |line|
      && line[..|key|] == key
      && TrimLeft(line[|key| + 1..]) == TrimLeft(t)
      && line[0] != '#' && line[0] != '-'
  {
    hide TrimLeft, Find, DropCR, Spaces;
    var line := key + gap + t;
    assert line[0] == key[0];
    FieldEnds(key, gap + t);
    assert line == key + (gap + t);
    FieldKeepsCR(key + gap, t);
    FieldRest(key, gap, t);
  }

  lemma FieldEnds(key: string, rest: string)
    requires Key(key) && rest != "" && rest[0] == ' '
    ensures Find(key + rest, ' ') == |key| && (key + rest)[..|key|] == key
  {
    hide Find;
    var line := key + rest;
    assert line[|key|] == rest[0];
    assert forall i :: 0 <= i < |key| ==> line[i] == key[i];
  }

  lemma FieldKeepsCR(front: string, t: string)
    requires front != "" && front[|front| - 1] != '\r'
    requires t == "" || t[|t| - 1] != '\r'
    ensures DropCR(front + t) == front + t
  {
    var line := front + t;
    assert line[|line| - 1] == if t == "" then front[|front| - 1] else t[|t| - 1];
  }

  lemma FieldRest(key: string, gap: string, t: string)
    requires |gap| >= 1 && gap == Spaces(|gap|)
    ensures TrimLeft((key + gap + t)[|key| + 1..]) == TrimLeft(t)
  {
    hide TrimLeft;
    assert (key + gap + t)[|key| + 1..] == Spaces(|gap| - 1) + t;
    TrimSpaces(|gap| - 1, t);
  }

  lemma PathStep(s: Suite, st: State, p: string)
    requires !st.reading
    ensures
      Step(s, st, RecordLine("Path", p)) ==
      if Readable(p) then Ok(st.(path := st.path + [Normal(p)])) else Err
  {
    hide Normal;
    if p != "" {
      RecordParses(s, st, "Path", p);
    } else {
      assert Find("Path", ' ') == 4;
    }
  }

  function NormalAll(path: seq<string>): (n: seq<string>)
    ensures |n| == |path|
  {
    if path == [] then [] else [Normal(path[0])] + NormalAll(path[1..])
  }

  predicate ReadableAll(path: seq<string>) {
    path == [] || (Readable(path[0]) && ReadableAll(path[1..]))
  }

  lemma {:induction false} PathsRun(s: Suite, st: State, path: seq<string>)
    requires !st.reading
    ensures
      Run(s, st, PathLines(path)) ==
      if ReadableAll(path) then Ok(st.(path := st.path + NormalAll(path))) else Err
    decreases |path|
  {
    hide Step, RecordLine, Readable, Normal, Run;
    if path == [] {
      RunNil(s, st);
      assert st.path + NormalAll(path) == st.path;
    } else {
      PathStep(s, st, path[0]);
      RunCons(s, st, RecordLine("Path", path[0]), PathLines(path[1..]));
      if Readable(path[0]) {
        PathsRun(s, st.(path := st.path + [Normal(path[0])]), path[1..]);
        assert st.path + [Normal(path[0])] + NormalAll(path[1..]) == st.path + NormalAll(path);
      }
    }
  }

  lemma RunNil(s: Suite, st: State)
    ensures Run(s, st, []) == Ok(st)
  {
  }

  lemma RunCons(s: Suite, st: State, line: string, lines: seq<string>)
    ensures
      Run(s, st, [line] + lines) ==
      match Step(s, st, line) { case Err => Err case Ok(next) => Run(s, next, lines) }
  {
    hide Step;
    assert ([line] + lines)[1..] == lines;
  }

  lemma WordTrims(w: string, rest: string)
    requires Word(w) && (rest == "" || rest[|rest| - 1] == ')')
    ensures Normal(w + rest) == w + rest
  {
    hide TrimLeft, TrimRight;
    var t := w + rest;
    assert t[0] == w[0];
    assert t[|t| - 1] == if rest == "" then w[|w| - 1] else rest[|rest| - 1];
    Untrimmed(t);
  }

  lemma Untrimmed(t: string)
    requires t != "" && !Blank(t[0]) && t[|t| - 1] != '\n' && t[|t| - 1] != '\r'
    ensures Normal(t) == t
  {
    hide TrimLeft, TrimRight;
  }

  lemma RecordFits(key: string, value: string)
    requires |key| <= FIELD_COLUMN_WIDTH && |value| <= 3000
    ensures |RecordLine(key, value)| <= LONGEST_LINE
  {
  }

  lemma TimeSteps(s: Suite, st: State, t: int)
    requires s.Faithful() && !st.reading
    ensures
      Step(s, st, RecordLine("Created", s.format(t))) ==
      if Dated(t) then Ok(st.(created := Time(t, 0))) else Err
    ensures
      Step(s, st, RecordLine("Expires", s.format(t))) ==
      if Dated(t) then Ok(st.(expires := Time(t, 0))) else Err
  {
    hide Step, RecordLine, Normal;
    var w := s.format(t);
    assert Word(w);
    RecordFits("Created", w);
    RecordFits("Expires", w);
    WordTrims(w, "");
    assert w + "" == w;
    RecordParses(s, st, "Created", w);
    RecordParses(s, st, "Expires", w);
  }

  function SignerText(s: Suite, k: PublicKey): string {
    s.fingerprint(k) + (" (" + s.kind(k) + ")")
  }

  lemma SignerStep(s: Suite, st: State, k: PublicKey)
    requires s.Faithful() && !st.reading
    ensures Step(s, st, RecordLine("Signer", SignerText(s, k))) == Ok(st.(fingerprint := s.fingerprint(k)))
  {
    hide Step, RecordLine, Normal;
    var w, rest := s.fingerprint(k), " (" + s.kind(k) + ")";
    RecordFits("Signer", w + rest);
    assert Word(w) && Word(s.kind(k));
    WordTrims(w, rest);
    RecordParses(s, st, "Signer", w + rest);
    WordEnds(w, rest);
  }

  lemma WordEnds(w: string, rest: string)
    requires Word(w) && rest != "" && rest[0] == ' '
    ensures Find(w + rest, ' ') == |w| && (w + rest)[..|w|] == w
  {
    hide Find;
    var value := w + rest;
    assert value[|w|] == rest[0];
    assert forall i :: 0 <= i < |w| ==> value[i] == w[i];
  }

  lemma DelimiterStep(s: Suite, st: State)
    ensures Step(s, st, BLOB_DELIMITER) == Ok(st.(reading := !st.reading))
  {
  }

  lemma MetaRun(s: Suite, st: State, v: Content)
    requires s.Faithful() && !st.reading && v.signer.Some?
    ensures
      Run(s, st, MetaLines(s, v)) ==
      if Dated(v.created.sec) && Dated(v.expires.sec) then
        Ok(st.(created := Time(v.created.sec, 0), expires := Time(v.expires.sec, 0),
               fingerprint := s.fingerprint(v.signer.value), reading := true))
      else Err
  {
    hide Step, RecordLine;
    var lines := MetaLines(s, v);
    TimeSteps(s, st, v.created.sec);
    if Dated(v.created.sec) {
      var st1 := st.(created := Time(v.created.sec, 0));
      TimeSteps(s, st1, v.expires.sec);
      assert lines[1..][0] == lines[1];
      if Dated(v.expires.sec) {
        var st2 := st1.(expires := Time(v.expires.sec, 0));
        SignerStep(s, st2, v.signer.value);
        var st3 := st2.(fingerprint := s.fingerprint(v.signer.value));
        DelimiterStep(s, st3);
        assert lines[1..][1..] == [lines[2], lines[3]];
        assert [lines[2], lines[3]][1..] == [lines[3]];
        assert Run(s, st3, [lines[3]]) == Ok(st3.(reading := true));
        assert Run(s, st2, [lines[2], lines[3]]) == Ok(st3.(reading := true));
      }
    }
  }

  lemma BlobStep(s: Suite, st: State, line: string)
    requires st.reading && Base64.Armored(line) && 0 < |line| <= BLOB_LINE_WIDTH
    ensures Step(s, st, line) == Ok(st.(blob := st.blob + line))
  {
    hide TrimLeft, Find, StepField, Base64.Armored;
    Base64.ArmoredPlain(line);
    assert DropCR(line) == line;
    assert line[0] != BLOB_DELIMITER[0];
  }

  lemma {:induction false} BlobRun(s: Suite, st: State, encoded: string)
    requires st.reading && Base64.Armored(encoded)
    ensures Run(s, st, BlobLines(encoded)) == Ok(st.(blob := st.blob + encoded))
    decreases |encoded|
  {
    hide Step, Base64.Armored;
    if encoded == "" {
      assert st.blob + encoded == st.blob;
    } else {
      var n := Min(BLOB_LINE_WIDTH, |encoded|);
      var line, rest := encoded[..n], encoded[n..];
      assert encoded == line + rest;
      Base64.ArmoredSplit(line, rest);
      BlobStep(s, st, line);
      BlobRun(s, st.(blob := st.blob + line), rest);
      assert st.blob + line + rest == st.blob + encoded;
    }
  }

  lemma {:induction false} BlobLinesSingle(encoded: string)
    requires Base64.Armored(encoded)
    ensures forall i :: 0 <= i < |BlobLines(encoded)| ==> OneLine(BlobLines(encoded)[i])
    decreases |encoded|
  {
    if encoded != "" {
      var n := Min(BLOB_LINE_WIDTH, |encoded|);
      var rest := encoded[n..];
      assert encoded == encoded[..n] + rest;
      Base64.ArmoredSplit(encoded[..n], rest);
      BlobLinesSingle(rest);
    }
  }

  // ----- Single lines -----

  lemma {:induction false} TrimsKeepOneLine(t: string)
    requires OneLine(t)
    ensures OneLine(TrimLeft(t)) && OneLine(TrimRight(t))
  {
    if t != "" {
      TrimsKeepOneLine(t[1..]);
      TrimsKeepOneLine(t[..|t| - 1]);
    }
  }

  lemma RecordSingle(key: string, value: string)
    requires OneLine(key) && OneLine(value)
    ensures OneLine(RecordLine(key, value))
  {
    hide TrimRight;
    TrimsKeepOneLine(value);
  }

  predicate AllSingle(lines: seq<string>) {
    forall i :: 0 <= i < |lines| ==> OneLine(lines[i])
  }

  lemma {:induction false} PathLinesSingle(path: seq<string>)
    requires AllSingle(path)
    ensures AllSingle(PathLines(path))
  {
    hide OneLine, RecordLine;
    if path != [] {
      RecordSinglePath(path[0]);
      PathLinesSingle(path[1..]);
    }
  }

  lemma RecordSinglePath(p: string)
    requires OneLine(p)
    ensures OneLine(RecordLine("Path", p))
  {
    RecordSingle("Path", p);
  }

  lemma MetaLinesSingle(s: Suite, v: Content)
    requires s.Faithful() && v.signer.Some?
    ensures AllSingle(MetaLines(s, v))
  {
    hide RecordLine;
    var k := v.signer.value;
    assert Word(s.format(v.created.sec)) && Word(s.format(v.expires.sec));
    assert Word(s.fingerprint(k)) && Word(s.kind(k));
    RecordSingle("Created", s.format(v.created.sec));
    RecordSingle("Expires", s.format(v.expires.sec));
    RecordSingle("Signer", SignerText(s, k));
  }

  /** The base64 text of a value's binary part. */
  function BlobText(s: Suite, v: Content): string
    requires v.signer.Some?
  {
    Base64.Encode(PackedBytes(Elements(s, v)))
  }

  lemma FileLinesSingle(s: Suite, v: Content)
    requires s.Faithful() && v.signer.Some? && AllSingle(v.path)
    ensures AllSingle(FileLines(s, v))
  {
    hide OneLine, PathLines, MetaLines, BlobLines, Base64.Encode;
    PathLinesSingle(v.path);
    MetaLinesSingle(s, v);
    Base64.EncodeArmored(PackedBytes(Elements(s, v)));
    BlobLinesSingle(BlobText(s, v));
    HeaderSingle();
  }

  lemma HeaderSingle()
    ensures OneLine(FILE_HEADER)
  {
  }

  lemma {:induction false} RunPathsSingle(s: Suite, st: State, lines: seq<string>)
    requires AllSingle(lines) && AllSingle(st.path) && Run(s, st, lines).Ok?
    ensures AllSingle(Run(s, st, lines).value.path)
    decreases |lines|
  {
    hide Step, OneLine;
    if lines != [] {
      StepPathSingle(s, st, lines[0]);
      RunPathsSingle(s, Step(s, st, lines[0]).value, lines[1..]);
    }
  }

  lemma StepPathSingle(s: Suite, st: State, raw: string)
    requires OneLine(raw) && AllSingle(st.path) && Step(s, st, raw).Ok?
    ensures AllSingle(Step(s, st, raw).value.path)
  {
    hide TrimLeft, Find, Blank;
    var line := TrimLeft(DropCR(raw));
    TrimsKeepOneLine(DropCR(raw));
    var cut := Find(line, ' ');
    if cut < |line| {
      TrimsKeepOneLine(line[cut + 1..]);
    }
  }

  // ----- Round trip -----

  /** State of the reader at the end of a file written for v. */
  function Final(s: Suite, v: Content): State
    requires v.signer.Some?
  {
    State(NormalAll(v.path), Time(v.created.sec, 0), Time(v.expires.sec, 0),
          s.fingerprint(v.signer.value), BlobText(s, v), true)
  }

  predicate DatedContent(v: Content) {
    Dated(v.created.sec) && Dated(v.expires.sec)
  }

  lemma FileRun(s: Suite, v: Content)
    requires s.Faithful() && v.signer.Some?
    ensures
      Run(s, START, PathLines(v.path) + MetaLines(s, v) + BlobLines(BlobText(s, v))) ==
      if ReadableAll(v.path) && DatedContent(v) then Ok(Final(s, v)) else Err
  {
    hide Step, Run, PathLines, MetaLines, BlobLines, ReadableAll, NormalAll, Base64.Encode, Dated, Elements, PackedBytes;
    var paths, meta, blob := PathLines(v.path), MetaLines(s, v), BlobLines(BlobText(s, v));
    RunConcat(s, START, paths + meta, blob);
    RunConcat(s, START, paths, meta);
    PathsRun(s, START, v.path);
    if ReadableAll(v.path) {
      var st1 := START.(path := START.path + NormalAll(v.path));
      assert START.path + NormalAll(v.path) == NormalAll(v.path);
      MetaRun(s, st1, v);
      if DatedContent(v) {
        var st2 := st1.(created := Time(v.created.sec, 0), expires := Time(v.expires.sec, 0),
                        fingerprint := s.fingerprint(v.signer.value), reading := true);
        Base64.EncodeArmored(PackedBytes(Elements(s, v)));
        BlobRun(s, st2, BlobText(s, v));
        assert "" + BlobText(s, v) == BlobText(s, v);
      }
    }
  }

  lemma ReadBack(s: Suite, v: Content)
    requires s.Faithful() && v.signer.Some? && AllSingle(v.path)
    ensures
      Read(s, Unlines(FileLines(s, v))) ==
      if ReadableAll(v.path) && DatedContent(v) then Finish(s, Final(s, v)) else Err
  {
    hide Run, PathLines, MetaLines, BlobLines, ReadableAll, Finish, Final, OneLine, Lines, Unlines, BlobText;
    FileLinesSingle(s, v);
    LinesOfUnlines(FileLines(s, v));
    FileRun(s, v);
    assert FileLines(s, v)[1..] == PathLines(v.path) + MetaLines(s, v) + BlobLines(BlobText(s, v));
    assert FileLines(s, v)[0] == FILE_HEADER;
  }

  /** Paths that survive: a non-empty single line, no blank in front, no carriage return behind. */
  predicate StorablePath(p: string) {
    && p != "" && OneLine(p)
    && !Blank(p[0]) && p[|p| - 1] != '\r'
    && |p| + 8 <= LONGEST_LINE
  }

  predicate Storable(s: Suite, v: Content)
    requires v.signer.Some?
  {
    && (forall i :: 0 <= i < |v.path| ==> StorablePath(v.path[i]))
    && DatedContent(v)
    && Packable(Elements(s, v))
  }

  /** What is left of a value whose times are cut to whole seconds. */
  function Whole(v: Content): Content {
    v.(created := Time(v.created.sec, 0), expires := Time(v.expires.sec, 0))
  }

  lemma PathSurvives(p: string)
    requires OneLine(p)
    ensures Readable(p) && Normal(p) == p <==> StorablePath(p)
  {
    hide TrimLeft, TrimRight, Spaces;
    NormalSame(p);
    if p != "" {
      assert p[|p| - 1] != '\n';
      assert |RecordLine("Path", p)| == 8 + |TrimRight(p)|;
    }
  }

  lemma NormalSame(p: string)
    ensures Normal(p) == p <==>
            p == "" || (!Blank(p[0]) && p[|p| - 1] != '\n' && p[|p| - 1] != '\r')
  {
    hide TrimLeft, TrimRight;
    assert |Normal(p)| <= |TrimRight(p)| <= |p|;
    TrimRightShrinks(p);
  }

  lemma TrimRightShrinks(p: string)
    ensures TrimRight(p) == p || |TrimRight(p)| < |p|
  {
  }

  lemma {:induction false} PathsSurvive(path: seq<string>)
    requires AllSingle(path)
    ensures
      ReadableAll(path) && NormalAll(path) == path <==>
      forall i :: 0 <= i < |path| ==> StorablePath(path[i])
  {
    hide OneLine, Normal, Readable, StorablePath;
    if path != [] {
      PathSurvives(path[0]);
      PathsSurvive(path[1..]);
      assert path == [path[0]] + path[1..];
      assert NormalAll(path)[1..] == NormalAll(path[1..]);
      assert forall i :: 1 <= i < |path| ==> path[i] == path[1..][i - 1];
      assert (forall i :: 0 <= i < |path| ==> StorablePath(path[i]))
        <==> StorablePath(path[0]) && (forall i :: 0 <= i < |path[1..]| ==> StorablePath(path[1..][i]));
    }
  }

  /** The binary part comes back unchanged exactly when its three lengths are representable. */
  lemma FinishBack(s: Suite, v: Content)
    requires s.Faithful() && v.signer.Some? && Packed(Elements(s, v)).Ok?
    ensures
      Packable(Elements(s, v)) ==>
        Finish(s, Final(s, v))
        == Ok(Content(NormalAll(v.path), Time(v.created.sec, 0), Time(v.expires.sec, 0),
                      v.signer, v.signature, v.blob))
    ensures
      (var r := Finish(s, Final(s, v));
       r.Ok? && r.value.signature == v.signature && r.value.blob == v.blob)
      ==> Packable(Elements(s, v))
  {
    hide Base64.Encode, Base64.Decode, PackedBytes, Wrapped, NormalAll, Packable;
    var e := Elements(s, v);
    Base64.DecodeOfEncode(PackedBytes(e));
    WrapTiles(PackedBytes(e));
    var pack := Packed(e).value;
    if Packable(e) {
      PackableIsLossless(e);
      ElementsAt(pack, e);
    } else {
      UnpackableChanges(s, v);
    }
  }

  lemma ElementsAt(pack: Bytepack, e: seq<seq<byte>>)
    requires pack.Valid() && pack.Unpacked() == e && |e| == 3
    ensures |pack.offset| == 3
    ensures pack.Element(0) == e[0] && pack.Element(1) == e[1] && pack.Element(2) == e[2]
  {
    assert |pack.Unpacked()| == |pack.offset|;
    assert forall i :: 0 <= i < 3 ==> pack.Element(i) == pack.Unpacked()[i];
  }

  /** Equal signature and blob leave no room for a different length of the key. */
  lemma UnpackableChanges(s: Suite, v: Content)
    requires v.signer.Some? && Packed(Elements(s, v)).Ok? && !Packable(Elements(s, v))
    ensures
      var pack := Packed(Elements(s, v)).value;
      pack.Valid() && |pack.offset| == 3 && (pack.Element(1) != v.signature || pack.Element(2) != v.blob)
  {
    hide Packed, PackedBytes, Narrow;
    var e := Elements(s, v);
    PackedSizes(e);
    PackedValid(e);
    PackedTotal(e);
    SumOfThree(e, Packed(e).value.size);
    StoredNarrow(|e[0]|);
    StoredNarrow(|e[1]|);
    StoredNarrow(|e[2]|);
  }

  lemma PackedValid(e: seq<seq<byte>>)
    requires Packed(e).Ok?
    ensures Packed(e).value.Valid()
  {
    WrapTiles(PackedBytes(e));
  }

  lemma SumOfThree(e: seq<seq<byte>>, z: seq<nat>)
    requires |e| == |z| == 3 && Sum(z) == |Flatten(e)|
    ensures z[0] + z[1] + z[2] == |e[0]| + |e[1]| + |e[2]|
  {
    assert z[1..][1..] == z[2..] && e[1..][1..] == e[2..];
    assert Sum(z[1..]) == z[1] + Sum(z[2..]);
    assert Sum(z[2..]) == z[2] + Sum(z[2..][1..]);
    assert |Flatten(e[1..])| == |e[1]| + |Flatten(e[2..])|;
    assert |Flatten(e[2..])| == |e[2]| + |Flatten(e[2..][1..])|;
  }

  /**
   Reading a file that Serialize wrote gives back the value, with its times cut to whole seconds,
   exactly for values with storable paths, dates that RFC 3339 can express and a packable binary
   part. The signature then still verifies and serialising again gives the same text.
   */
  lemma RoundTrip(s: Suite, v: Content)
    requires s.Faithful() && Serialized(s, v).Ok?
    ensures Storable(s, v) <==> Deserialized(s, Serialized(s, v).value) == Ok(Whole(v))
    ensures Serialized(s, Whole(v)) == Serialized(s, v)
  {
    hide Read, Unlines, FileLines, Packed, Packable, StorablePath, Finish, Final, ReadableAll, NormalAll, OneLine, DatedContent;
    var text := Unlines(FileLines(s, v));
    WholeSame(s, v);
    if AllSingle(v.path) {
      ReadBack(s, v);
      PathsSurvive(v.path);
      FinishBack(s, v);
      FinishPaths(s, v);
    } else {
      SplitPathsLost(s, v);
    }
  }

  /** Whole seconds are all that the file and the signature see of a value. */
  lemma WholeSame(s: Suite, v: Content)
    requires v.signer.Some?
    ensures Verifies(s, Whole(v)) == Verifies(s, v)
    ensures FileLines(s, Whole(v)) == FileLines(s, v) && Elements(s, Whole(v)) == Elements(s, v)
  {
  }

  lemma FinishPaths(s: Suite, v: Content)
    requires v.signer.Some?
    ensures Finish(s, Final(s, v)).Ok? ==> Finish(s, Final(s, v)).value.path == NormalAll(v.path)
  {
  }

  /** A path that spans several lines cannot come back, whatever its lines look like. */
  lemma SplitPathsLost(s: Suite, v: Content)
    requires v.signer.Some? && !AllSingle(v.path)
    ensures
      var r := Read(s, Unlines(FileLines(s, v)));
      r.Ok? ==> r.value.path != v.path
    ensures exists i :: 0 <= i < |v.path| && !StorablePath(v.path[i])
  {
    hide Run, Lines, OneLine, Unlines, FileLines;
    var text := Unlines(FileLines(s, v));
    LinesAreSingle(text);
    var lines := Lines(text);
    if lines != [] && Run(s, START, lines[1..]).Ok? {
      RunPathsSingle(s, START, lines[1..]);
    }
  }

  // ----- The assumptions about a suite can be met -----

  /** Dates as three characters of fifteen bits. */
  function ExampleFormat(t: int): string {
    if !Dated(t) then "-" else
    var n := t + 62167219200;
    [(0x100 + n / 0x4000_0000) as char, (0x100 + n / 0x8000 % 0x8000) as char, (0x100 + n % 0x8000) as char]
  }

  function ExampleParse(s: string): Option<int> {
    if |s| != 3 then None
    else Some((s[0] as int - 0x100) * 0x4000_0000 + (s[1] as int - 0x100) * 0x8000 + (s[2] as int - 0x100) - 62167219200)
  }

  function ExampleSuite(): Suite {
    Suite(_ => "SHA256", _ => "ssh-ed25519", (k: PublicKey) => k.material, m => Some(PublicKey(m)), (_, _, _) => true,
          ExampleFormat, ExampleParse)
  }

  lemma ExampleDates(t: int)
    ensures Word(ExampleFormat(t)) && ExampleParse(ExampleFormat(t)) == if Dated(t) then Some(t) else None
  {
    if Dated(t) {
      var n := t + 62167219200;
      assert n / 0x4000_0000 == n / 0x8000 / 0x8000;
      assert n / 0x8000 == n / 0x8000 / 0x8000 * 0x8000 + n / 0x8000 % 0x8000;
    }
  }

  lemma ExampleFaithful()
    ensures ExampleSuite().Faithful()
  {
    hide ExampleFormat, ExampleParse;
    forall t
      ensures Word(ExampleFormat(t)) && ExampleParse(ExampleFormat(t)) == if Dated(t) then Some(t) else None
    {
      ExampleDates(t);
    }
  }

  function ExampleContent(path: seq<string>): Content {
    Content(path, Time(0, 0), Time(0, 0), Some(PublicKey([])), seq(SIGNATURE_NONCE, _ => 0), [])
  }

  lemma ExampleWritable(path: seq<string>)
    ensures Serialized(ExampleSuite(), ExampleContent(path)).Ok?
    ensures Packable(Elements(ExampleSuite(), ExampleContent(path)))
  {
    hide Packed, FileLines, Unlines, ExampleFormat, ExampleParse, BytesToSign;
    PackRoundTrip([[], ExampleContent(path).signature, []]);
  }

  /** There is a suite as RoundTrip assumes it, and a value that it can write and read back. */
  lemma SuiteExists() returns (s: Suite, v: Content)
    ensures s.Faithful() && v.signer.Some? && Serialized(s, v).Ok? && Storable(s, v)
  {
    s, v := ExampleSuite(), ExampleContent([]);
    ExampleFaithful();
    ExampleWritable([]);
    hide s.Faithful, Serialized, Packable, ExampleSuite;
  }

  /** A value with an empty path can be written, and does not come back. */
  lemma EmptyPathLost() returns (s: Suite, v: Content)
    ensures s.Faithful() && Serialized(s, v).Ok? && v.path == [""]
    ensures Deserialized(s, Serialized(s, v).value) != Ok(Whole(v))
  {
    s, v := ExampleSuite(), ExampleContent([""]);
    ExampleFaithful();
    ExampleWritable([""]);
    assert !StorablePath(v.path[0]);
    hide s.Faithful, Serialized, Deserialized, ExampleSuite;
    RoundTrip(s, v);
  }

  lemma {:induction false} UnlinesConcat(a: seq<string>, b: seq<string>)
    ensures Unlines(a + b) == Unlines(a) + Unlines(b)
  {
    if a == [] {
      assert a + b == b;
    } else {
      assert (a + b)[1..] == a[1..] + b;
      UnlinesConcat(a[1..], b);
    }
  }

  lemma UnlinesSnoc(a: seq<string>, line: string)
    ensures Unlines(a + [line]) == Unlines(a) + line + "\n"
  {
    UnlinesConcat(a, [line]);
    assert Unlines([line]) == line + "\n" + Unlines([]);
  }

  /** record: appends one line to the lines written so far. */
  method Record(buf: string, ghost lines: seq<string>, key: string, value: string)
    returns (out: string, ghost grown: seq<string>)
    requires buf == Unlines(lines)
    ensures grown == lines + [RecordLine(key, value)] && out == Unlines(grown)
  {
    grown := lines + [RecordLine(key, value)];
    UnlinesSnoc(lines, RecordLine(key, value));
    if |value| > 0 {
      var trimmed := TrimRight(value);
      out := buf + key + Gap(key) + trimmed + "\n";
    } else {
      out := buf + key + "\n";
    }
  }

  /** writeBlob64 */
  method WriteBlob64(data: seq<byte>) returns (out: string)
    ensures out == Unlines(BlobLines(Base64.Encode(data)))
  {
    hide Base64.Encode;
    var encoded := Base64.Encode(data);
    out := "";
    ghost var done: seq<string> := [];
    var i := 0;
    while i < |encoded|
      invariant 0 <= i <= |encoded|
      invariant out == Unlines(done)
      invariant BlobLines(encoded) == done + BlobLines(encoded[i..])
    {
      var end := i + BLOB_LINE_WIDTH;
      if end > |encoded| {
        end := |encoded|;
      }
      var line := encoded[i..end];
      assert encoded[i..][..end - i] == line && encoded[i..][end - i..] == encoded[end..];
      UnlinesSnoc(done, line);
      out := out + line + "\n";
      done := done + [line];
      i := end;
    }
    assert BlobLines(encoded[i..]) == [];
    assert done + [] == done;
  }

  class Value {
    var path: seq<string>
    var created: Time
    var expires: Time
    var signer: Option<PublicKey>
    var signature: seq<byte>
    var blob: seq<byte>

    constructor ()
      ensures Get() == Content([], ZERO_TIME, ZERO_TIME, None, [], [])
    {
      path, created, expires, signer, signature, blob := [], ZERO_TIME, ZERO_TIME, None, [], [];
    }

    function Get(): Content
      reads this
    {
      Content(path, created, expires, signer, signature, blob)
    }

    /** bytesToSign; a nonce of another length is replaced by random bytes. */
    method ToSign(nonce: seq<byte>, random: seq<byte>) returns (buf: seq<byte>)
      ensures buf == BytesToSign(Get(), if |nonce| == SIGNATURE_NONCE then nonce else random)
    {
      var prefix := if |nonce| == SIGNATURE_NONCE then nonce else random;
      var text := SIGNATURE_HEADER + "\n";
      text := text + Decimal(created.sec) + "\n";
      text := text + Decimal(expires.sec) + "\n";
      ghost var front := [SIGNATURE_HEADER, Decimal(created.sec), Decimal(expires.sec)];
      assert text == Unlines(front) by {
        hide Decimal;
        UnlinesSnoc([], SIGNATURE_HEADER);
        UnlinesSnoc([SIGNATURE_HEADER], Decimal(created.sec));
        UnlinesSnoc([SIGNATURE_HEADER, Decimal(created.sec)], Decimal(expires.sec));
        assert front[..1] == [] + [SIGNATURE_HEADER];
        assert front[..2] == [SIGNATURE_HEADER] + [Decimal(created.sec)];
        assert front == front[..2] + [Decimal(expires.sec)];
      }
      assert front + path[..0] == front;
      for i := 0 to |path|
        invariant text == Unlines(front + path[..i])
      {
        assert front + path[..i + 1] == front + path[..i] + [path[i]];
        UnlinesSnoc(front + path[..i], path[i]);
        text := text + path[i] + "\n";
      }
      assert path[..|path|] == path;
      buf := prefix + Octets(text) + blob;
    }

    method Verify(s: Suite) returns (ok: bool, panics: bool)
      ensures ok == Verifies(s, Get()) && panics == PanicsOnVerify(Get())
    {
      if signer.None? || |signature| == 0 {
        return false, false;
      }
      if |signature| < SIGNATURE_NONCE {
        return false, true;
      }
      var data := ToSign(signature[..SIGNATURE_NONCE], []);
      return s.check(signer.value, data, signature[SIGNATURE_NONCE..]), false;
    }

    /** Sign; the signer answers None on failure and when its signature has another format. */
    method Sign(key: PublicKey, sign: seq<byte> -> Option<seq<byte>>, random: seq<byte>) returns (ok: bool)
      requires |random| == SIGNATURE_NONCE
      modifies this`signer, this`signature
      ensures ok <==> sign(BytesToSign(old(Get()), random)).Some?
      ensures !ok ==> Get() == old(Get())
      ensures ok ==>
                && Get() == old(Get()).(signer := Some(key), signature := random + sign(BytesToSign(old(Get()), random)).value)
                && forall s: Suite :: s.check(key, BytesToSign(old(Get()), random), signature[SIGNATURE_NONCE..]) ==> Verifies(s, Get())
    {
      var data := ToSign([], random);
      var sig := sign(data);
      if sig.None? {
        return false;
      }
      signer := Some(key);
      signature := data[..SIGNATURE_NONCE] + sig.value;
      assert BytesToSign(Get(), random) == BytesToSign(old(Get()), random);
      assert data[..SIGNATURE_NONCE] == random;
      assert signature[..SIGNATURE_NONCE] == random && signature[SIGNATURE_NONCE..] == sig.value;
      hide BytesToSign;
      return true;
    }

    /** Serialize; when packing fails, the records have already been written. */
    method Serialize(s: Suite) returns (out: string, ok: bool, panics: bool)
      ensures ok <==> Serialized(s, Get()).Ok?
      ensures ok ==> out == Serialized(s, Get()).value
      ensures !ok ==>
                out == if Verifies(s, Get()) then Unlines([FILE_HEADER] + PathLines(path) + MetaLines(s, Get())) else ""
      ensures panics == PanicsOnVerify(Get())
    {
      hide Verifies, BytesToSign, RecordLine, Packed, PackedBytes, BlobLines, Unlines;
      ok, panics := Verify(s);
      if !ok {
        return "", false, panics;
      }
      VerifiesSigned(s, Get());
      ghost var lines: seq<string>;
      out, lines := WriteRecords(s);
      var elements := Elements(s, Get());
      var pack := Pack(elements);
      if pack.Err? {
        return out, false, panics;
      }
      PackedData(elements);
      var body := WriteBlob64(pack.value.data);
      UnlinesConcat(lines, BlobLines(BlobText(s, Get())));
      out := out + body;
    }

    method WriteRecords(s: Suite) returns (buf: string, ghost lines: seq<string>)
      requires signer.Some?
      ensures lines == [FILE_HEADER] + PathLines(path) + MetaLines(s, Get())
      ensures buf == Unlines(lines)
    {
      hide RecordLine, Unlines;
      EmptyUnlines();
      HeaderRecord();
      buf, lines := Record("", [], FILE_HEADER, "");
      for i := 0 to |path|
        invariant buf == Unlines(lines)
        invariant lines == [FILE_HEADER] + PathLines(path[..i])
      {
        PathLinesSnoc(path[..i], path[i]);
        assert path[..i + 1] == path[..i] + [path[i]];
        buf, lines := Record(buf, lines, "Path", path[i]);
      }
      assert path[..|path|] == path;
      ghost var front := lines;
      buf, lines := Record(buf, lines, "Created", s.format(created.sec));
      buf, lines := Record(buf, lines, "Expires", s.format(expires.sec));
      buf, lines := Record(buf, lines, "Signer", SignerText(s, signer.value));
      buf, lines := Record(buf, lines, BLOB_DELIMITER, "");
      assert lines == front + MetaLines(s, Get());
    }

    /**
     Deserialize; the object is overwritten before its signature is verified, and it is left alone
     when the text itself is not understood.
     */
    method Deserialize(s: Suite, text: string) returns (ok: bool, panics: bool)
      modifies this
      ensures ok <==> Deserialized(s, text).Ok?
      ensures ok ==> Get() == Deserialized(s, text).value && Verifies(s, Get())
      ensures Get() == match Read(s, text) { case Ok(v) => v case Err => old(Get()) }
      ensures panics <==> Read(s, text).Ok? && PanicsOnVerify(Read(s, text).value)
    {
      hide Run, Lines, Finish, Verifies, PanicsOnVerify;
      var lines := Lines(text);
      if lines == [] || |lines[0]| > LONGEST_LINE || DropCR(lines[0]) != FILE_HEADER {
        return false, false;
      }
      var st := Scan(s, lines[1..]);
      if st.Err? {
        return false, false;
      }
      var v := Finish(s, st.value);
      if v.Err? {
        return false, false;
      }
      path, created, expires := v.value.path, v.value.created, v.value.expires;
      signer, signature, blob := v.value.signer, v.value.signature, v.value.blob;
      ok, panics := Verify(s);
    }
  }

  lemma EmptyUnlines()
    ensures Unlines([]) == ""
  {
  }

  lemma HeaderRecord()
    ensures RecordLine(FILE_HEADER, "") == FILE_HEADER
    ensures RecordLine(BLOB_DELIMITER, "") == BLOB_DELIMITER
  {
  }

  lemma VerifiesSigned(s: Suite, v: Content)
    requires Verifies(s, v)
    ensures v.signer.Some?
  {
  }

  lemma PackedData(e: seq<seq<byte>>)
    requires Packed(e).Ok?
    ensures Packed(e).value.data == PackedBytes(e)
  {
  }

  lemma {:induction false} PathLinesSnoc(path: seq<string>, p: string)
    ensures PathLines(path + [p]) == PathLines(path) + [RecordLine("Path", p)]
  {
    if path != [] {
      assert (path + [p])[1..] == path[1..] + [p];
      PathLinesSnoc(path[1..], p);
    }
  }

  /** The line loop of Deserialize. */
  method Scan(s: Suite, lines: seq<string>) returns (r: Result<State>)
    ensures r == Run(s, START, lines)
  {
    hide TrimLeft, Find, DropCR;
    var path, created, expires, fingerprint := START.path, START.created, START.expires, START.fingerprint;
    var blobBuffer, readingBlob := "", false;
    for i := 0 to |lines|
      invariant Run(s, START, lines)
             == Run(s, State(path, created, expires, fingerprint, blobBuffer, readingBlob), lines[i..])
    {
      ghost var st := State(path, created, expires, fingerprint, blobBuffer, readingBlob);
      assert lines[i..][0] == lines[i] && lines[i..][1..] == lines[i + 1..];
      if |lines[i]| > LONGEST_LINE {
        return Err;
      }
      var line := TrimLeft(DropCR(lines[i]));
      var cut := Find(line, ' ');
      if line == "" || line[0] == '#' {
      } else if line == BLOB_DELIMITER {
        readingBlob := !readingBlob;
      } else if readingBlob {
        blobBuffer := blobBuffer + line;
      } else if cut == |line| {
        return Err;
      } else {
        var field, value := line[..cut], TrimLeft(line[cut + 1..]);
        if field == "Path" {
          path := path + [value];
        } else if field == "Created" {
          var t := s.parseTime(value);
          if t.None? {
            return Err;
          }
          created := Time(t.value, 0);
        } else if field == "Expires" {
          var t := s.parseTime(value);
          if t.None? {
            return Err;
          }
          expires := Time(t.value, 0);
        } else if field == "Signer" {
          fingerprint := value[..Find(value, ' ')];
        } else {
          return Err;
        }
      }
      assert Step(s, st, lines[i]) == Ok(State(path, created, expires, fingerprint, blobBuffer, readingBlob));
    }
    return Ok(State(path, created, expires, fingerprint, blobBuffer, readingBlob));
  }
}
