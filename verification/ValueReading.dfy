/**
 secrets/value/serialize.go: which texts Deserialize accepts, and what it makes of them, said line by
 line and without the state of its loop.
 */
module ValueReading {
  import opened Bytes
  import opened Bytepack
  import Base64
  import opened ValueFile

  datatype Kind = Skip | Delimiter | Field(name: string, value: string) | Other

  /** A line without its carriage return and leading blanks. */
  function Trimmed(raw: string): string {
    TrimLeft(DropCR(raw))
  }

  function KindOf(raw: string): Kind {
    var line := Trimmed(raw);
    if line == "" || line[0] == '#' then Skip
    else if line == "---" then Delimiter
    else
      var k := Find(line, ' ');
      if k == |line| then Other else Field(line[..k], TrimLeft(line[k + 1..]))
  }

  /** Behind an odd number of delimiters lines belong to the blob. */
  predicate InBlob(lines: seq<string>) {
    lines != [] && (InBlob(lines[..|lines| - 1]) != KindOf(lines[|lines| - 1]).Delimiter?)
  }

  /** The values of a field, in order. */
  function Values(lines: seq<string>, name: string): seq<string> {
    if lines == [] then [] else
    var front, kind := lines[..|lines| - 1], KindOf(lines[|lines| - 1]);
    Values(front, name) + if !InBlob(front) && kind.Field? && kind.name == name then [kind.value] else []
  }

  /** The lines of the blob, one behind the other. */
  function BlobOf(lines: seq<string>): string {
    if lines == [] then "" else
    var front, raw := lines[..|lines| - 1], lines[|lines| - 1];
    BlobOf(front) + if InBlob(front) && !KindOf(raw).Skip? && !KindOf(raw).Delimiter? then Trimmed(raw) else ""
  }

  /** A line that is read without an error, behind the given ones. */
  predicate Fine(s: Suite, front: seq<string>, raw: string) {
    && |raw| <= 65535
    && (InBlob(front) ||
        match KindOf(raw)
        case Field(name, value) =>
          name == "Path" || name == "Signer" || ((name == "Created" || name == "Expires") && s.parseTime(value).Some?)
        case Other => false
        case _ => true)
  }

  predicate AllFine(s: Suite, lines: seq<string>) {
    lines == [] || (AllFine(s, lines[..|lines| - 1]) && Fine(s, lines[..|lines| - 1], lines[|lines| - 1]))
  }

  /** The last one of several timestamps; the zero time if there is none. */
  function LastTime(s: Suite, values: seq<string>): Time {
    if values == [] then ZERO_TIME else
    match s.parseTime(values[|values| - 1])
    case Some(t) => Time(t, 0)
    case None => ZERO_TIME
  }

  /** The first word of the last value. */
  function LastWord(values: seq<string>): string {
    if values == [] then "" else
    var v := values[|values| - 1];
    v[..Find(v, ' ')]
  }

  /** What the loop has gathered from the lines. */
  function Gathered(s: Suite, lines: seq<string>): State {
    State(Values(lines, "Path"), LastTime(s, Values(lines, "Created")), LastTime(s, Values(lines, "Expires")),
          LastWord(Values(lines, "Signer")), BlobOf(lines), InBlob(lines))
  }

  lemma RunSnoc(s: Suite, front: seq<string>, raw: string)
    ensures Run(s, START, front + [raw]) ==
            match Run(s, START, front) { case Err => Err case Ok(mid) => Step(s, mid, raw) }
  {
    hide Step;
    RunConcat(s, START, front, [raw]);
    match Run(s, START, front)
    case Err =>
    case Ok(mid) =>
      assert [raw][1..] == [];
      assert Run(s, mid, [raw]) == match Step(s, mid, raw) { case Err => Err case Ok(next) => Run(s, next, []) };
  }

  /** A step of the loop by the kind of the line. */
  lemma StepByKind(s: Suite, st: State, raw: string)
    ensures Step(s, st, raw) ==
            if |raw| > 65535 then Err
            else match KindOf(raw)
                 case Skip => Ok(st)
                 case Delimiter => Ok(st.(reading := !st.reading))
                 case Field(name, value) =>
                   if st.reading then Ok(st.(blob := st.blob + Trimmed(raw))) else StepField(s, st, name, value)
                 case Other => if st.reading then Ok(st.(blob := st.blob + Trimmed(raw))) else Err
  {
    hide TrimLeft, DropCR, Find, StepField;
  }

  /** A line that is no field outside the blob adds no values. */
  lemma GatheredSame(s: Suite, front: seq<string>, raw: string)
    requires InBlob(front) || !KindOf(raw).Field?
    ensures
      var st := Gathered(s, front);
      Gathered(s, front + [raw]) ==
      st.(reading := st.reading != KindOf(raw).Delimiter?,
          blob := if InBlob(front) && !KindOf(raw).Skip? && !KindOf(raw).Delimiter? then st.blob + Trimmed(raw) else st.blob)
  {
    ValuesSnoc(front, raw, "Path");
    ValuesSnoc(front, raw, "Created");
    ValuesSnoc(front, raw, "Expires");
    ValuesSnoc(front, raw, "Signer");
    BlobSnoc(front, raw);
    hide Values, BlobOf, InBlob, KindOf, Trimmed, LastTime, LastWord;
  }

  lemma BlobSnoc(front: seq<string>, raw: string)
    ensures InBlob(front + [raw]) <==> InBlob(front) != KindOf(raw).Delimiter?
    ensures BlobOf(front + [raw]) ==
            if InBlob(front) && !KindOf(raw).Skip? && !KindOf(raw).Delimiter? then BlobOf(front) + Trimmed(raw)
            else BlobOf(front)
  {
    hide KindOf, Trimmed;
    assert (front + [raw])[..|front|] == front;
    assert BlobOf(front) + "" == BlobOf(front);
  }

  /** A field outside the blob adds its value to those of its name. */
  lemma GatheredField(s: Suite, front: seq<string>, raw: string)
    requires !InBlob(front) && KindOf(raw).Field?
    ensures
      var st, name, value := Gathered(s, front), KindOf(raw).name, KindOf(raw).value;
      Gathered(s, front + [raw]) ==
      st.(path := if name == "Path" then st.path + [value] else st.path,
          created := if name == "Created" then LastTime(s, [value]) else st.created,
          expires := if name == "Expires" then LastTime(s, [value]) else st.expires,
          fingerprint := if name == "Signer" then LastWord([value]) else st.fingerprint)
  {
    ValuesSnoc(front, raw, "Path");
    ValuesSnoc(front, raw, "Created");
    ValuesSnoc(front, raw, "Expires");
    ValuesSnoc(front, raw, "Signer");
    BlobSnoc(front, raw);
    var value := KindOf(raw).value;
    LastOnly(s, Values(front, "Created"), value);
    LastOnly(s, Values(front, "Expires"), value);
    LastOnly(s, Values(front, "Signer"), value);
    hide Values, BlobOf, InBlob, KindOf, Trimmed, LastTime, LastWord;
  }

  lemma LastOnly(s: Suite, values: seq<string>, value: string)
    ensures LastTime(s, values + [value]) == LastTime(s, [value]) && LastWord(values + [value]) == LastWord([value])
  {
  }

  lemma FieldStep(s: Suite, st: State, name: string, value: string)
    ensures
      var fine := name == "Path" || name == "Signer" || ((name == "Created" || name == "Expires") && s.parseTime(value).Some?);
      if !fine then StepField(s, st, name, value) == Err
      else StepField(s, st, name, value) ==
           Ok(st.(path := if name == "Path" then st.path + [value] else st.path,
                  created := if name == "Created" then LastTime(s, [value]) else st.created,
                  expires := if name == "Expires" then LastTime(s, [value]) else st.expires,
                  fingerprint := if name == "Signer" then LastWord([value]) else st.fingerprint))
  {
  }

  /** One more line. */
  lemma StepGathers(s: Suite, front: seq<string>, raw: string)
    ensures Step(s, Gathered(s, front), raw).Ok? <==> Fine(s, front, raw)
    ensures Fine(s, front, raw) ==> Step(s, Gathered(s, front), raw) == Ok(Gathered(s, front + [raw]))
  {
    StepByKind(s, Gathered(s, front), raw);
    assert Gathered(s, front).reading == InBlob(front);
    hide Step, Values, BlobOf, InBlob, KindOf, Trimmed, LastTime, LastWord, StepField;
    var st := Gathered(s, front);
    if !InBlob(front) && KindOf(raw).Field? {
      FieldStep(s, st, KindOf(raw).name, KindOf(raw).value);
      GatheredField(s, front, raw);
      hide Gathered;
    } else {
      GatheredSame(s, front, raw);
      hide Gathered;
    }
  }

  lemma ValuesSnoc(front: seq<string>, raw: string, name: string)
    ensures Values(front + [raw], name) ==
            if !InBlob(front) && KindOf(raw).Field? && KindOf(raw).name == name then Values(front, name) + [KindOf(raw).value]
            else Values(front, name)
  {
    hide KindOf, InBlob;
    assert (front + [raw])[..|front|] == front;
  }

  /** The line loop succeeds exactly when all lines are fine, and gathers what they say. */
  lemma {:induction false} RunGathers(s: Suite, lines: seq<string>)
    ensures Run(s, START, lines).Ok? <==> AllFine(s, lines)
    ensures AllFine(s, lines) ==> Run(s, START, lines) == Ok(Gathered(s, lines))
    decreases |lines|
  {
    hide Fine, Gathered, Step;
    if lines == [] {
      StartGathered(s);
    } else {
      var front, raw := lines[..|lines| - 1], lines[|lines| - 1];
      assert lines == front + [raw];
      RunGathers(s, front);
      RunSnoc(s, front, raw);
      hide Run;
      StepGathers(s, front, raw);
    }
  }

  lemma StartGathered(s: Suite)
    ensures Gathered(s, []) == START
  {
  }

  // ----- Whole texts -----

  /** The lines behind the file header; None without it. */
  function Body(text: string): Option<seq<string>> {
    var lines := Lines(text);
    if lines != [] && |lines[0]| <= 65535 && DropCR(lines[0]) == "[pond/secrets]" then Some(lines[1..]) else None
  }

  /** The binary part holds a key, whose fingerprint is the one named, a signature and the blob. */
  predicate Unpacks(s: Suite, lines: seq<string>, key: PublicKey, signature: seq<byte>, blob: seq<byte>) {
    match Base64.Decode(BlobOf(lines))
    case None => false
    case Some(data) =>
      match Wrapped(data)
      case Err => false
      case Ok(pack) =>
        WrapTiles(data);
        && |pack.offset| == 3 && s.parse(pack.Element(0)) == Some(key)
        && pack.Element(1) == signature && pack.Element(2) == blob
        && s.fingerprint(key) == LastWord(Values(lines, "Signer"))
  }

  /**
   Deserialize accepts a text, as a certain value, exactly when it has the header, all lines are
   fine, paths and times are those of the lines, the binary part unpacks with the fingerprint of the
   last Signer line, and the signature verifies over the signed bytes.
   */
  lemma AcceptsExactly(s: Suite, text: string, v: Content)
    ensures Deserialized(s, text) == Ok(v) <==>
            && Body(text).Some? && AllFine(s, Body(text).value)
            && v.path == Values(Body(text).value, "Path")
            && v.created == LastTime(s, Values(Body(text).value, "Created"))
            && v.expires == LastTime(s, Values(Body(text).value, "Expires"))
            && v.signer.Some? && Unpacks(s, Body(text).value, v.signer.value, v.signature, v.blob)
            && |v.signature| >= 64
            && s.check(v.signer.value, BytesToSign(v, v.signature[..64]), v.signature[64..])
  {
    hide Lines, Run, AllFine, Values, BlobOf, InBlob, LastTime, LastWord, BytesToSign, DropCR;
    if Body(text).Some? {
      RunGathers(s, Body(text).value);
      FinishGathers(s, Body(text).value, v);
      hide Finish, Unpacks, Gathered;
    }
  }

  lemma FinishGathers(s: Suite, lines: seq<string>, v: Content)
    ensures Finish(s, Gathered(s, lines)) == Ok(v) <==>
            && v.path == Values(lines, "Path")
            && v.created == LastTime(s, Values(lines, "Created"))
            && v.expires == LastTime(s, Values(lines, "Expires"))
            && v.signer.Some? && Unpacks(s, lines, v.signer.value, v.signature, v.blob)
  {
    hide Values, BlobOf, InBlob, LastTime, LastWord, Wrapped, Base64.Decode;
  }
}
