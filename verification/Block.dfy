/**
 lib/block/template.go: filling marked sections of a text. The text is the list of its lines, and so
 is the value of a section; the marker expressions are a function that classifies a line.
 */
module Block {
  import opened Bytes

  /** A missing offset counts as 0; None is a number that does not fit an int. */
  datatype Kind =
    | Text
    | Start(name: string, offset: Option<nat>)
    | End(name: string, offset: Option<nat>)

  type Classifier = string -> Kind

  type Sections = map<string, seq<string>>

  datatype Outcome = Filled(lines: seq<string>) | Failed | Panicked

  // ----- The specification -----

  /** The last line whose number is k modulo size; an empty line when there is none. */
  function Slot(body: seq<string>, size: nat, k: nat): string
    requires 0 < size
  {
    if body == [] then ""
    else if (|body| - 1) % size == k then body[|body| - 1]
    else Slot(body[..|body| - 1], size, k)
  }

  /** The first i of the e lines that are put back after a value. */
  function PutBack(body: seq<string>, size: nat, e: nat, i: nat): (lines: seq<string>)
    requires 0 < size
    ensures |lines| == i
  {
    if i == 0 then [] else PutBack(body, size, e, i - 1) + [Slot(body, size, (|body| - e + i - 1) % size)]
  }

  function Tail(body: seq<string>, size: nat, e: nat): seq<string> {
    if size == 0 then [] else PutBack(body, size, e, e)
  }

  /** The remainder of a negative number is negative, and no index. */
  predicate Panics(size: nat, n: nat, e: nat) {
    size >= 2 && e > n
  }

  /**
   Where Fill is: the open section if any, the latest offset, the size of the line buffer, the
   lines since the section was inside, the output, and the sections rendered so far.
   */
  datatype Machine = Machine(
    section: string, offset: nat, size: nat, body: seq<string>, output: seq<string>, rendered: set<string>)

  const INITIAL := Machine("", 0, 0, [], [], {})

  datatype Progress = Going(m: Machine) | Error | Panic

  function Line(m: Machine, line: string): Machine {
    var body := m.body + [line];
    if m.section != "" && |body| > m.offset then m.(body := body)
    else m.(body := body, output := m.output + [line])
  }

  function Open(sections: Sections, m: Machine, line: string, name: string, s: nat): Machine {
    var shown := m.(offset := s, output := m.output + [line]);
    if name in sections then shown.(section := name, size := s, body := []) else shown
  }

  function Close(sections: Sections, m: Machine, line: string, e: nat): Machine
    requires m.section in sections
  {
    m.(section := "", offset := e, size := 0, rendered := m.rendered + {m.section},
       output := m.output + sections[m.section] + Tail(m.body, m.size, e) + [line])
  }

  /** A section is only ever inside when it is known. */
  predicate Known(sections: Sections, m: Machine) {
    m.section != "" ==> m.section in sections
  }

  function Step(kind: Classifier, sections: Sections, m: Machine, line: string): (p: Progress)
    requires Known(sections, m)
    ensures p.Going? ==> Known(sections, p.m)
  {
    match kind(line)
    case Start(name, offset) => if offset.None? then Error else Going(Open(sections, m, line, name, offset.value))
    case End(name, offset) =>
      if m.section == "" then Going(Line(m, line))
      else if offset.None? || name != m.section then Error
      else if Panics(m.size, |m.body|, offset.value) then Panic
      else Going(Close(sections, m, line, offset.value))
    case Text => Going(Line(m, line))
  }

  function RunFrom(kind: Classifier, sections: Sections, m: Machine, lines: seq<string>): Progress
    requires Known(sections, m)
    decreases |lines|
  {
    if lines == [] then Going(m) else
    match Step(kind, sections, m, lines[0])
    case Going(next) => RunFrom(kind, sections, next, lines[1..])
    case Error => Error
    case Panic => Panic
  }

  function Finish(sections: Sections, p: Progress): Outcome {
    match p
    case Going(m) => if sections.Keys <= m.rendered then Filled(m.output) else Failed
    case Error => Failed
    case Panic => Panicked
  }

  function FillSpec(kind: Classifier, sections: Sections, lines: seq<string>): Outcome {
    Finish(sections, RunFrom(kind, sections, INITIAL, lines))
  }

  // ----- The code -----

  /** Remainder as Go computes it: with the sign of the dividend. */
  function Remainder(a: int, b: nat): int
    requires b > 0
  {
    if a >= 0 then a % b else -((-a) % b)
  }

  predicate Holds(buffer: seq<string>, body: seq<string>) {
    forall k :: 0 <= k < |buffer| ==> buffer[k] == Slot(body, |buffer|, k)
  }

  lemma RemainderFits(a: int, b: nat)
    requires b > 0
    ensures Remainder(a, b) < b
    ensures Remainder(a, b) < 0 ==> a < 0 && b >= 2
    ensures Remainder(a, b) >= 0 ==> Remainder(a, b) == a % b
    ensures a == -1 && b >= 2 ==> Remainder(a, b) < 0
  {
    if a < 0 && (-a) % b == 0 {
      MultipleBelowZero(-a, b);
    }
  }

  lemma MultipleBelowZero(a: int, b: nat)
    requires b > 0 && a % b == 0
    ensures (-a) % b == 0
  {
    assert -a == b * -(a / b);
    SameRemainder(-a, 0, b, -(a / b));
  }

  lemma SameRemainder(a: int, b: int, s: nat, q: int)
    requires s > 0 && a - b == s * q
    ensures a % s == b % s
  {
    var x := b / s - a / s + q;
    assert a == s * (a / s) + a % s && b == s * (b / s) + b % s;
    assert s * x == a % s - b % s;
    if a % s <= b % s {
      NoMultipleBetween(s, x, b % s - a % s);
    } else {
      NoMultipleBetween(s, -x, a % s - b % s);
    }
  }

  lemma NoMultipleBetween(b: int, x: int, r: int)
    requires 0 <= r < b && b * x == -r
    ensures r == 0
  {
    MultipleGrows(b, x);
  }

  lemma MultipleGrows(b: int, x: int)
    requires b > 0
    ensures x >= 1 ==> b * x >= b
    ensures x <= -1 ==> b * x <= -b
  {
    if x >= 1 {
      assert b * (x - 1) >= 0;
    } else if x <= -1 {
      assert b * (-1 - x) >= 0;
    }
  }

  /** The loop of an end marker over the line buffer. */
  method CopyBack(buffer: array<string>, ghost body: seq<string>, index: nat, e: nat) returns (ok: bool, lines: seq<string>)
    requires index == |body| && buffer.Length > 0 && Holds(buffer[..], body)
    ensures ok <==> !Panics(buffer.Length, index, e)
    ensures ok ==> lines == Tail(body, buffer.Length, e)
  {
    lines := [];
    for i := 0 to e
      invariant Panics(buffer.Length, index, e) ==> i < e - index
      invariant lines == PutBack(body, buffer.Length, e, i)
    {
      hide PutBack;
      var k := Remainder(index - e + i, buffer.Length);
      RemainderFits(index - e + i, buffer.Length);
      if k < 0 {
        return false, [];
      }
      assert buffer[k] == buffer[..][k] == Slot(body, buffer.Length, k);
      OneBack(body, buffer.Length, e, i);
      lines := lines + [buffer[k]];
    }
    ok := true;
  }

  lemma OneBack(body: seq<string>, size: nat, e: nat, i: nat)
    requires 0 < size
    ensures PutBack(body, size, e, i + 1) == PutBack(body, size, e, i) + [Slot(body, size, (|body| - e + i) % size)]
  {
  }

  /** Template.Fill, with its ring of the latest lines. */
  method Fill(kind: Classifier, sections: Sections, lines: seq<string>) returns (r: Outcome)
    ensures r == FillSpec(kind, sections, lines)
  {
    var section, index: nat, offset: nat := "", 0, 0;
    var output: seq<string>, rendered: set<string> := [], {};
    var buffer := new string[0];
    ghost var m := INITIAL;
    for i := 0 to |lines|
      invariant m == Machine(section, offset, buffer.Length, m.body, output, rendered) && index == |m.body|
      invariant Known(sections, m) && fresh(buffer)
      invariant buffer.Length > 0 ==> Holds(buffer[..], m.body)
      invariant RunFrom(kind, sections, INITIAL, lines) == RunFrom(kind, sections, m, lines[i..])
    {
      hide Holds, Tail, Slot, Panics;
      var line := lines[i];
      assert lines[i..][0] == line && lines[i..][1..] == lines[i + 1..];
      var mark := kind(line);
      if mark.Start? {
        if mark.offset.None? {
          return Failed;
        }
        offset := mark.offset.value;
        output := output + [line];
        if mark.name in sections {
          section, index := mark.name, 0;
          buffer := new string[offset](_ => "");
          StartsEmpty(buffer[..]);
        }
        m := Open(sections, m, line, mark.name, mark.offset.value);
      } else if mark.End? && section != "" {
        if mark.offset.None? {
          return Failed;
        }
        offset := mark.offset.value;
        if mark.name != section {
          return Failed;
        }
        output := output + sections[section];
        rendered := rendered + {section};
        var ok, back := true, [];
        if buffer.Length != 0 {
          ok, back := CopyBack(buffer, m.body, index, offset);
        } else {
          NothingBack(m.body, offset);
        }
        if !ok {
          return Panicked;
        }
        buffer := new string[0];
        output := output + back + [line];
        section := "";
        m := Close(sections, m, line, mark.offset.value);
      } else {
        if buffer.Length != 0 {
          ghost var before := buffer[..];
          buffer[index % buffer.Length] := line;
          assert buffer[..] == before[index % buffer.Length := line];
          KeepsLatest(before, m.body, line);
        }
        index := index + 1;
        if !(section != "" && index > offset) {
          output := output + [line];
        }
        m := Line(m, line);
      }
    }
    assert lines[|lines|..] == [];
    return if sections.Keys <= rendered then Filled(output) else Failed;
  }

  lemma StartsEmpty(buffer: seq<string>)
    requires forall k :: 0 <= k < |buffer| ==> buffer[k] == ""
    ensures Holds(buffer, [])
  {
  }

  lemma NothingBack(body: seq<string>, e: nat)
    ensures Tail(body, 0, e) == [] && !Panics(0, |body|, e)
  {
  }

  lemma KeepsLatest(buffer: seq<string>, body: seq<string>, line: string)
    requires |buffer| > 0 && Holds(buffer, body)
    ensures Holds(buffer[|body| % |buffer| := line], body + [line])
  {
    var longer := body + [line];
    assert longer[..|body|] == body;
  }

  // ----- The ring holds the last lines -----

  lemma SameSlot(size: nat, i: nat, j: nat)
    requires 0 < size && j < i && i - j < size
    ensures i % size != j % size
  {
    if i % size == j % size {
      var p, q := i / size, j / size;
      assert i == size * p + i % size && j == size * q + j % size;
      assert i - j == size * (p - q);
      NoMultipleBetween(size, q - p, i - j);
    }
  }

  lemma {:induction false} SlotIs(body: seq<string>, size: nat, j: nat)
    requires 0 < size && j < |body| && |body| - j <= size
    ensures Slot(body, size, j % size) == body[j]
    decreases |body|
  {
    if j < |body| - 1 {
      SameSlot(size, |body| - 1, j);
      SlotIs(body[..|body| - 1], size, j);
    }
  }

  /** With an end offset no larger than the start offset and the body, the ring gives the last lines. */
  lemma TailIsSuffix(body: seq<string>, s: nat, e: nat)
    requires e <= s && e <= |body|
    ensures Tail(body, s, e) == body[|body| - e..]
  {
    if s > 0 {
      PutBackIs(body, s, e, e);
      assert body[|body| - e..|body|] == body[|body| - e..];
    }
  }

  lemma {:induction false} PutBackIs(body: seq<string>, s: nat, e: nat, i: nat)
    requires i <= e <= s && e <= |body| && s > 0
    ensures PutBack(body, s, e, i) == body[|body| - e..|body| - e + i]
  {
    if i > 0 {
      PutBackIs(body, s, e, i - 1);
      SlotIs(body, s, |body| - e + i - 1);
      OneBack(body, s, e, i - 1);
      hide PutBack, Slot;
      OneLonger(body, |body| - e, |body| - e + i - 1);
    }
  }

  lemma OneLonger(lines: seq<string>, a: nat, b: nat)
    requires a <= b < |lines|
    ensures lines[a..b + 1] == lines[a..b] + [lines[b]]
  {
  }

  // ----- Documents -----

  datatype Segment =
    | Plain(line: string)
    | Section(start: string, name: string, s: nat, body: seq<string>, end: string, e: nat)

  function SegmentLines(g: Segment): seq<string> {
    match g
    case Plain(line) => [line]
    case Section(start, _, _, body, end, _) => [start] + body + [end]
  }

  function Lines(doc: seq<Segment>): seq<string> {
    if doc == [] then [] else SegmentLines(doc[0]) + Lines(doc[1..])
  }

  predicate AllText(kind: Classifier, lines: seq<string>) {
    forall i :: 0 <= i < |lines| ==> kind(lines[i]).Text?
  }

  /** Between sections there may be anything but the start of a known section. */
  predicate WellFormed(kind: Classifier, sections: Sections, g: Segment) {
    match g
    case Plain(line) => kind(line).Start? ==> kind(line).offset.Some? && kind(line).name !in sections
    case Section(start, name, s, body, end, e) =>
      && kind(start) == Start(name, Some(s)) && kind(end) == End(name, Some(e))
      && name in sections && name != "" && AllText(kind, body) && !Panics(s, |body|, e)
  }

  predicate WellFormedAll(kind: Classifier, sections: Sections, doc: seq<Segment>) {
    forall i :: 0 <= i < |doc| ==> WellFormed(kind, sections, doc[i])
  }

  /** The first lines of the body, the value, and the lines put back. */
  function FilledBody(body: seq<string>, value: seq<string>, s: nat, e: nat): seq<string> {
    body[..Min(|body|, s)] + value + Tail(body, s, e)
  }

  function FilledSegment(sections: Sections, g: Segment): Segment {
    if g.Plain? || g.name !in sections then g
    else g.(body := FilledBody(g.body, sections[g.name], g.s, g.e))
  }

  function FilledAll(sections: Sections, doc: seq<Segment>): (r: seq<Segment>)
    ensures |r| == |doc|
  {
    if doc == [] then [] else [FilledSegment(sections, doc[0])] + FilledAll(sections, doc[1..])
  }

  lemma {:induction false} FilledAt(sections: Sections, doc: seq<Segment>, i: nat)
    requires i < |doc|
    ensures FilledAll(sections, doc)[i] == FilledSegment(sections, doc[i])
  {
    hide FilledSegment;
    if i > 0 {
      FilledAt(sections, doc[1..], i - 1);
    }
  }

  function Names(doc: seq<Segment>): set<string> {
    set g | g in doc && g.Section? :: g.name
  }

  /** The lines of a body that are copied, when b lines were seen before them. */
  function Shown(lines: seq<string>, b: nat, offset: nat): seq<string> {
    if lines == [] then []
    else if b + 1 > offset then Shown(lines[1..], b + 1, offset)
    else [lines[0]] + Shown(lines[1..], b + 1, offset)
  }

  lemma {:induction false} ShownIs(lines: seq<string>, b: nat, offset: nat)
    ensures Shown(lines, b, offset) == lines[..Min(|lines|, if b < offset then offset - b else 0)]
  {
    if lines != [] {
      ShownIs(lines[1..], b + 1, offset);
    }
  }

  lemma {:induction false} BodyRuns(kind: Classifier, sections: Sections, m: Machine, body: seq<string>, rest: seq<string>)
    requires Known(sections, m) && m.section != "" && AllText(kind, body)
    ensures RunFrom(kind, sections, m, body + rest) ==
            RunFrom(kind, sections, m.(body := m.body + body, output := m.output + Shown(body, |m.body|, m.offset)), rest)
    decreases |body|
  {
    if body == [] {
      assert body + rest == rest;
      assert m.body + body == m.body && m.output + [] == m.output;
    } else {
      assert (body + rest)[0] == body[0] && (body + rest)[1..] == body[1..] + rest;
      var next := Line(m, body[0]);
      assert kind(body[0]).Text?;
      BodyRuns(kind, sections, next, body[1..], rest);
      ShownOne(m, next, body);
    }
  }

  /** Reading one line and then the others is reading them all. */
  lemma ShownOne(m: Machine, next: Machine, body: seq<string>)
    requires m.section != "" && body != [] && next == Line(m, body[0])
    ensures m.body + body == next.body + body[1..]
    ensures m.output + Shown(body, |m.body|, m.offset) == next.output + Shown(body[1..], |next.body|, next.offset)
  {
    var more := Shown(body[1..], |m.body| + 1, m.offset);
    assert Shown(body, |m.body|, m.offset) == if |m.body| + 1 > m.offset then more else [body[0]] + more;
    hide Shown;
    Associative(m.body, [body[0]], body[1..]);
    assert body == [body[0]] + body[1..];
    Associative(m.output, [body[0]], more);
  }

  lemma Associative(a: seq<string>, b: seq<string>, c: seq<string>)
    ensures a + b + c == a + (b + c)
  {
  }

  /** The machine after a well-formed segment. */
  function AfterSegment(kind: Classifier, sections: Sections, m: Machine, g: Segment): Machine
    requires WellFormed(kind, sections, g) && m.section == ""
  {
    match g
    case Plain(line) =>
      if kind(line).Start? then Open(sections, m, line, kind(line).name, kind(line).offset.value)
      else Line(m, line)
    case Section(_, name, _, body, _, e) =>
      Machine("", e, 0, body, m.output + SegmentLines(FilledSegment(sections, g)), m.rendered + {name})
  }

  lemma SectionRuns(kind: Classifier, sections: Sections, m: Machine, g: Segment, rest: seq<string>)
    requires g.Section? && WellFormed(kind, sections, g) && m.section == ""
    ensures RunFrom(kind, sections, m, [g.start] + (g.body + ([g.end] + rest))) ==
            RunFrom(kind, sections, AfterSegment(kind, sections, m, g), rest)
  {
    var inside := Open(sections, m, g.start, g.name, g.s);
    var full := inside.(body := inside.body + g.body, output := inside.output + Shown(g.body, 0, g.s));
    OpensSection(kind, sections, m, g, g.body + ([g.end] + rest));
    BodyRuns(kind, sections, inside, g.body, [g.end] + rest);
    assert inside.body + g.body == g.body;
    ClosesSection(kind, sections, full, g, rest);
    ClosesTo(kind, sections, m, g);
  }

  lemma OpensSection(kind: Classifier, sections: Sections, m: Machine, g: Segment, rest: seq<string>)
    requires g.Section? && WellFormed(kind, sections, g) && m.section == ""
    ensures RunFrom(kind, sections, m, [g.start] + rest) ==
            RunFrom(kind, sections, Open(sections, m, g.start, g.name, g.s), rest)
  {
    assert ([g.start] + rest)[1..] == rest;
  }

  lemma ClosesSection(kind: Classifier, sections: Sections, m: Machine, g: Segment, rest: seq<string>)
    requires g.Section? && WellFormed(kind, sections, g)
    requires m.section == g.name && m.size == g.s && m.body == g.body
    ensures RunFrom(kind, sections, m, [g.end] + rest) == RunFrom(kind, sections, Close(sections, m, g.end, g.e), rest)
  {
    assert ([g.end] + rest)[1..] == rest;
  }

  lemma PlainRuns(kind: Classifier, sections: Sections, m: Machine, g: Segment, rest: seq<string>)
    requires g.Plain? && WellFormed(kind, sections, g) && m.section == ""
    ensures RunFrom(kind, sections, m, [g.line] + rest) ==
            RunFrom(kind, sections, AfterSegment(kind, sections, m, g), rest)
  {
    assert ([g.line] + rest)[1..] == rest;
  }

  lemma SegmentRuns(kind: Classifier, sections: Sections, m: Machine, g: Segment, rest: seq<string>)
    requires WellFormed(kind, sections, g) && m.section == ""
    ensures RunFrom(kind, sections, m, SegmentLines(g) + rest) ==
            RunFrom(kind, sections, AfterSegment(kind, sections, m, g), rest)
  {
    hide WellFormed, RunFrom, AfterSegment;
    if g.Plain? {
      PlainRuns(kind, sections, m, g, rest);
    } else {
      Associative([g.start] + g.body, [g.end], rest);
      Associative([g.start], g.body, [g.end] + rest);
      SectionRuns(kind, sections, m, g, rest);
    }
  }

  lemma ClosesTo(kind: Classifier, sections: Sections, m: Machine, g: Segment)
    requires g.Section? && WellFormed(kind, sections, g) && m.section == ""
    ensures var inside := Open(sections, m, g.start, g.name, g.s);
            Close(sections, inside.(body := g.body, output := inside.output + Shown(g.body, 0, g.s)), g.end, g.e) ==
            AfterSegment(kind, sections, m, g)
  {
    ShownIs(g.body, 0, g.s);
    var front := g.body[..Min(|g.body|, g.s)];
    var value, tail := sections[g.name], Tail(g.body, g.s, g.e);
    hide Tail;
    assert m.output + [g.start] + front + value + tail + [g.end] ==
           m.output + ([g.start] + (front + value + tail) + [g.end]);
  }

  /**
   Filling a well-formed document replaces every section's body by its first lines, the value, and
   the lines put back, and leaves all else alone; it fails exactly when a section is missing.
   */
  lemma FillsDocument(kind: Classifier, sections: Sections, doc: seq<Segment>)
    requires WellFormedAll(kind, sections, doc)
    ensures FillSpec(kind, sections, Lines(doc)) ==
            if sections.Keys <= Names(doc) then Filled(Lines(FilledAll(sections, doc))) else Failed
  {
    var m := DocumentRuns(kind, sections, INITIAL, doc);
    assert INITIAL.output + Lines(FilledAll(sections, doc)) == Lines(FilledAll(sections, doc));
  }

  lemma {:induction false} DocumentRuns(kind: Classifier, sections: Sections, m: Machine, doc: seq<Segment>) returns (last: Machine)
    requires WellFormedAll(kind, sections, doc) && m.section == ""
    ensures RunFrom(kind, sections, m, Lines(doc)) == Going(last)
    ensures last.output == m.output + Lines(FilledAll(sections, doc))
    ensures last.rendered == m.rendered + Names(doc)
    decreases |doc|
  {
    hide WellFormed, SegmentLines, FilledSegment, FilledAll, AfterSegment, Names, RunFrom, Lines;
    if doc == [] {
      last := m;
      NothingToRun(kind, sections, m);
    } else {
      var g := doc[0];
      assert WellFormed(kind, sections, g);
      var next := AfterSegment(kind, sections, m, g);
      AfterAdds(kind, sections, m, g);
      last := DocumentRuns(kind, sections, next, doc[1..]);
      SegmentRuns(kind, sections, m, g, Lines(doc[1..]));
      FirstLines(sections, m.output, doc);
      FirstName(doc);
    }
  }

  lemma NothingToRun(kind: Classifier, sections: Sections, m: Machine)
    requires m.section == ""
    ensures RunFrom(kind, sections, m, Lines([])) == Going(m)
    ensures m.output == m.output + Lines(FilledAll(sections, [])) && m.rendered == m.rendered + Names([])
  {
  }

  lemma FirstLines(sections: Sections, output: seq<string>, doc: seq<Segment>)
    requires doc != []
    ensures Lines(doc) == SegmentLines(doc[0]) + Lines(doc[1..])
    ensures output + Lines(FilledAll(sections, doc)) ==
            output + SegmentLines(FilledSegment(sections, doc[0])) + Lines(FilledAll(sections, doc[1..]))
  {
    hide SegmentLines, FilledSegment;
    var filled := FilledAll(sections, doc);
    assert filled[0] == FilledSegment(sections, doc[0]) && filled[1..] == FilledAll(sections, doc[1..]);
  }

  lemma AfterAdds(kind: Classifier, sections: Sections, m: Machine, g: Segment)
    requires WellFormed(kind, sections, g) && m.section == ""
    ensures var next := AfterSegment(kind, sections, m, g);
            next.section == "" && next.output == m.output + SegmentLines(FilledSegment(sections, g))
            && next.rendered == m.rendered + (if g.Section? then {g.name} else {})
  {
  }

  lemma FirstName(doc: seq<Segment>)
    requires doc != []
    ensures Names(doc) == (if doc[0].Section? then {doc[0].name} else {}) + Names(doc[1..])
  {
    assert doc == [doc[0]] + doc[1..];
  }

  // ----- Texts that are refused -----

  /** How a text goes wrong behind a well-formed document. */
  lemma {:induction false} RunsOn(kind: Classifier, sections: Sections, m: Machine, doc: seq<Segment>, rest: seq<string>)
    returns (last: Machine)
    requires WellFormedAll(kind, sections, doc) && m.section == ""
    ensures last.section == "" && RunFrom(kind, sections, m, Lines(doc) + rest) == RunFrom(kind, sections, last, rest)
    ensures last.rendered == m.rendered + Names(doc)
    decreases |doc|
  {
    hide WellFormed, SegmentLines, FilledSegment, AfterSegment, RunFrom;
    if doc == [] {
      last := m;
      assert Lines(doc) + rest == rest;
    } else {
      var g := doc[0];
      assert WellFormed(kind, sections, g);
      var next := AfterSegment(kind, sections, m, g);
      AfterAdds(kind, sections, m, g);
      last := RunsOn(kind, sections, next, doc[1..], rest);
      Associative(SegmentLines(g), Lines(doc[1..]), rest);
      SegmentRuns(kind, sections, m, g, Lines(doc[1..]) + rest);
      FirstName(doc);
    }
  }

  /** A start marker whose offset is no number. */
  lemma BadStartFails(kind: Classifier, sections: Sections, doc: seq<Segment>, line: string, rest: seq<string>)
    requires WellFormedAll(kind, sections, doc) && kind(line).Start? && kind(line).offset.None?
    ensures FillSpec(kind, sections, Lines(doc) + ([line] + rest)) == Failed
  {
    var m := RunsOn(kind, sections, INITIAL, doc, [line] + rest);
    hide Lines;
  }

  /** A section with its start marker, some lines, and what follows. */
  lemma SectionUpTo(kind: Classifier, sections: Sections, doc: seq<Segment>, start: string, body: seq<string>, rest: seq<string>)
    returns (m: Machine)
    requires WellFormedAll(kind, sections, doc) && kind(start).Start? && kind(start).offset.Some?
    requires kind(start).name in sections && kind(start).name != "" && AllText(kind, body)
    ensures m.section == kind(start).name && m.size == kind(start).offset.value && m.body == body
    ensures m.rendered == Names(doc)
    ensures FillSpec(kind, sections, Lines(doc) + ([start] + (body + rest))) ==
            Finish(sections, RunFrom(kind, sections, m, rest))
  {
    var before := RunsOn(kind, sections, INITIAL, doc, [start] + (body + rest));
    var inside := Open(sections, before, start, kind(start).name, kind(start).offset.value);
    assert ([start] + (body + rest))[1..] == body + rest;
    assert RunFrom(kind, sections, before, [start] + (body + rest)) == RunFrom(kind, sections, inside, body + rest);
    hide RunFrom, Lines;
    BodyRuns(kind, sections, inside, body, rest);
    m := inside.(body := inside.body + body, output := inside.output + Shown(body, |inside.body|, inside.offset));
    assert inside.body + body == body;
  }

  /**
   An end marker inside a section makes the text fail if it names another section or its offset is
   no number, and the program panic if it asks for more lines than there are from a ring of two or
   more.
   */
  lemma BadEndFails(kind: Classifier, sections: Sections, doc: seq<Segment>, start: string, body: seq<string>,
                    end: string, rest: seq<string>)
    requires WellFormedAll(kind, sections, doc) && kind(start).Start? && kind(start).offset.Some?
    requires kind(start).name in sections && kind(start).name != "" && AllText(kind, body) && kind(end).End?
    ensures
      var r := FillSpec(kind, sections, Lines(doc) + ([start] + (body + ([end] + rest))));
      var refused := kind(end).offset.None? || kind(end).name != kind(start).name;
      && (refused ==> r == Failed)
      && (!refused && kind(start).offset.value >= 2 && kind(end).offset.value > |body| ==> r == Panicked)
  {
    var m := SectionUpTo(kind, sections, doc, start, body, [end] + rest);
    hide FillSpec, Lines;
  }

  /** A section that is never closed is not filled: the text fails unless all sections were filled before. */
  lemma UnclosedFails(kind: Classifier, sections: Sections, doc: seq<Segment>, start: string, body: seq<string>)
    requires WellFormedAll(kind, sections, doc) && kind(start).Start? && kind(start).offset.Some?
    requires kind(start).name in sections && kind(start).name != "" && AllText(kind, body)
    ensures
      var r := FillSpec(kind, sections, Lines(doc) + ([start] + (body + [])));
      if sections.Keys <= Names(doc) then r.Filled? else r == Failed
  {
    var m := SectionUpTo(kind, sections, doc, start, body, []);
    hide FillSpec, Lines;
  }

  // ----- Filling twice -----

  /** Values have lines, and neither these nor empty lines are markers. */
  predicate Markerless(kind: Classifier, sections: Sections) {
    && kind("").Text?
    && forall name :: name in sections ==> sections[name] != [] && AllText(kind, sections[name])
  }

  predicate LongEnough(g: Segment) {
    g.Section? ==> g.s <= |g.body|
  }

  lemma {:induction false} PutBackAt(body: seq<string>, size: nat, e: nat, i: nat, j: nat)
    requires 0 < size && j < i
    ensures PutBack(body, size, e, i)[j] == Slot(body, size, (|body| - e + j) % size)
  {
    hide Slot;
    if j < i - 1 {
      PutBackAt(body, size, e, i - 1, j);
    }
  }

  lemma {:induction false} SlotFrom(body: seq<string>, size: nat, k: nat)
    requires 0 < size
    ensures Slot(body, size, k) == "" || Slot(body, size, k) in body
  {
    if body != [] {
      SlotFrom(body[..|body| - 1], size, k);
    }
  }

  lemma TailText(kind: Classifier, body: seq<string>, s: nat, e: nat)
    requires kind("").Text? && AllText(kind, body)
    ensures AllText(kind, Tail(body, s, e)) && |Tail(body, s, e)| == if s == 0 then 0 else e
  {
    hide PutBack, Slot;
    if s > 0 {
      forall j | 0 <= j < e
        ensures kind(Tail(body, s, e)[j]).Text?
      {
        PutBackAt(body, s, e, e, j);
        SlotFrom(body, s, (|body| - e + j) % s);
      }
    }
  }

  lemma FilledStaysWellFormed(kind: Classifier, sections: Sections, g: Segment)
    requires WellFormed(kind, sections, g) && Markerless(kind, sections)
    ensures WellFormed(kind, sections, FilledSegment(sections, g))
  {
    if g.Section? {
      TailText(kind, g.body, g.s, g.e);
      hide Tail;
    }
  }

  /** The representative of i among the last s of e places. */
  function Late(i: int, e: int, s: nat): (j: int)
    requires s > 0
    ensures e - s <= j < e && j - i == s * -((i - e + s) / s)
  {
    e - s + (i - e + s) % s
  }

  /** Lines that were put back from a ring are put back from it again. */
  lemma PutBackAgain(body: seq<string>, once: seq<string>, s: nat, e: nat, i: nat)
    requires 0 < s < e && i < e <= |once| && once[|once| - e..] == PutBack(body, s, e, e)
    ensures PutBack(once, s, e, e)[i] == PutBack(body, s, e, e)[i]
  {
    hide PutBack, Slot;
    var j := Late(i, e, s);
    hide Late;
    PutBackAt(body, s, e, e, i);
    PutBackAt(body, s, e, e, j);
    PutBackAt(once, s, e, e, i);
    var q := -((i - e + s) / s);
    SameRemainder(|body| - e + j, |body| - e + i, s, q);
    SameRemainder(|once| - e + j, |once| - e + i, s, q);
    SlotIs(once, s, |once| - e + j);
    assert once[|once| - e + j] == once[|once| - e..][j];
  }

  lemma TailAgain(body: seq<string>, front: seq<string>, s: nat, e: nat)
    requires s <= |body|
    ensures Tail(front + Tail(body, s, e), s, e) == Tail(body, s, e)
  {
    var tail := Tail(body, s, e);
    var once := front + tail;
    if s == 0 {
    } else if e <= s {
      TailIsSuffix(body, s, e);
      TailIsSuffix(once, s, e);
    } else {
      hide PutBack;
      assert once[|once| - e..] == tail;
      forall i | 0 <= i < e
        ensures PutBack(once, s, e, e)[i] == tail[i]
      {
        PutBackAgain(body, once, s, e, i);
      }
    }
  }

  /** Filling a body again changes nothing if it was long enough; otherwise it grows. */
  lemma RefillBody(body: seq<string>, value: seq<string>, s: nat, e: nat)
    requires value != []
    ensures var once := FilledBody(body, value, s, e); var twice := FilledBody(once, value, s, e);
            if s <= |body| then twice == once else |twice| > |once|
  {
    var once := FilledBody(body, value, s, e);
    var front := body[..Min(|body|, s)];
    if s <= |body| {
      TailAgain(body, front + value, s, e);
      hide Tail;
      assert once[..s] == front;
    } else {
      assert |Tail(once, s, e)| == |Tail(body, s, e)| == e;
      hide Tail;
    }
  }

  lemma RefillSegment(kind: Classifier, sections: Sections, g: Segment)
    requires WellFormed(kind, sections, g) && Markerless(kind, sections)
    ensures var once := FilledSegment(sections, g); var twice := FilledSegment(sections, once);
            if LongEnough(g) then twice == once else |SegmentLines(twice)| > |SegmentLines(once)|
  {
    if g.Section? {
      hide FilledBody;
      RefillBody(g.body, sections[g.name], g.s, g.e);
    }
  }

  lemma FilledAllWellFormed(kind: Classifier, sections: Sections, doc: seq<Segment>)
    requires WellFormedAll(kind, sections, doc) && Markerless(kind, sections)
    ensures WellFormedAll(kind, sections, FilledAll(sections, doc))
  {
    hide WellFormed, Markerless;
    forall i | 0 <= i < |doc|
      ensures WellFormed(kind, sections, FilledAll(sections, doc)[i])
    {
      FilledStaysWellFormed(kind, sections, doc[i]);
      FilledAt(sections, doc, i);
    }
  }

  lemma {:induction false} RefillAll(kind: Classifier, sections: Sections, doc: seq<Segment>)
    requires WellFormedAll(kind, sections, doc) && Markerless(kind, sections)
    ensures var once := FilledAll(sections, doc); var twice := FilledAll(sections, once);
            if forall g :: g in doc ==> LongEnough(g) then Lines(twice) == Lines(once)
            else |Lines(twice)| > |Lines(once)|
    decreases |doc|
  {
    hide WellFormed, Markerless, FilledSegment, SegmentLines, LongEnough;
    if doc != [] {
      assert WellFormed(kind, sections, doc[0]);
      RefillSegment(kind, sections, doc[0]);
      RefillAll(kind, sections, doc[1..]);
      var once := FilledAll(sections, doc);
      assert once[0] == FilledSegment(sections, doc[0]) && once[1..] == FilledAll(sections, doc[1..]);
      assert doc == [doc[0]] + doc[1..];
    }
  }

  /**
   With values that are no markers, filling a filled document gives it back if and only if every
   section had at least its start offset of lines.
   */
  lemma FillTwice(kind: Classifier, sections: Sections, doc: seq<Segment>)
    requires WellFormedAll(kind, sections, doc) && Markerless(kind, sections)
    requires FillSpec(kind, sections, Lines(doc)).Filled?
    ensures var once := FillSpec(kind, sections, Lines(doc));
            FillSpec(kind, sections, once.lines) == once <==> forall g :: g in doc ==> LongEnough(g)
  {
    hide FillSpec, Lines, Names, WellFormed, Markerless, LongEnough;
    FillsDocument(kind, sections, doc);
    RefillAll(kind, sections, doc);
    FilledAllWellFormed(kind, sections, doc);
    var filled := FilledAll(sections, doc);
    FillsDocument(kind, sections, filled);
    SameNames(sections, doc);
  }

  function ExampleKind(line: string): Kind {
    if line == "<" then Start("x", Some(1)) else if line == ">" then End("x", Some(0)) else Text
  }

  /** A section with fewer lines than its start offset is filled, and filled differently the second time. */
  lemma ShortSectionGrows()
    ensures
      var sections: Sections := map["x" := ["v"]];
      var once := FillSpec(ExampleKind, sections, ["<", ">"]);
      once.Filled? && FillSpec(ExampleKind, sections, once.lines) != once
  {
    var sections: Sections := map["x" := ["v"]];
    var g := Section("<", "x", 1, [], ">", 0);
    var doc := [g];
    assert WellFormed(ExampleKind, sections, g) && Markerless(ExampleKind, sections);
    assert Lines(doc) == ["<", ">"] by {
      assert SegmentLines(g) == ["<", ">"];
      assert doc[1..] == [];
    }
    assert "x" in Names(doc);
    assert g in doc && !LongEnough(g);
    hide FillSpec, Lines, Names, WellFormed, Markerless, LongEnough;
    FillsDocument(ExampleKind, sections, doc);
    FillTwice(ExampleKind, sections, doc);
  }

  lemma SameNames(sections: Sections, doc: seq<Segment>)
    ensures Names(FilledAll(sections, doc)) == Names(doc)
  {
    var filled := FilledAll(sections, doc);
    forall name
      ensures name in Names(filled) <==> name in Names(doc)
    {
      if name in Names(filled) {
        var i :| 0 <= i < |filled| && filled[i].Section? && filled[i].name == name;
        FilledAt(sections, doc, i);
        assert doc[i] in doc;
      }
      if name in Names(doc) {
        var i :| 0 <= i < |doc| && doc[i].Section? && doc[i].name == name;
        FilledAt(sections, doc, i);
        assert filled[i] in filled;
      }
    }
  }
}
