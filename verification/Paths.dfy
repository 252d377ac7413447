/** Slash-separated relative paths: splitting, joining and the cleaning done by filepath.Clean. */
module Paths {
  import opened Bytes

  const SLASH: byte := 0x2F
  const DOT: seq<byte> := [0x2E]
  const DOTDOT: seq<byte> := [0x2E, 0x2E]

  type Path = seq<byte>

  /** Position of the first slash, or the length. */
  function FindSlash(p: Path): (k: nat)
    ensures k <= |p| && (k < |p| ==> p[k] == SLASH)
    ensures forall i :: 0 <= i < k ==> p[i] != SLASH
  {
    if p == [] || p[0] == SLASH then 0 else 1 + FindSlash(p[1..])
  }

  function Split(p: Path): (es: seq<Path>)
    ensures es != []
    decreases |p|
  {
    var k := FindSlash(p);
    if k == |p| then [p] else [p[..k]] + Split(p[k + 1..])
  }

  function Join(es: seq<Path>): Path {
    if es == [] then [] else if |es| == 1 then es[0] else es[0] + [SLASH] + Join(es[1..])
  }

  predicate Plain(es: seq<Path>) {
    forall i :: 0 <= i < |es| ==> SLASH !in es[i]
  }

  lemma {:induction false} SplitPlain(p: Path)
    ensures Plain(Split(p))
    decreases |p|
  {
    var k := FindSlash(p);
    hide FindSlash;
    if k < |p| {
      SplitPlain(p[k + 1..]);
    }
  }

  lemma {:induction false} SplitJoin(es: seq<Path>)
    requires es != [] && Plain(es)
    ensures Split(Join(es)) == es
    decreases |es|
  {
    var p := Join(es);
    hide FindSlash;
    if |es| == 1 {
      assert FindSlash(p) == |p|;
    } else {
      SplitJoin(es[1..]);
      FirstSlash(es[0], Join(es[1..]));
      assert p[..|es[0]|] == es[0] && p[|es[0]| + 1..] == Join(es[1..]);
    }
  }

  lemma FirstSlash(e: Path, rest: Path)
    requires SLASH !in e
    ensures FindSlash(e + [SLASH] + rest) == |e|
  {
    hide FindSlash;
    var p := e + [SLASH] + rest;
    assert p[|e|] == SLASH;
    assert forall i :: 0 <= i < |e| ==> p[i] == e[i];
  }

  // ----- Cleaning -----

  function Push(stack: seq<Path>, e: Path): seq<Path> {
    if e == [] || e == DOT then stack
    else if e == DOTDOT && stack != [] && stack[|stack| - 1] != DOTDOT then stack[..|stack| - 1]
    else stack + [e]
  }

  function Fold(es: seq<Path>): seq<Path> {
    if es == [] then [] else Push(Fold(es[..|es| - 1]), es[|es| - 1])
  }

  /** Elements of the cleaned form of a relative path. */
  function Clean(p: Path): (es: seq<Path>)
    ensures es != []
  {
    var es := Fold(Split(p));
    if es == [] then [DOT] else es
  }

  /** Steps up come first, nothing is empty or stands for the current directory. */
  predicate Canonical(es: seq<Path>) {
    && (forall i :: 0 <= i < |es| ==> es[i] != [] && es[i] != DOT)
    && (forall i, j :: 0 <= i < j < |es| && es[j] == DOTDOT ==> es[i] == DOTDOT)
  }

  predicate Cleaned(es: seq<Path>) {
    es != [] && Plain(es) && (Canonical(es) || es == [DOT])
  }

  lemma {:induction false} FoldCanonical(es: seq<Path>)
    requires Plain(es)
    ensures Canonical(Fold(es)) && Plain(Fold(es))
    decreases |es|
  {
    if es != [] {
      FoldCanonical(es[..|es| - 1]);
    }
  }

  lemma CleanCleaned(p: Path)
    ensures Cleaned(Clean(p))
  {
    SplitPlain(p);
    FoldCanonical(Split(p));
    hide Fold, Split;
  }

  lemma {:induction false} FoldKeeps(es: seq<Path>)
    requires Canonical(es)
    ensures Fold(es) == es
    decreases |es|
  {
    if es != [] {
      var n := |es| - 1;
      FoldKeeps(es[..n]);
      assert es == es[..n] + [es[n]];
    }
  }

  /** Cleaning the joined form of leading elements of a clean path changes nothing. */
  lemma CleanPrefix(es: seq<Path>, i: nat)
    requires Cleaned(es) && 1 <= i <= |es|
    ensures Cleaned(es[..i]) && Clean(Join(es[..i])) == es[..i] == Split(Join(es[..i]))
    ensures Join(es[..i]) != [] && Join(es[..i])[0] != SLASH
  {
    var front := es[..i];
    SplitJoin(front);
    JoinStarts(front);
    if es == [DOT] {
      assert front == [DOT];
      assert Fold(front) == Push(Fold([]), DOT);
    } else {
      FoldKeeps(front);
    }
  }

  lemma JoinStarts(es: seq<Path>)
    requires es != [] && Plain(es) && es[0] != []
    ensures Join(es) != [] && Join(es)[0] != SLASH
  {
    assert Join(es)[0] == es[0][0];
  }

  lemma {:induction false} JoinSplit(p: Path)
    ensures Join(Split(p)) == p
    decreases |p|
  {
    var k := FindSlash(p);
    hide FindSlash;
    if k < |p| {
      var rest := p[k + 1..];
      JoinSplit(rest);
      assert Split(p) == [p[..k]] + Split(rest);
      assert Split(p)[1..] == Split(rest);
      assert p == p[..k] + [SLASH] + rest;
    }
  }

  // ----- Cleaning keeps the place a path leads to -----

  /** A place, seen from a directory: so many levels up, then down these names. */
  datatype Place = Place(ups: nat, names: seq<Path>)

  function Move(at: Place, e: Path): Place {
    if e == [] || e == [0x2E] then at
    else if e == [0x2E, 0x2E] then
      if at.names == [] then at.(ups := at.ups + 1) else at.(names := at.names[..|at.names| - 1])
    else at.(names := at.names + [e])
  }

  function Walk(es: seq<Path>): Place {
    if es == [] then Place(0, []) else Move(Walk(es[..|es| - 1]), es[|es| - 1])
  }

  lemma WalkPush(stack: seq<Path>, e: Path)
    requires Canonical(stack)
    ensures Walk(Push(stack, e)) == Move(Walk(stack), e)
  {
    assert (stack + [e])[..|stack|] == stack;
    if e == DOTDOT && stack != [] && stack[|stack| - 1] != DOTDOT {
      var front, last := stack[..|stack| - 1], stack[|stack| - 1];
      var at := Walk(front);
      assert Walk(stack) == at.(names := at.names + [last]);
      assert (at.names + [last])[..|at.names|] == at.names;
    }
    if e == DOTDOT && (stack == [] || stack[|stack| - 1] == DOTDOT) {
      OnlyUps(stack);
    }
  }

  lemma {:induction false} OnlyUps(stack: seq<Path>)
    requires Canonical(stack) && (stack == [] || stack[|stack| - 1] == DOTDOT)
    ensures Walk(stack).names == []
    decreases |stack|
  {
    if stack != [] {
      OnlyUps(stack[..|stack| - 1]);
    }
  }

  lemma {:induction false} WalkFold(es: seq<Path>)
    requires Plain(es)
    ensures Walk(Fold(es)) == Walk(es)
    decreases |es|
  {
    if es != [] {
      var front := es[..|es| - 1];
      WalkFold(front);
      FoldCanonical(front);
      hide Walk, Push;
      WalkPush(Fold(front), es[|es| - 1]);
      assert Walk(es) == Move(Walk(front), es[|es| - 1]) by { WalkLast(es); }
      assert Fold(es) == Push(Fold(front), es[|es| - 1]);
    }
  }

  lemma WalkLast(es: seq<Path>)
    requires es != []
    ensures Walk(es) == Move(Walk(es[..|es| - 1]), es[|es| - 1])
  {
  }

  /** The cleaned elements lead where the path leads. */
  lemma CleanLeads(p: Path)
    ensures Walk(Clean(p)) == Walk(Split(p))
  {
    SplitPlain(p);
    WalkFold(Split(p));
    hide Split, Fold;
  }
}
