/** SQLite's GLOB operator, which access checks use to compare paths. */
module Glob {
  import opened Bytes

  /**
   The rest of a character class after its opening bracket and an optional caret, from index i:
   whether c is in it, and the index after the closing bracket. None when it is not closed.
   */
  function ClassBody(pat: string, i: nat, c: char, seen: bool, prior: Option<char>): (r: Option<(bool, nat)>)
    requires i <= |pat|
    ensures r.Some? ==> i < r.value.1 <= |pat| && pat[r.value.1 - 1] == ']'
    decreases |pat| - i
  {
    if i == |pat| then None
    else if pat[i] == ']' then Some((seen, i + 1))
    else if pat[i] == '-' && prior.Some? && i + 1 < |pat| && pat[i + 1] != ']' then
      ClassBody(pat, i + 2, c, seen || prior.value <= c <= pat[i + 1], None)
    else ClassBody(pat, i + 1, c, seen || pat[i] == c, Some(pat[i]))
  }

  /** A character class: whether c matches it, and the index after it. */
  function Class(pat: string, c: char): (r: Option<(bool, nat)>)
    requires pat != "" && pat[0] == '['
    ensures r.Some? ==> 1 < r.value.1 <= |pat| && pat[r.value.1 - 1] == ']'
  {
    var invert := |pat| > 1 && pat[1] == '^';
    var i := if invert then 2 else 1;
    var first := i < |pat| && pat[i] == ']';
    var body := if first then ClassBody(pat, i + 1, c, c == ']', None) else ClassBody(pat, i, c, false, None);
    if body.None? then None else Some((body.value.0 != invert, body.value.1))
  }

  predicate Matches(pat: string, text: string)
    decreases |pat| + |text|
  {
    if pat == "" then text == ""
    else if pat[0] == '*' then Matches(pat[1..], text) || (text != "" && Matches(pat, text[1..]))
    else if text == "" then false
    else if pat[0] == '?' then Matches(pat[1..], text[1..])
    else if pat[0] == '[' then
      var matched := Class(pat, text[0]);
      matched.Some? && matched.value.0 && Matches(pat[matched.value.1..], text[1..])
    else pat[0] == text[0] && Matches(pat[1..], text[1..])
  }

  predicate Literal(s: string) {
    forall i :: 0 <= i < |s| ==> s[i] != '*' && s[i] != '?' && s[i] != '['
  }

  lemma {:induction false} StarMatchesAll(text: string)
    ensures Matches("*", text)
  {
    if text == "" {
      assert Matches("*"[1..], text);
    } else {
      StarMatchesAll(text[1..]);
    }
  }

  /** Literal characters at the front of a pattern match only themselves. */
  lemma {:induction false} LiteralFront(front: string, rest: string, text: string)
    requires Literal(front)
    ensures Matches(front + rest, text) <==> front <= text && Matches(rest, text[|front|..])
  {
    var pat := front + rest;
    if front == "" {
      assert pat == rest && text[0..] == text;
    } else if text != "" && front[0] == text[0] {
      assert pat[1..] == front[1..] + rest;
      LiteralFront(front[1..], rest, text[1..]);
      assert front == [front[0]] + front[1..] && text == [text[0]] + text[1..];
      assert front <= text ==> text[1..][|front[1..]|..] == text[|front|..];
    }
  }

  /** For a literal path, matching "path*" is having the path as a prefix. */
  lemma PrefixExactly(path: string, text: string)
    requires Literal(path)
    ensures Matches(path + "*", text) <==> path <= text
  {
    LiteralFront(path, "*", text);
    if path <= text {
      StarMatchesAll(text[|path|..]);
    }
  }

  /** A pattern that ends in a star goes on matching when the text gets longer. */
  lemma {:induction false} StarExtends(pat: string, text: string, more: string)
    requires pat != "" && pat[|pat| - 1] == '*' && Matches(pat, text)
    ensures Matches(pat, text + more)
    decreases |pat| + |text|
  {
    if pat == "*" {
      StarMatchesAll(text + more);
    } else if pat[0] == '*' && Matches(pat[1..], text) {
      StarExtends(pat[1..], text, more);
    } else {
      assert (text + more)[1..] == text[1..] + more;
      if pat[0] == '*' {
        StarExtends(pat, text[1..], more);
      } else if pat[0] == '[' {
        StarExtends(pat[Class(pat, text[0]).value.1..], text[1..], more);
      } else {
        StarExtends(pat[1..], text[1..], more);
      }
    }
  }
}
