/** Removing the Markdown fence a language model may put around its JSON. */
module Fences {

  /** What `str.strip` removes. */
  predicate IsSpace(c: char) {
    var n := c as int;
    9 <= n <= 13 || 28 <= n <= 32 || n == 0x85 || n == 0xA0 || n == 0x1680
    || 0x2000 <= n <= 0x200A || n == 0x2028 || n == 0x2029 || n == 0x202F || n == 0x205F || n == 0x3000
  }

  predicate AllSpace(s: string) {
    forall i :: 0 <= i < |s| ==> IsSpace(s[i])
  }

  function StripLeft(s: string): string {
    if s != [] && IsSpace(s[0]) then StripLeft(s[1..]) else s
  }

  function StripRight(s: string): string {
    if s != [] && IsSpace(s[|s| - 1]) then StripRight(s[..|s| - 1]) else s
  }

  function Strip(s: string): string {
    StripRight(StripLeft(s))
  }

  /** `s.split("\n")`: never empty. */
  function Split(s: string): (lines: seq<string>)
    ensures lines != []
  {
    if s == [] then [[]]
    else
      var rest := Split(s[1..]);
      if s[0] == '\n' then [[]] + rest else [[s[0]] + rest[0]] + rest[1..]
  }

  /** `"\n".join(lines)`. */
  function Join(lines: seq<string>): string {
    if lines == [] then [] else if |lines| == 1 then lines[0] else lines[0] + "\n" + Join(lines[1..])
  }

  const FENCE := "```"

  /** Python's `lines[1:-1]`. */
  function Inner(lines: seq<string>): seq<string> {
    if |lines| < 2 then [] else lines[1..|lines| - 1]
  }

  /** The first part of `_parse_response`. */
  function Unfence(raw: string): string {
    var text := Strip(raw);
    if FENCE <= text then
      var lines := Split(text);
      Join(if Strip(lines[|lines| - 1]) == FENCE then Inner(lines) else lines[1..])
    else text
  }

  lemma {:induction false} JoinSplit(s: string)
    ensures Join(Split(s)) == s
  {
    if s != [] {
      var rest := Split(s[1..]);
      JoinSplit(s[1..]);
      if s[0] == '\n' {
        assert ([[]] + rest)[1..] == rest;
        assert s == "\n" + s[1..];
      } else {
        assert ([[s[0]] + rest[0]] + rest[1..])[1..] == rest[1..];
        assert s == [s[0]] + s[1..];
      }
    }
  }

  lemma SplitNewline(t: string)
    ensures Split("\n" + t) == [[]] + Split(t)
  {
    assert ("\n" + t)[1..] == t;
  }

  lemma SplitChar(c: char, t: string)
    requires c != '\n'
    ensures Split([c] + t) == [[c] + Split(t)[0]] + Split(t)[1..]
  {
    assert ([c] + t)[1..] == t;
  }

  /** Splitting distributes over a newline between two texts. */
  lemma {:induction false} SplitAppend(a: string, b: string)
    ensures Split(a + "\n" + b) == Split(a) + Split(b)
  {
    if a == [] {
      assert a + "\n" + b == "\n" + b;
      SplitNewline(b);
    } else {
      var rest := a[1..] + "\n" + b;
      SplitAppend(a[1..], b);
      assert a == [a[0]] + a[1..];
      assert a + "\n" + b == [a[0]] + rest;
      if a[0] == '\n' {
        SplitAfterNewline(a, rest, b);
      } else {
        SplitAfterChar(a, rest, b);
      }
    }
  }

  lemma SplitAfterNewline(a: string, rest: string, b: string)
    requires a != [] && a[0] == '\n' && Split(rest) == Split(a[1..]) + Split(b)
    ensures Split([a[0]] + rest) == Split(a) + Split(b)
  {
    SplitNewline(rest);
    assert [a[0]] + rest == "\n" + rest;
  }

  lemma SplitAfterChar(a: string, rest: string, b: string)
    requires a != [] && a[0] != '\n' && Split(rest) == Split(a[1..]) + Split(b)
    ensures Split([a[0]] + rest) == Split(a) + Split(b)
  {
    SplitChar(a[0], rest);
    assert Split(rest)[0] == Split(a[1..])[0];
    assert Split(rest)[1..] == Split(a[1..])[1..] + Split(b);
  }

  lemma {:induction false} SplitLine(s: string)
    requires '\n' !in s
    ensures Split(s) == [s]
  {
    if s != [] {
      SplitLine(s[1..]);
      assert s == [s[0]] + s[1..];
    }
  }

  lemma {:induction false} StripLeftSpace(w: string, s: string)
    requires AllSpace(w) && s != [] && !IsSpace(s[0])
    ensures StripLeft(w + s) == s
  {
    if w == [] {
      assert w + s == s;
    } else {
      assert (w + s)[1..] == w[1..] + s;
      StripLeftSpace(w[1..], s);
    }
  }

  lemma {:induction false} StripRightSpace(s: string, w: string)
    requires AllSpace(w) && s != [] && !IsSpace(s[|s| - 1])
    ensures StripRight(s + w) == s
  {
    if w == [] {
      assert s + w == s;
    } else {
      var n := |w| - 1;
      assert (s + w)[..|s| + n] == s + w[..n];
      StripRightSpace(s, w[..n]);
    }
  }

  lemma StripAround(w1: string, s: string, w2: string)
    requires AllSpace(w1) && AllSpace(w2) && s != [] && !IsSpace(s[0]) && !IsSpace(s[|s| - 1])
    ensures Strip(w1 + s + w2) == s
  {
    assert w1 + s + w2 == w1 + (s + w2);
    StripLeftSpace(w1, s + w2);
    StripRightSpace(s, w2);
  }

  /** A fenced body is recovered exactly, whatever it contains, whatever tag
      the fence has and whatever space is around it. */
  lemma FencedBodyIsRecovered(w1: string, tag: string, body: string, w2: string)
    requires AllSpace(w1) && AllSpace(w2) && '\n' !in tag
    ensures Unfence(w1 + (FENCE + tag + "\n" + body + "\n" + FENCE) + w2) == body
  {
    var text := FENCE + tag + "\n" + body + "\n" + FENCE;
    assert text[0] == '`' && text[|text| - 1] == '`';
    StripAround(w1, text, w2);
    assert FENCE <= text;
    SplitAppend(FENCE + tag + "\n" + body, FENCE);
    SplitAppend(FENCE + tag, body);
    SplitLine(FENCE + tag);
    SplitLine(FENCE);
    StripAround([], FENCE, []);
    assert [] + FENCE + [] == FENCE;
    var lines := [FENCE + tag] + Split(body) + [FENCE];
    assert Split(text) == lines;
    assert Inner(lines) == Split(body);
    JoinSplit(body);
  }

  lemma {:induction false} AllSpaceGoes(w: string)
    requires AllSpace(w)
    ensures Strip(w) == []
  {
    if w != [] {
      AllSpaceGoes(w[1..]);
    }
  }

  /** A reply without a fence loses the space around it and nothing else. */
  lemma PlainReplyIsKept(w1: string, s: string, w2: string)
    requires AllSpace(w1) && AllSpace(w2)
    requires s != [] && !IsSpace(s[0]) && !IsSpace(s[|s| - 1]) && !(FENCE <= s)
    ensures Unfence(w1 + s + w2) == s && Unfence(w1) == []
  {
    StripAround(w1, s, w2);
    AllSpaceGoes(w1);
  }

  /** Without a closing fence only the first line goes. */
  lemma UnclosedFence(tag: string, body: string)
    requires '\n' !in tag
    requires var t := FENCE + tag + "\n" + body; Strip(t) == t
    requires var lines := Split(body); Strip(lines[|lines| - 1]) != FENCE
    ensures Unfence(FENCE + tag + "\n" + body) == body
  {
    var text := FENCE + tag + "\n" + body;
    SplitAppend(FENCE + tag, body);
    SplitLine(FENCE + tag);
    assert Split(text)[1..] == Split(body);
    JoinSplit(body);
  }
}
