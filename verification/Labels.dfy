// Prometheus label-value escaping (scripts/backend-decision-observability.py, _escape_label), against the
// unescaping rules of the Prometheus text exposition format 0.0.4.

module Labels {
  import opened Sequences

  /** Python's `replace` of a one-character pattern. */
  function Replace(s: string, c: char, sub: string): string
  {
    if s == [] then [] else (if s[0] == c then sub else [s[0]]) + Replace(s[1..], c, sub)
  }

  const BACKSLASH: string := "\\\\"
  const QUOTE: string := "\\\""
  const NEWLINE: string := "\\n"

  /** Three replacements, one after the other: backslash, then quote, then newline. */
  function EscapeLabel(v: string): string
  {
    Replace(Replace(Replace(v, '\\', BACKSLASH), '"', QUOTE), '\n', NEWLINE)
  }

  function EscapeChar(c: char): string
  {
    if c == '\\' then BACKSLASH else if c == '"' then QUOTE else if c == '\n' then NEWLINE else [c]
  }

  /** The same in one pass, character by character. */
  function Escape(v: string): string
  {
    if v == [] then [] else EscapeChar(v[0]) + Escape(v[1..])
  }

  /** Reading a label value back. None: a dangling backslash, an unknown escape, a raw quote or a raw newline. */
  function Unescape(s: string): Option<string>
  {
    if s == [] then Some([])
    else if s[0] == '"' || s[0] == '\n' then None
    else if s[0] != '\\' then Prepend(s[0], Unescape(s[1..]))
    else if |s| == 1 then None
    else if s[1] == '\\' then Prepend('\\', Unescape(s[2..]))
    else if s[1] == '"' then Prepend('"', Unescape(s[2..]))
    else if s[1] == 'n' then Prepend('\n', Unescape(s[2..]))
    else None
  }

  function Prepend(c: char, rest: Option<string>): Option<string>
  {
    if rest.Some? then Some([c] + rest.value) else None
  }

  lemma {:induction false} ReplaceStep(x: char, rest: string, c: char, sub: string)
    ensures Replace([x] + rest, c, sub) == (if x == c then sub else [x]) + Replace(rest, c, sub)
  {
    assert ([x] + rest)[1..] == rest;
  }

  lemma {:induction false} Regroup(a: string, b: string, c: string)
    ensures (a + b) + c == a + (b + c)
  {
  }

  lemma {:induction false} ReplaceConcat(s: string, t: string, c: char, sub: string)
    ensures Replace(s + t, c, sub) == Replace(s, c, sub) + Replace(t, c, sub)
  {
    if s == [] {
      assert s + t == t;
    } else {
      var x, rest := s[0], s[1..];
      assert s == [x] + rest;
      Regroup([x], rest, t);
      ReplaceStep(x, rest + t, c, sub);
      ReplaceStep(x, rest, c, sub);
      ReplaceConcat(rest, t, c, sub);
      Regroup(if x == c then sub else [x], Replace(rest, c, sub), Replace(t, c, sub));
    }
  }

  /** A later replacement never touches what an earlier one wrote, so the order chosen is the one that works. */
  lemma {:induction false} EscapeCharIsThreeReplaces(c: char)
    ensures EscapeLabel([c]) == EscapeChar(c)
  {
    ReplaceOne(c, '\\', BACKSLASH);
    if c == '\\' {
      ReplacePair('\\', '\\', '"', QUOTE);
      ReplacePair('\\', '\\', '\n', NEWLINE);
    } else {
      ReplaceOne(c, '"', QUOTE);
      ReplacePair('\\', '"', '\n', NEWLINE);
      ReplaceOne(c, '\n', NEWLINE);
    }
  }

  lemma {:induction false} ReplaceOne(a: char, c: char, sub: string)
    ensures Replace([a], c, sub) == if a == c then sub else [a]
  {
    assert [a][1..] == [];
    assert sub + [] == sub;
  }

  /** Text without the pattern is left alone. */
  lemma {:induction false} ReplacePair(a: char, b: char, c: char, sub: string)
    requires a != c && b != c
    ensures Replace([a, b], c, sub) == [a, b]
  {
    ReplaceConcat([a], [b], c, sub);
    ReplaceOne(a, c, sub);
    ReplaceOne(b, c, sub);
    assert [a] + [b] == [a, b];
  }

  /** What is written for one character: a backslash in front of a backslash or a quote, backslash-n for a newline. */
  lemma {:induction false} EscapedForms(c: char)
    ensures c == '\\' ==> EscapeLabel([c]) == ['\\', '\\']
    ensures c == '"' ==> EscapeLabel([c]) == ['\\', '"']
    ensures c == '\n' ==> EscapeLabel([c]) == ['\\', 'n']
    ensures c != '\\' && c != '"' && c != '\n' ==> EscapeLabel([c]) == [c]
  {
    EscapeCharIsThreeReplaces(c);
  }

  lemma {:induction false} SequentialEqualsOnePass(v: string)
    ensures EscapeLabel(v) == Escape(v)
  {
    if v != [] {
      var head, tail := [v[0]], v[1..];
      assert v == head + tail;
      ReplaceConcat(head, tail, '\\', BACKSLASH);
      var h1, t1 := Replace(head, '\\', BACKSLASH), Replace(tail, '\\', BACKSLASH);
      ReplaceConcat(h1, t1, '"', QUOTE);
      ReplaceConcat(Replace(h1, '"', QUOTE), Replace(t1, '"', QUOTE), '\n', NEWLINE);
      EscapeCharIsThreeReplaces(v[0]);
      SequentialEqualsOnePass(tail);
    }
  }

  lemma {:induction false} UnescapeEscapedChar(c: char, rest: string)
    ensures Unescape(EscapeChar(c) + rest) == Prepend(c, Unescape(rest))
  {
    var s := EscapeChar(c) + rest;
    if c == '\\' || c == '"' || c == '\n' {
      assert s[2..] == rest;
    } else {
      assert s[1..] == rest;
    }
  }

  /** Every label value survives the round trip; in particular no raw newline or unescaped quote is ever written. */
  lemma {:induction false} LabelRoundTrip(v: string)
    ensures Unescape(EscapeLabel(v)) == Some(v)
  {
    SequentialEqualsOnePass(v);
    OnePassRoundTrip(v);
  }

  lemma {:induction false} OnePassRoundTrip(v: string)
    ensures Unescape(Escape(v)) == Some(v)
  {
    if v != [] {
      UnescapeEscapedChar(v[0], Escape(v[1..]));
      OnePassRoundTrip(v[1..]);
      assert [v[0]] + v[1..] == v;
    }
  }

  /** The written text holds no raw newline, and each quote directly follows a backslash. */
  lemma {:induction false} EscapedTextIsSafe(v: string)
    ensures var s := EscapeLabel(v);
      && '\n' !in s
      && forall i :: 0 <= i < |s| && s[i] == '"' ==> i > 0 && s[i - 1] == '\\'
  {
    SequentialEqualsOnePass(v);
    OnePassIsSafe(v);
  }

  lemma {:induction false} OnePassIsSafe(v: string)
    ensures var s := Escape(v);
      && '\n' !in s
      && forall i :: 0 <= i < |s| && s[i] == '"' ==> i > 0 && s[i - 1] == '\\'
  {
    if v != [] {
      OnePassIsSafe(v[1..]);
      var head, tail := EscapeChar(v[0]), Escape(v[1..]);
      var s := Escape(v);
      assert s == head + tail;
      forall i | 0 <= i < |s|
        ensures s[i] != '\n' && (s[i] == '"' ==> i > 0 && s[i - 1] == '\\')
      {
        if i >= |head| {
          assert s[i] == tail[i - |head|] && s[i] in tail;
          if s[i] == '"' {
            assert s[i - 1] == tail[i - |head| - 1];
          }
        }
      }
    }
  }
}
