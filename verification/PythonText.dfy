// The string predicates Python applies when it strips and lower-cases text.

module PythonText {

  /** `str.isspace` for one character: what `strip` removes. */
  predicate IsSpace(c: char)
  {
    var n := c as int;
    || 0x09 <= n <= 0x0D || 0x1C <= n <= 0x20 || n == 0x85 || n == 0xA0 || n == 0x1680
    || 0x2000 <= n <= 0x200A || n == 0x2028 || n == 0x2029 || n == 0x202F || n == 0x205F || n == 0x3000
  }

  /** `s.strip() == ""` */
  predicate IsBlank(s: string)
  {
    forall i :: 0 <= i < |s| ==> IsSpace(s[i])
  }

  function LeftStrip(s: string): string
  {
    if s != [] && IsSpace(s[0]) then LeftStrip(s[1..]) else s
  }

  function RightStrip(s: string): string
  {
    if s != [] && IsSpace(s[|s| - 1]) then RightStrip(s[..|s| - 1]) else s
  }

  function Strip(s: string): string
  {
    RightStrip(LeftStrip(s))
  }

  /** Lower-casing of the ASCII letters. */
  function LowerChar(c: char): char
  {
    if 'A' <= c <= 'Z' then (c as int + 32) as char else c
  }

  function Lower(s: string): string
  {
    seq(|s|, i requires 0 <= i < |s| => LowerChar(s[i]))
  }

  /** Testing for blankness is testing that stripping leaves nothing. */
  lemma {:induction false} BlankIffStripsToNothing(s: string)
    ensures IsBlank(s) <==> Strip(s) == []
  {
    LeftStripBlank(s);
    RightStripBlank(LeftStrip(s));
  }

  lemma {:induction false} LeftStripBlank(s: string)
    ensures IsBlank(s) <==> IsBlank(LeftStrip(s))
  {
    if s != [] && IsSpace(s[0]) {
      LeftStripBlank(s[1..]);
      assert s == [s[0]] + s[1..];
    }
  }

  lemma {:induction false} RightStripBlank(s: string)
    ensures IsBlank(s) <==> RightStrip(s) == []
  {
    if s != [] && IsSpace(s[|s| - 1]) {
      RightStripBlank(s[..|s| - 1]);
      assert s == s[..|s| - 1] + [s[|s| - 1]];
    }
  }
}
