/** Backslash quoting, as form headers and authentication parameters use it. */
module Quoting {

  function BackslashChar(c: char): string {
    if c == '"' || c == '\\' then ['\\', c] else [c]
  }

  function Backslashed(s: string): string {
    if s == [] then "" else BackslashChar(s[0]) + Backslashed(s[1..])
  }

  lemma {:induction false} BackslashedSnoc(s: string, c: char)
    ensures Backslashed(s + [c]) == Backslashed(s) + BackslashChar(c)
  {
    hide BackslashChar;
    if s == [] {
      assert s + [c] == [c];
    } else {
      assert (s + [c])[1..] == s[1..] + [c];
      BackslashedSnoc(s[1..], c);
    }
  }

  /** The text up to the closing quote, unescaped, and what follows the quote. */
  function Quoted(s: string): (r: (string, string))
    ensures |r.1| <= |s|
  {
    if s == [] then ("", "")
    else if s[0] == '"' then ("", s[1..])
    else if s[0] == '\\' then
      if |s| == 1 then ("", "")
      else var (v, rest) := Quoted(s[2..]); ([s[1]] + v, rest)
    else var (v, rest) := Quoted(s[1..]); ([s[0]] + v, rest)
  }

  /** Quoting and reading undo each other, whatever follows the closing quote. */
  lemma {:induction false} QuotedBack(s: string, rest: string)
    ensures Quoted(Backslashed(s) + ['"'] + rest) == (s, rest)
  {
    var t := Backslashed(s) + ['"'] + rest;
    if s == [] {
      assert t == ['"'] + rest;
    } else {
      QuotedBack(s[1..], rest);
      var tail := Backslashed(s[1..]) + ['"'] + rest;
      assert t == BackslashChar(s[0]) + tail;
      if s[0] == '"' || s[0] == '\\' {
        assert t[2..] == tail;
      } else {
        assert t[1..] == tail;
      }
      assert [s[0]] + s[1..] == s;
    }
  }
}
