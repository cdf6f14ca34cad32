/**
 * Character classes and string operations as JavaScript defines them for the code modelled
 * here: `\d`, `\w`, `String.prototype.trim`, `toLowerCase` on ASCII, `split("@")[0]` and
 * `match` with a literal pattern.
 */
module Text {

  /** `\d` and `[0-9]` (without the `u` flag both are ASCII only). */
  predicate IsDigit(c: char)
  {
    '0' <= c <= '9'
  }

  /** `/^\d*$/`: the empty string qualifies. */
  predicate AllDigits(s: string)
  {
    forall i :: 0 <= i < |s| ==> IsDigit(s[i])
  }

  /** `/^\d+$/` and `/^[0-9]+$/`. */
  predicate IsNumeral(s: string)
  {
    |s| > 0 && AllDigits(s)
  }

  /** `\w`: ASCII letters, digits and the underscore. */
  predicate IsWordChar(c: char)
  {
    ('a' <= c <= 'z') || ('A' <= c <= 'Z') || IsDigit(c) || c == '_'
  }

  /** The WhiteSpace and LineTerminator code points that `String.prototype.trim` strips. */
  predicate IsSpace(c: char)
  {
    c == '\t' || c == '\n' || c == '\U{000B}' || c == '\U{000C}' || c == '\r' || c == ' '
    || c == '\U{00A0}' || c == '\U{1680}' || ('\U{2000}' <= c <= '\U{200A}')
    || c == '\U{2028}' || c == '\U{2029}' || c == '\U{202F}' || c == '\U{205F}'
    || c == '\U{3000}' || c == '\U{FEFF}'
  }

  predicate Blank(s: string)
  {
    forall i :: 0 <= i < |s| ==> IsSpace(s[i])
  }

  function TrimStart(s: string): (r: string)
    ensures r == "" <==> Blank(s)
    ensures r != "" ==> !IsSpace(r[0])
  {
    if |s| > 0 && IsSpace(s[0]) then TrimStart(s[1..]) else s
  }

  function TrimEnd(s: string): (r: string)
    ensures r == "" <==> Blank(s)
  {
    if |s| > 0 && IsSpace(s[|s| - 1]) then TrimEnd(s[..|s| - 1]) else s
  }

  /** `String.prototype.trim`. */
  function Trim(s: string): string
  {
    TrimEnd(TrimStart(s))
  }

  /** The guards `!text?.trim()` and `s.trim() === ""` reject exactly the all-white-space strings. */
  lemma TrimEmptyIffBlank(s: string)
    ensures Trim(s) == "" <==> Blank(s)
  {
    var t := TrimStart(s);
    if t != "" {
      assert !IsSpace(t[0]);
      assert !Blank(t);
    }
  }

  /** `toLowerCase` on one ASCII character; every other character is left alone. */
  function LowerChar(c: char): char
  {
    if 'A' <= c <= 'Z' then (c as int + 32) as char else c
  }

  function Lower(s: string): (r: string)
    ensures |r| == |s|
    ensures forall i :: 0 <= i < |s| ==> r[i] == LowerChar(s[i])
  {
    seq(|s|, i requires 0 <= i < |s| => LowerChar(s[i]))
  }

  /** `s.split("@")[0]`: everything before the first `@`, or all of `s` when it has none. */
  function BeforeAt(s: string): (r: string)
    ensures |r| <= |s| && r == s[..|r|]
    ensures '@' !in r
    ensures |r| < |s| ==> s[|r|] == '@'
  {
    if |s| == 0 || s[0] == '@' then "" else [s[0]] + BeforeAt(s[1..])
  }

  /** A run of digits followed by an `@`-led tail splits at that `@`. */
  lemma BeforeAtDigits(d: string, rest: string)
    requires AllDigits(d)
    requires |rest| > 0 && rest[0] == '@'
    ensures BeforeAt(d + rest) == d
  {
    var s := d + rest;
    var r := BeforeAt(s);
    assert forall i :: 0 <= i < |d| ==> s[i] == d[i] && s[i] != '@';
    assert s[|d|] == '@';
  }

  /** `s.match("image.*") !== null`: the pattern matches wherever `sub` occurs. */
  predicate Contains(s: string, sub: string)
  {
    |sub| <= |s| && (s[..|sub|] == sub || Contains(s[1..], sub))
  }
}
