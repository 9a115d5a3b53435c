/** The Rust string operations the modelled code relies on, over sequences of Unicode scalar values. */
module Strings {
  import opened Options
  import Rows

  /** The `White_Space` property, which Rust's `char::is_whitespace` tests. */
  predicate IsWhitespace(c: char) {
    || 0x09 as char <= c <= 0x0D as char
    || c == ' '
    || c == 0x85 as char
    || c == 0xA0 as char
    || c == 0x1680 as char
    || 0x2000 as char <= c <= 0x200A as char
    || c == 0x2028 as char
    || c == 0x2029 as char
    || c == 0x202F as char
    || c == 0x205F as char
    || c == 0x3000 as char
  }

  function TrimStart(s: string): string {
    if s != [] && IsWhitespace(s[0]) then TrimStart(s[1..]) else s
  }

  function TrimEnd(s: string): string {
    if s != [] && IsWhitespace(s[|s| - 1]) then TrimEnd(s[..|s| - 1]) else s
  }

  function Trim(s: string): string {
    TrimEnd(TrimStart(s))
  }

  predicate StartsWith(s: string, pat: string) {
    pat <= s
  }

  predicate EndsWith(s: string, pat: string) {
    |pat| <= |s| && s[|s| - |pat|..] == pat
  }

  /** `str::strip_prefix`. */
  function StripPrefix(s: string, pat: string): Option<string> {
    if StartsWith(s, pat) then Some(s[|pat|..]) else None
  }

  /** `to_ascii_lowercase` on one character. */
  function LowerAscii(c: char): char {
    if 'A' <= c <= 'Z' then (c as int + 32) as char else c
  }

  predicate EqIgnoreAsciiCase(a: string, b: string) {
    |a| == |b| && forall i :: 0 <= i < |a| ==> LowerAscii(a[i]) == LowerAscii(b[i])
  }

  /** A terminated line without its optional carriage return. */
  function StripCR(line: string): string {
    if EndsWith(line, "\r") then line[..|line| - 1] else line
  }

  function StripAll(rows: seq<string>): seq<string> {
    seq(|rows|, i requires 0 <= i < |rows| => StripCR(rows[i]))
  }

  /** `str::lines`: rows lose a carriage return before their newline, and a final newline ends the last
      line rather than opening another. */
  function Lines(s: string): seq<string> {
    var rows := Rows.Split(s);
    var n := |rows| - 1;
    StripAll(rows[..n]) + if rows[n] == "" then [] else [rows[n]]
  }
}
