/** Lower-casing restricted to ASCII letters, as both PHP's `strtolower`
    and the client's `toLowerCase` are read in this model. */
module Ascii {
  function LowerChar(c: char): char {
    if 'A' <= c <= 'Z' then (c as int + 32) as char else c
  }

  function ToLower(s: string): string {
    seq(|s|, i requires 0 <= i < |s| => LowerChar(s[i]))
  }
}
