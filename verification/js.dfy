/** The few JavaScript built-ins the client-side code leans on:
    `String.prototype.trim`, `toLowerCase` and `Array.prototype.slice`. */
module Js {
  import Strings
  import Ascii

  /** ECMAScript WhiteSpace and LineTerminator code points: what `trim`
      strips. The space separators are the Unicode category Zs. */
  predicate IsWhitespace(c: char) {
    c == '\t' || c == '\n' || c == 11 as char || c == 12 as char || c == '\r' || c == ' '
    || c == 0xA0 as char || c == 0x1680 as char || (0x2000 as char <= c <= 0x200A as char)
    || c == 0x2028 as char || c == 0x2029 as char || c == 0x202F as char
    || c == 0x205F as char || c == 0x3000 as char || c == 0xFEFF as char
  }

  function Trim(s: string): string {
    Strings.Trim(s, IsWhitespace)
  }

  /** `toLowerCase`, restricted to ASCII letters. */
  function ToLower(s: string): string {
    Ascii.ToLower(s)
  }

  /** Resolves a `slice` bound against a length: negative bounds count from
      the end, and the result is clamped to [0, len]. */
  function SliceBound(b: int, len: nat): (r: nat)
    ensures r <= len
  {
    if b < 0 then (if len + b < 0 then 0 else len + b)
    else if b > len then len else b
  }

  /** `xs.slice(start, end)`: never fails, whatever the bounds. */
  function Slice<T>(xs: seq<T>, start: int, end: int): (r: seq<T>)
    ensures |r| <= |xs|
    ensures 0 <= start <= end <= |xs| ==> r == xs[start..end]
  {
    var from := SliceBound(start, |xs|);
    var to := SliceBound(end, |xs|);
    if to <= from then [] else xs[from..to]
  }
}
