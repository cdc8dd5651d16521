/** The few PHP language rules the server-side code leans on: which strings
    are "empty" (falsy), what `trim` strips, what `strtolower` maps and
    what `basename` returns. */
module Php {
  import opened Strings
  import Ascii

  /** PHP's `empty($s)` and `!$s` for a string: both "" and "0" are falsy. */
  predicate EmptyString(s: string) {
    s == "" || s == "0"
  }

  /** Truthiness of a value that is either `null` or a string. */
  predicate Truthy(v: Option<string>) {
    v.Some? && !EmptyString(v.value)
  }

  /** The characters PHP's `trim` strips by default: space, tab, newline,
      carriage return, NUL and vertical tab. */
  predicate IsTrimChar(c: char) {
    c == ' ' || c == '\t' || c == '\n' || c == '\r' || c == 0 as char || c == 11 as char
  }

  function Trim(s: string): string {
    Strings.Trim(s, IsTrimChar)
  }

  /** `strtolower`, which maps ASCII letters only. */
  function ToLower(s: string): string {
    Ascii.ToLower(s)
  }

  /** A string that neither starts nor ends with a trimmed character is left
      alone by `trim`. */
  lemma TrimKeeps(s: string)
    requires s != [] && !IsTrimChar(s[0]) && !IsTrimChar(s[|s| - 1])
    ensures Trim(s) == s
  {
    assert TrimStart(s, IsTrimChar) == s;
  }

  function StripTrailingSlashes(s: string): string {
    if |s| > 0 && s[|s| - 1] == '/' then StripTrailingSlashes(s[..|s| - 1]) else s
  }

  /** The part of `s` after its last '/' (all of `s` when it has none). */
  function AfterLastSlash(s: string): (r: string)
    ensures EndsWith(s, r)
    ensures '/' !in r
    ensures |r| < |s| ==> s[|s| - |r| - 1] == '/'
  {
    if s == [] then []
    else if s[|s| - 1] == '/' then []
    else AfterLastSlash(s[..|s| - 1]) + [s[|s| - 1]]
  }

  /** PHP's `basename` on a '/'-separated path: trailing slashes are
      dropped, then everything up to the last remaining '/' is. */
  function BaseName(path: string): string {
    AfterLastSlash(StripTrailingSlashes(path))
  }

  /** The base name of `dir/name` is `name` whenever `name` is a non-empty
      single path component, whatever the directory. */
  lemma {:induction false} BaseNameOfChild(dir: string, name: string)
    requires name != [] && '/' !in name
    ensures BaseName(dir + "/" + name) == name
  {
    var p := dir + "/" + name;
    assert p[|p| - 1] == name[|name| - 1];
    assert StripTrailingSlashes(p) == p;
    AfterLastSlashOfChild(dir + "/", name);
  }

  lemma {:induction false} AfterLastSlashOfChild(prefix: string, name: string)
    requires |prefix| > 0 && prefix[|prefix| - 1] == '/'
    requires '/' !in name
    ensures AfterLastSlash(prefix + name) == name
  {
    if name == [] {
      assert prefix + name == prefix;
    } else {
      var p := prefix + name;
      assert p[..|p| - 1] == prefix + name[..|name| - 1];
      AfterLastSlashOfChild(prefix, name[..|name| - 1]);
      assert name[..|name| - 1] + [name[|name| - 1]] == name;
    }
  }
}
