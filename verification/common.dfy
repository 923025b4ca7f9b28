/** Small value types and the JavaScript string operations the editor code relies on:
    `String.prototype.trim`, `startsWith`, truthiness of strings, and the
    upper-casing of a single character. */
module Common {

  datatype Option<+T> = None | Some(value: T) {
    function GetOr(default: T): T {
      match this
      case Some(v) => v
      case None => default
    }
  }

  datatype Result<+R, +E> = Ok(value: R) | Err(error: E)

  /** The ECMAScript WhiteSpace and LineTerminator code points: exactly the
      characters `trim` removes. */
  predicate IsJsWhitespace(c: char) {
    || c == '\t' || c == '\n' || c == '\U{000B}' || c == '\U{000C}' || c == '\r'
    || c == ' ' || c == '\U{00A0}' || c == '\U{1680}'
    || ('\U{2000}' <= c <= '\U{200A}')
    || c == '\U{2028}' || c == '\U{2029}' || c == '\U{202F}' || c == '\U{205F}'
    || c == '\U{3000}' || c == '\U{FEFF}'
  }

  /** True when every character is whitespace, i.e. `!s.trim()` in JavaScript. */
  predicate IsBlank(s: string) {
    forall i :: 0 <= i < |s| ==> IsJsWhitespace(s[i])
  }

  function TrimStart(s: string): (r: string)
    ensures |r| <= |s| && r == s[|s| - |r|..]
    ensures |r| > 0 ==> !IsJsWhitespace(r[0])
    ensures IsBlank(s[..|s| - |r|])
  {
    if |s| > 0 && IsJsWhitespace(s[0]) then TrimStart(s[1..]) else s
  }

  function TrimEnd(s: string): (r: string)
    ensures |r| <= |s| && r == s[..|r|]
    ensures |r| > 0 ==> !IsJsWhitespace(r[|r| - 1])
    ensures IsBlank(s[|r|..])
  {
    if |s| > 0 && IsJsWhitespace(s[|s| - 1]) then TrimEnd(s[..|s| - 1]) else s
  }

  /** `s.trim()`: the longest infix of `s` that neither starts nor ends with whitespace. */
  function Trim(s: string): (r: string)
  {
    TrimEnd(TrimStart(s))
  }

  /** `s.startsWith(p)`: a case-sensitive prefix test. */
  predicate StartsWith(s: string, p: string) {
    |p| <= |s| && s[..|p|] == p
  }

  /** `String.prototype.toUpperCase` restricted to one character; only the
      ASCII letters are mapped (see README, "Left out"). */
  function UpperChar(c: char): (r: char)
    ensures 'a' <= c <= 'z' ==> r as int == c as int - 32
    ensures !('a' <= c <= 'z') ==> r == c
  {
    if 'a' <= c <= 'z' then (c as int - 32) as char else c
  }

  /** Trimming leaves an infix of the input with no whitespace at either end,
      and only whitespace is dropped. */
  lemma {:induction false} TrimIsInfix(s: string)
    ensures exists i, j :: 0 <= i <= j <= |s| && Trim(s) == s[i..j]
                           && IsBlank(s[..i]) && IsBlank(s[j..])
    ensures |Trim(s)| > 0 ==> !IsJsWhitespace(Trim(s)[0]) && !IsJsWhitespace(Trim(s)[|Trim(s)| - 1])
  {
    var a := TrimStart(s);
    var i := |s| - |a|;
    var b := TrimEnd(a);
    var j := i + |b|;
    assert a == s[i..];
    assert b == a[..|b|] == s[i..j];
    assert s[j..] == a[|b|..];
    if |b| > 0 {
      assert b[0] == a[0];
    }
  }

  /** The empty-input test of the dialogs: `trim()` is empty exactly when the
      input is all whitespace. */
  lemma TrimEmptyIffBlank(s: string)
    ensures Trim(s) == "" <==> IsBlank(s)
  {
    TrimIsInfix(s);
    if Trim(s) == "" {
      var i, j :| 0 <= i <= j <= |s| && Trim(s) == s[i..j] && IsBlank(s[..i]) && IsBlank(s[j..]);
      assert i == j;
      forall k | 0 <= k < |s| ensures IsJsWhitespace(s[k]) {
        if k < i { assert s[k] == s[..i][k]; } else { assert s[k] == s[j..][k - j]; }
      }
    } else {
      var t := Trim(s);
      var i, j :| 0 <= i <= j <= |s| && t == s[i..j] && IsBlank(s[..i]) && IsBlank(s[j..]);
      assert t[0] == s[i];
    }
  }

  /** Trimming twice is trimming once. */
  lemma TrimIdempotent(s: string)
    ensures Trim(Trim(s)) == Trim(s)
  {
    var t := Trim(s);
    TrimIsInfix(s);
    if |t| > 0 {
      assert TrimStart(t) == t;
      assert TrimEnd(t) == t;
    }
  }

  /** A prefix that starts with a non-whitespace character survives `trim`. */
  lemma TrimKeepsSolidPrefix(s: string, p: string)
    requires StartsWith(s, p) && |p| > 0 && !IsJsWhitespace(p[0]) && !IsJsWhitespace(p[|p| - 1])
    ensures StartsWith(Trim(s), p)
  {
    assert TrimStart(s) == s;
    TrimEndKeepsPrefix(s, p);
  }

  lemma {:induction false} TrimEndKeepsPrefix(s: string, p: string)
    requires StartsWith(s, p) && |p| > 0 && !IsJsWhitespace(p[|p| - 1])
    ensures StartsWith(TrimEnd(s), p)
    decreases |s|
  {
    if |s| > 0 && IsJsWhitespace(s[|s| - 1]) {
      assert |s| > |p|;
      var s' := s[..|s| - 1];
      assert s'[..|p|] == s[..|p|];
      TrimEndKeepsPrefix(s', p);
    }
  }
}
