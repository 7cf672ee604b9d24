/** Local server ids (js/setup.js): the sanitiser that turns what the user
    typed into an id of the form `[a-z0-9_-]*` with no doubled `-` and no
    `-` or `_` at either end, the hub's key normalisation, and the id a
    `ws://local/<path>` URL names. */
module ServerId {

  // ---------------------------------------------------------------------
  // Character classes
  // ---------------------------------------------------------------------

  /** The characters String.prototype.trim removes: the ECMAScript
      WhiteSpace and LineTerminator code points. */
  predicate IsJsSpace(c: char)
  {
    var n := c as int;
    || 0x09 <= n <= 0x0D || n == 0x20 || n == 0xA0 || n == 0x1680
    || 0x2000 <= n <= 0x200A || n == 0x2028 || n == 0x2029 || n == 0x202F
    || n == 0x205F || n == 0x3000 || n == 0xFEFF
  }

  /** `[a-zA-Z0-9\-_]`: the characters the sanitiser keeps. */
  predicate IsIdChar(c: char)
  {
    ('a' <= c <= 'z') || ('A' <= c <= 'Z') || ('0' <= c <= '9') || c == '-' || c == '_'
  }

  /** The characters a sanitised id is made of. */
  predicate IsCleanChar(c: char)
  {
    ('a' <= c <= 'z') || ('0' <= c <= '9') || c == '-' || c == '_'
  }

  predicate IsEdgeChar(c: char)
  {
    c == '-' || c == '_'
  }

  /** What the sanitiser promises of its result. */
  predicate IsCleanId(s: string)
  {
    && (forall k :: 0 <= k < |s| ==> IsCleanChar(s[k]))
    && (forall k :: 0 <= k < |s| - 1 ==> !(s[k] == '-' && s[k + 1] == '-'))
    && (|s| > 0 ==> !IsEdgeChar(s[0]) && !IsEdgeChar(s[|s| - 1]))
  }

  // ---------------------------------------------------------------------
  // The stages of the sanitiser
  // ---------------------------------------------------------------------

  function TrimStart(s: string): (r: string)
    ensures |r| <= |s| && r == s[|s| - |r|..]
    ensures |r| > 0 ==> !IsJsSpace(r[0])
    ensures forall k :: 0 <= k < |s| - |r| ==> IsJsSpace(s[k])
  {
    if |s| > 0 && IsJsSpace(s[0]) then TrimStart(s[1..]) else s
  }

  function TrimEnd(s: string): (r: string)
    ensures |r| <= |s| && r == s[..|r|]
    ensures |r| > 0 ==> !IsJsSpace(r[|r| - 1])
    ensures forall k :: |r| <= k < |s| ==> IsJsSpace(s[k])
  {
    if |s| > 0 && IsJsSpace(s[|s| - 1]) then TrimEnd(s[..|s| - 1]) else s
  }

  /** String.prototype.trim. */
  function Trim(s: string): string
  {
    TrimEnd(TrimStart(s))
  }

  /** `replace(/[^a-zA-Z0-9\-_]/g, '-')`. */
  function ReplaceInvalid(s: string): (r: string)
    ensures |r| == |s|
    ensures forall k :: 0 <= k < |s| ==> r[k] == (if IsIdChar(s[k]) then s[k] else '-')
  {
    seq(|s|, k requires 0 <= k < |s| => if IsIdChar(s[k]) then s[k] else '-')
  }

  /** The characters of `s` other than `-`, in order. */
  function WithoutDashes(s: string): (r: string)
    ensures |r| <= |s|
    ensures '-' !in r
  {
    if s == "" then ""
    else (if s[0] == '-' then "" else [s[0]]) + WithoutDashes(s[1..])
  }

  /** `replace(/-+/g, '-')`: every run of `-` becomes one. Only dashes go:
      the other characters stay, in order, and a dash remains wherever
      there was one. */
  function CollapseDashes(s: string): (r: string)
    ensures |r| <= |s|
    ensures forall k :: 0 <= k < |r| ==> r[k] in s
    ensures |s| > 0 ==> |r| > 0 && r[0] == s[0]
    ensures forall k :: 0 <= k < |r| - 1 ==> !(r[k] == '-' && r[k + 1] == '-')
    ensures WithoutDashes(r) == WithoutDashes(s)
    ensures '-' in r <==> '-' in s
  {
    if |s| <= 1 then s
    else if s[0] == '-' && s[1] == '-' then CollapseDashes(s[1..])
    else
      assert ([s[0]] + CollapseDashes(s[1..]))[1..] == CollapseDashes(s[1..]);
      assert s == [s[0]] + s[1..];
      [s[0]] + CollapseDashes(s[1..])
  }

  /** `replace(/^[-_]+/, '')`. */
  function StripLeading(s: string): (r: string)
    ensures |r| <= |s| && r == s[|s| - |r|..]
    ensures |r| > 0 ==> !IsEdgeChar(r[0])
    ensures forall k :: 0 <= k < |s| - |r| ==> IsEdgeChar(s[k])
  {
    if |s| > 0 && IsEdgeChar(s[0]) then StripLeading(s[1..]) else s
  }

  /** `replace(/[-_]+$/, '')`. */
  function StripTrailing(s: string): (r: string)
    ensures |r| <= |s| && r == s[..|r|]
    ensures |r| > 0 ==> !IsEdgeChar(r[|r| - 1])
    ensures forall k :: |r| <= k < |s| ==> IsEdgeChar(s[k])
  {
    if |s| > 0 && IsEdgeChar(s[|s| - 1]) then StripTrailing(s[..|s| - 1]) else s
  }

  function LowerChar(c: char): char
  {
    if 'A' <= c <= 'Z' then (c as int - 'A' as int + 'a' as int) as char else c
  }

  /** toLowerCase on ASCII letters; every other character is kept. */
  function AsciiLower(s: string): (r: string)
    ensures |r| == |s|
    ensures forall k :: 0 <= k < |s| ==> r[k] == LowerChar(s[k])
  {
    seq(|s|, k requires 0 <= k < |s| => LowerChar(s[k]))
  }

  /** sanitizeServerId(value), a missing value being the empty string. */
  function SanitizeServerId(value: string): string
  {
    var trimmed := Trim(value);
    if trimmed == "" then ""
    else AsciiLower(StripTrailing(StripLeading(CollapseDashes(ReplaceInvalid(trimmed)))))
  }

  // ---------------------------------------------------------------------
  // What the sanitiser promises
  // ---------------------------------------------------------------------

  /** Only id characters, and no `--`. */
  predicate IdCharsNoDoubleDash(s: string)
  {
    && (forall k :: 0 <= k < |s| ==> IsIdChar(s[k]))
    && (forall k :: 0 <= k < |s| - 1 ==> !(s[k] == '-' && s[k + 1] == '-'))
  }

  lemma ReplaceThenCollapse(s: string)
    ensures IdCharsNoDoubleDash(CollapseDashes(ReplaceInvalid(s)))
  {
    var replaced := ReplaceInvalid(s);
    var collapsed := CollapseDashes(replaced);
    forall k | 0 <= k < |collapsed|
      ensures IsIdChar(collapsed[k])
    {
      assert collapsed[k] in replaced;
    }
  }

  /** A slice of a string of id characters without `--` is one too. */
  lemma SliceKeepsIdChars(c: string, i: nat, j: nat)
    requires IdCharsNoDoubleDash(c) && i <= j <= |c|
    ensures IdCharsNoDoubleDash(c[i..j])
  {
    var r := c[i..j];
    forall k | 0 <= k < |r|
      ensures IsIdChar(r[k])
    {
      assert r[k] == c[i + k];
    }
    forall k | 0 <= k < |r| - 1
      ensures !(r[k] == '-' && r[k + 1] == '-')
    {
      assert r[k] == c[i + k] && r[k + 1] == c[i + k + 1];
    }
  }

  /** Stripping the ends keeps the characters and the single dashes, and
      leaves no `-` or `_` at either end. */
  lemma StripEnds(c: string)
    requires IdCharsNoDoubleDash(c)
    ensures var r := StripTrailing(StripLeading(c));
            IdCharsNoDoubleDash(r) && (|r| > 0 ==> !IsEdgeChar(r[0]) && !IsEdgeChar(r[|r| - 1]))
  {
    var lead := StripLeading(c);
    SliceKeepsIdChars(c, |c| - |lead|, |c|);
    var r := StripTrailing(lead);
    SliceKeepsIdChars(lead, 0, |r|);
    if |r| > 0 {
      assert r[0] == lead[0];
    }
  }

  lemma LowerIsClean(s: string)
    requires IdCharsNoDoubleDash(s) && (|s| > 0 ==> !IsEdgeChar(s[0]) && !IsEdgeChar(s[|s| - 1]))
    ensures IsCleanId(AsciiLower(s))
  {
  }

  /** The output is a clean id: only `a-z`, `0-9`, `-` and `_`, no `--`,
      and no `-` or `_` at either end. */
  lemma SanitizedIsClean(value: string)
    ensures IsCleanId(SanitizeServerId(value))
  {
    var trimmed := Trim(value);
    if trimmed != "" {
      var collapsed := CollapseDashes(ReplaceInvalid(trimmed));
      ReplaceThenCollapse(trimmed);
      StripEnds(collapsed);
      LowerIsClean(StripTrailing(StripLeading(collapsed)));
    }
  }

  /** A blank input (empty or only whitespace) gives the empty id. */
  lemma BlankGivesEmpty(value: string)
    requires forall k :: 0 <= k < |value| ==> IsJsSpace(value[k])
    ensures SanitizeServerId(value) == ""
  {
    assert TrimStart(value) == "";
  }

  lemma {:induction false} CollapseKeepsSingles(s: string)
    requires forall k :: 0 <= k < |s| - 1 ==> !(s[k] == '-' && s[k + 1] == '-')
    ensures CollapseDashes(s) == s
    decreases |s|
  {
    if |s| > 1 {
      CollapseKeepsSingles(s[1..]);
    }
  }

  /** Doubling a dash makes no difference to the result, wherever it
      stands: with CollapseKeepsSingles this pins the function down, since
      undoubling dashes one at a time reaches a string with no `--`,
      which is its own result. */
  lemma {:induction false} CollapseIgnoresDoubledDash(a: string, b: string)
    ensures CollapseDashes(a + "--" + b) == CollapseDashes(a + "-" + b)
    decreases |a|
  {
    var x, y := a + "--" + b, a + "-" + b;
    if a == "" {
      assert x[0] == '-' && x[1] == '-' && x[1..] == y;
    } else {
      var t := a[1..];
      assert x[1..] == t + "--" + b;
      assert y[1..] == t + "-" + b;
      assert |x| > 1 && |y| > 1 && x[0] == y[0] && x[1] == y[1];
      CollapseIgnoresDoubledDash(t, b);
      if x[0] == '-' && x[1] == '-' {
        calc {
          CollapseDashes(x);
          CollapseDashes(x[1..]);
          CollapseDashes(y[1..]);
          CollapseDashes(y);
        }
      } else {
        calc {
          CollapseDashes(x);
          [x[0]] + CollapseDashes(x[1..]);
          [y[0]] + CollapseDashes(y[1..]);
          CollapseDashes(y);
        }
      }
    }
  }

  /** Trimming leaves a clean, non-empty id as it is: its first and last
      characters are not white space. */
  lemma TrimKeepsClean(s: string)
    requires IsCleanId(s) && s != ""
    ensures Trim(s) == s
  {
    CleanCharIsNotSpace(s[0]);
    CleanCharIsNotSpace(s[|s| - 1]);
    assert TrimStart(s) == s;
  }

  lemma CleanCharIsNotSpace(c: char)
    requires IsCleanChar(c)
    ensures !IsJsSpace(c)
  {
  }

  /** Every character of a clean id is kept by the replacement. */
  lemma ReplaceKeepsClean(s: string)
    requires IsCleanId(s)
    ensures ReplaceInvalid(s) == s
  {
    var r := ReplaceInvalid(s);
    forall k | 0 <= k < |s|
      ensures r[k] == s[k]
    {
      assert IsCleanChar(s[k]);
    }
  }

  /** Lower-casing leaves a clean id as it is. */
  lemma LowerKeepsClean(s: string)
    requires IsCleanId(s)
    ensures AsciiLower(s) == s
  {
    var r := AsciiLower(s);
    forall k | 0 <= k < |s|
      ensures r[k] == s[k]
    {
      assert IsCleanChar(s[k]);
    }
  }

  /** Every stage leaves a clean id as it is. */
  lemma CleanIdIsFixed(s: string)
    requires IsCleanId(s) && s != ""
    ensures Trim(s) == s
    ensures ReplaceInvalid(s) == s
    ensures CollapseDashes(s) == s
    ensures StripTrailing(StripLeading(s)) == s
    ensures AsciiLower(s) == s
  {
    TrimKeepsClean(s);
    ReplaceKeepsClean(s);
    CollapseKeepsSingles(s);
    LowerKeepsClean(s);
    assert StripLeading(s) == s;
  }

  /** Sanitising is idempotent. */
  lemma SanitizeIdempotent(value: string)
    ensures SanitizeServerId(SanitizeServerId(value)) == SanitizeServerId(value)
  {
    var s := SanitizeServerId(value);
    SanitizedIsClean(value);
    if s != "" {
      CleanIdIsFixed(s);
    }
  }

  /** An id that is already clean comes back unchanged. */
  lemma SanitizeKeepsCleanIds(s: string)
    requires IsCleanId(s)
    ensures SanitizeServerId(s) == s
  {
    if s != "" {
      CleanIdIsFixed(s);
    }
  }

  // ---------------------------------------------------------------------
  // The hub key and the id named by a local URL
  // ---------------------------------------------------------------------

  /** Trimming gives the empty string exactly when the input is blank,
      and otherwise a string with no white space at either end. */
  lemma TrimBlank(s: string)
    ensures Trim(s) == "" <==> forall k :: 0 <= k < |s| ==> IsJsSpace(s[k])
    ensures |Trim(s)| > 0 ==> !IsJsSpace(Trim(s)[0]) && !IsJsSpace(Trim(s)[|Trim(s)| - 1])
  {
    if forall k :: 0 <= k < |s| ==> IsJsSpace(s[k]) {
      assert TrimStart(s) == "";
    }
  }

  /** Lower-casing neither makes nor unmakes white space. */
  lemma LowerKeepsSpace(c: char)
    ensures IsJsSpace(LowerChar(c)) <==> IsJsSpace(c)
  {
  }

  /** The hub's normalize: trimmed and lower-cased (ASCII letters only).
      Only a blank value gives the empty key, and a key neither starts nor
      ends with white space. */
  function Normalize(value: string): (r: string)
    ensures |r| <= |value|
    ensures r == "" <==> forall k :: 0 <= k < |value| ==> IsJsSpace(value[k])
    ensures |r| > 0 ==> !IsJsSpace(r[0]) && !IsJsSpace(r[|r| - 1])
  {
    NormalizeShape(value);
    AsciiLower(Trim(value))
  }

  /** The facts Normalize promises, about the trimmed and lower-cased
      value. */
  lemma NormalizeShape(value: string)
    ensures |AsciiLower(Trim(value))| <= |value|
    ensures AsciiLower(Trim(value)) == "" <==> forall k :: 0 <= k < |value| ==> IsJsSpace(value[k])
    ensures var r := AsciiLower(Trim(value));
            |r| > 0 ==> !IsJsSpace(r[0]) && !IsJsSpace(r[|r| - 1])
  {
    var t := Trim(value);
    TrimBlank(value);
    if t != "" {
      LowerKeepsSpace(t[0]);
      LowerKeepsSpace(t[|t| - 1]);
    }
  }

  /** A clean id is its own hub key, so a server started under a sanitised
      id is found under that id. */
  lemma NormalizeKeepsCleanIds(s: string)
    requires IsCleanId(s)
    ensures Normalize(s) == s
  {
    if s != "" {
      CleanIdIsFixed(s);
    }
  }

  /** `replace(/^\/+/, '')`. */
  function StripSlashes(s: string): (r: string)
    ensures |r| <= |s| && r == s[|s| - |r|..]
    ensures |r| > 0 ==> r[0] != '/'
  {
    if |s| > 0 && s[0] == '/' then StripSlashes(s[1..]) else s
  }

  /** extractLocalServerId: the URL path without its leading slashes,
      sanitised (an empty path standing for "default"), or "default" when
      that sanitises to nothing. */
  function ExtractLocalServerId(pathname: string): (r: string)
    ensures r != ""
  {
    var rawPath := StripSlashes(pathname);
    var sanitized := SanitizeServerId(if rawPath == "" then "default" else rawPath);
    if sanitized == "" then "default" else sanitized
  }

  /** The id a local URL names is always a clean, non-empty id. */
  lemma ExtractedIdIsClean(pathname: string)
    ensures IsCleanId(ExtractLocalServerId(pathname))
  {
    var rawPath := StripSlashes(pathname);
    var input := if rawPath == "" then "default" else rawPath;
    SanitizedIsClean(input);
    DefaultIsClean();
    var sanitized := SanitizeServerId(input);
    assert ExtractLocalServerId(pathname) == if sanitized == "" then "default" else sanitized;
  }

  lemma DefaultIsClean()
    ensures IsCleanId("default")
  {
    var d := "default";
    assert forall k :: 0 <= k < |d| ==> 'a' <= d[k] <= 'z';
  }

  /** A path that is itself a clean id names exactly that id. */
  lemma ExtractKeepsCleanPath(pathname: string)
    requires IsCleanId(pathname) && pathname != ""
    ensures ExtractLocalServerId(pathname) == pathname
  {
    assert IsCleanChar(pathname[0]);
    assert StripSlashes(pathname) == pathname;
    SanitizeKeepsCleanIds(pathname);
  }

  /** Extracting again from an extracted id gives it back. */
  lemma ExtractIdempotent(pathname: string)
    ensures ExtractLocalServerId(ExtractLocalServerId(pathname)) == ExtractLocalServerId(pathname)
  {
    ExtractedIdIsClean(pathname);
    ExtractKeepsCleanPath(ExtractLocalServerId(pathname));
  }

  /** Leading slashes do not matter. */
  lemma ExtractIgnoresLeadingSlash(pathname: string)
    ensures ExtractLocalServerId("/" + pathname) == ExtractLocalServerId(pathname)
  {
    assert ("/" + pathname)[1..] == pathname;
  }
}
