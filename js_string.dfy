/**
 * The JavaScript string built-ins the backend relies on: `split` with a
 * one-character separator, `trim`, and the character class `\s`.
 */
module JsString {

  /** `Array.prototype.join`: the parts glued together with `sep`. */
  function Join(parts: seq<string>, sep: char): string
  {
    if |parts| == 0 then ""
    else if |parts| == 1 then parts[0]
    else parts[0] + [sep] + Join(parts[1..], sep)
  }

  /**
   * `String.prototype.split(sep)`: the maximal runs between separators, so
   * "" splits into [""] and "a..b" into ["a", "", "b"].
   */
  function Split(s: string, sep: char): (parts: seq<string>)
    ensures |parts| >= 1
    ensures forall i :: 0 <= i < |parts| ==> sep !in parts[i]
    ensures Join(parts, sep) == s
    decreases |s|
  {
    if |s| == 0 then [""]
    else
      var rest := Split(s[1..], sep);
      if s[0] == sep then
        assert Join([""] + rest, sep) == [sep] + s[1..] by {
          assert ([""] + rest)[1..] == rest;
        }
        [""] + rest
      else
        var parts := [[s[0]] + rest[0]] + rest[1..];
        assert Join(parts, sep) == s by {
          assert parts[1..] == rest[1..];
          assert s == [s[0]] + s[1..];
        }
        parts
  }

  /** A separator-free string is a single part. */
  lemma {:induction false} SplitNoSeparator(a: string, sep: char)
    requires sep !in a
    ensures Split(a, sep) == [a]
    decreases |a|
  {
    if |a| > 0 {
      SplitNoSeparator(a[1..], sep);
      assert [a[0]] + a[1..] == a;
    }
  }

  /** Splitting at the first separator: the text before it is the first part. */
  lemma {:induction false} SplitAtFirst(a: string, sep: char, b: string)
    requires sep !in a
    ensures Split(a + [sep] + b, sep) == [a] + Split(b, sep)
    decreases |a|
  {
    var s := a + [sep] + b;
    if |a| == 0 {
      assert s[1..] == b;
    } else {
      assert s[1..] == a[1..] + [sep] + b;
      SplitAtFirst(a[1..], sep, b);
      assert [a[0]] + a[1..] == a;
    }
  }

  /** `split` undoes `join` when no part holds the separator. */
  lemma {:induction false} SplitJoin(parts: seq<string>, sep: char)
    requires |parts| >= 1
    requires forall i :: 0 <= i < |parts| ==> sep !in parts[i]
    ensures Split(Join(parts, sep), sep) == parts
    decreases |parts|
  {
    if |parts| == 1 {
      SplitNoSeparator(parts[0], sep);
    } else {
      SplitJoin(parts[1..], sep);
      SplitAtFirst(parts[0], sep, Join(parts[1..], sep));
      assert [parts[0]] + parts[1..] == parts;
    }
  }

  /** The first part of a split is the text up to the first separator, or all of it. */
  lemma SplitFirstPart(s: string, sep: char)
    ensures var p := Split(s, sep)[0];
      |p| <= |s| && s[..|p|] == p && (|p| == |s| || s[|p|] == sep)
  {
    var parts := Split(s, sep);
    if |parts| > 1 {
      assert s == parts[0] + [sep] + Join(parts[1..], sep);
    }
  }

  /** The three-part case used by the cipher's `iv.tag.ciphertext` payload. */
  lemma SplitThree(a: string, b: string, c: string, sep: char)
    requires sep !in a && sep !in b && sep !in c
    ensures Split(a + [sep] + b + [sep] + c, sep) == [a, b, c]
  {
    assert a + [sep] + b + [sep] + c == a + [sep] + (b + [sep] + c);
    SplitAtFirst(a, sep, b + [sep] + c);
    SplitAtFirst(b, sep, c);
    SplitNoSeparator(c, sep);
  }

  /**
   * The characters the regular-expression class `\s` and `trim` treat as white
   * space: ECMAScript WhiteSpace and LineTerminator.
   */
  predicate IsWhitespace(c: char)
  {
    || c == '\t' || c == '\n' || c == '\U{000B}' || c == '\U{000C}' || c == '\r' || c == ' '
    || c == '\U{00A0}' || c == '\U{1680}' || ('\U{2000}' <= c <= '\U{200A}')
    || c == '\U{2028}' || c == '\U{2029}' || c == '\U{202F}' || c == '\U{205F}'
    || c == '\U{3000}' || c == '\U{FEFF}'
  }

  /** Drops leading white space. */
  function TrimStart(s: string): (r: string)
    ensures |r| <= |s| && r == s[|s| - |r|..]
    ensures r == "" || !IsWhitespace(r[0])
    ensures forall i :: 0 <= i < |s| - |r| ==> IsWhitespace(s[i])
    decreases |s|
  {
    if |s| > 0 && IsWhitespace(s[0]) then TrimStart(s[1..]) else s
  }

  /** Drops trailing white space. */
  function TrimEnd(s: string): (r: string)
    ensures |r| <= |s| && r == s[..|r|]
    ensures r == "" || !IsWhitespace(r[|r| - 1])
    ensures forall i :: |r| <= i < |s| ==> IsWhitespace(s[i])
    decreases |s|
  {
    if |s| > 0 && IsWhitespace(s[|s| - 1]) then TrimEnd(s[..|s| - 1]) else s
  }

  /** `s[i..j]` is a slice of `s` with nothing but white space before and after it. */
  predicate WhitespaceOutside(s: string, i: int, j: int)
  {
    && 0 <= i <= j <= |s|
    && (forall k :: 0 <= k < i ==> IsWhitespace(s[k]))
    && (forall k :: j <= k < |s| ==> IsWhitespace(s[k]))
  }

  /** `String.prototype.trim`: white space removed from both ends, nothing else. */
  function Trim(s: string): (r: string)
    ensures r == "" || (!IsWhitespace(r[0]) && !IsWhitespace(r[|r| - 1]))
    ensures (s == "" || (!IsWhitespace(s[0]) && !IsWhitespace(s[|s| - 1]))) ==> r == s
    ensures |r| <= |s|
    ensures exists i, j :: WhitespaceOutside(s, i, j) && r == s[i..j]
  {
    TrimWithin(s);
    TrimEnd(TrimStart(s))
  }

  /** Trimming keeps a slice of the input with only white space around it. */
  lemma TrimWithin(s: string)
    ensures exists i, j :: WhitespaceOutside(s, i, j) && TrimEnd(TrimStart(s)) == s[i..j]
  {
    var t := TrimStart(s);
    var r := TrimEnd(t);
    TrimStartEndSlice(s);
    TrimStartEndSuffix(s);
    assert WhitespaceOutside(s, |s| - |t|, |s| - |t| + |r|);
  }

  /** Dropping leading, then trailing, white space leaves a slice of the input. */
  lemma TrimStartEndSlice(s: string)
    ensures var t := TrimStart(s); var r := TrimEnd(t);
      |s| - |t| + |r| <= |s| && r == s[|s| - |t|..|s| - |t| + |r|]
  {
    var t := TrimStart(s);
    var r := TrimEnd(t);
    assert t == s[|s| - |t|..];
    assert r == t[..|r|];
  }

  /** What follows that slice is white space. */
  lemma TrimStartEndSuffix(s: string)
    ensures var t := TrimStart(s); var r := TrimEnd(t);
      forall k :: |s| - |t| + |r| <= k < |s| ==> IsWhitespace(s[k])
  {
    var t := TrimStart(s);
    var r := TrimEnd(t);
    var i := |s| - |t|;
    forall k | i + |r| <= k < |s| ensures IsWhitespace(s[k]) {
      assert s[k] == t[k - i];
    }
  }
}
