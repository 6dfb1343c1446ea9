/**
 * The two pieces of JavaScript's string library the app relies on:
 * `String.prototype.trim` (for "is this question blank?") and
 * `Array.prototype.join` (for assembling a page's text).
 */
module JsText {

  /**
   * ECMAScript WhiteSpace and LineTerminator code points: the characters
   * `trim` removes. The space separators are the Unicode category Zs.
   */
  predicate IsWhitespace(c: char) {
    || c == '\t' || c == '\n' || c == '\U{000B}' || c == '\U{000C}' || c == '\r'
    || c == ' ' || c == '\U{00A0}' || c == '\U{1680}'
    || ('\U{2000}' <= c <= '\U{200A}')
    || c == '\U{2028}' || c == '\U{2029}' || c == '\U{202F}' || c == '\U{205F}'
    || c == '\U{3000}' || c == '\U{FEFF}'
  }

  /** A string that `trim` turns into the empty, falsy string. */
  predicate IsBlank(s: string) {
    forall i :: 0 <= i < |s| ==> IsWhitespace(s[i])
  }

  function TrimStart(s: string): (r: string)
    ensures |r| <= |s| && r == s[|s| - |r|..]
    ensures r == [] || !IsWhitespace(r[0])
    ensures forall i :: 0 <= i < |s| - |r| ==> IsWhitespace(s[i])
  {
    if s != [] && IsWhitespace(s[0]) then TrimStart(s[1..]) else s
  }

  function TrimEnd(s: string): (r: string)
    ensures |r| <= |s| && r == s[..|r|]
    ensures r == [] || !IsWhitespace(r[|r| - 1])
    ensures forall i :: |r| <= i < |s| ==> IsWhitespace(s[i])
  {
    if s != [] && IsWhitespace(s[|s| - 1]) then TrimEnd(s[..|s| - 1]) else s
  }

  /** `s.trim()`: `s` without its leading and trailing whitespace. */
  function Trim(s: string): (r: string)
    ensures r == [] || (!IsWhitespace(r[0]) && !IsWhitespace(r[|r| - 1]))
  {
    TrimEnd(TrimStart(s))
  }

  /**
   * What `trim` keeps is one stretch of `s`: everything before it and
   * everything after it is whitespace.
   */
  lemma TrimIsSlice(s: string)
    ensures var start := |s| - |TrimStart(s)|;
      && start + |Trim(s)| <= |s| && Trim(s) == s[start..start + |Trim(s)|]
      && (forall i :: 0 <= i < start ==> IsWhitespace(s[i]))
      && (forall i :: start + |Trim(s)| <= i < |s| ==> IsWhitespace(s[i]))
  {
    var t := TrimStart(s);
    var start := |s| - |t|;
    var r := TrimEnd(t);
    assert t == s[start..];
    assert r == t[..|r|];
    assert r == s[start..start + |r|];
    forall i | start + |r| <= i < |s| ensures IsWhitespace(s[i]) {
      assert s[i] == t[i - start];
    }
  }

  /** `s.trim()` is falsy exactly when `s` consists of whitespace only. */
  lemma TrimEmptyIffBlank(s: string)
    ensures Trim(s) == [] <==> IsBlank(s)
  {
  }

  /** `items.join(sep)`. */
  function Join(items: seq<string>, sep: string): (r: string)
  {
    if items == [] then ""
    else if |items| == 1 then items[0]
    else items[0] + sep + Join(items[1..], sep)
  }

  function TotalLength(items: seq<string>): nat {
    if items == [] then 0 else |items[0]| + TotalLength(items[1..])
  }

  /** The joined length is the items' total length plus one separator between each two neighbours. */
  lemma {:induction false} JoinLength(items: seq<string>, sep: string)
    ensures |Join(items, sep)| == TotalLength(items) + (if items == [] then 0 else (|items| - 1) * |sep|)
  {
    if |items| > 1 {
      JoinLength(items[1..], sep);
    }
  }

  /** Joining one more item adds the separator and then that item, after the join of the others. */
  lemma {:induction false} JoinAppend(items: seq<string>, x: string, sep: string)
    requires items != []
    ensures Join(items + [x], sep) == Join(items, sep) + sep + x
  {
    if |items| == 1 {
      assert items + [x] == [items[0], x];
      assert [items[0], x][1..] == [x];
    } else {
      assert (items + [x])[1..] == items[1..] + [x];
      JoinAppend(items[1..], x, sep);
    }
  }

  /** A joined text starts with the first item and ends with the last. */
  lemma {:induction false} JoinEnds(items: seq<string>, sep: string)
    requires items != []
    ensures |items[0]| <= |Join(items, sep)| && Join(items, sep)[..|items[0]|] == items[0]
    ensures var last := items[|items| - 1];
      |last| <= |Join(items, sep)| && Join(items, sep)[|Join(items, sep)| - |last|..] == last
  {
    if |items| > 1 {
      JoinEnds(items[1..], sep);
      assert items[1..][|items[1..]| - 1] == items[|items| - 1];
    }
  }
}
