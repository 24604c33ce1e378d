/** The two JavaScript string operations the request handling relies on:
    `String.prototype.trim` and the first element of `String.prototype.split`. */
module JsText {

  /** The code points `trim` removes: the ECMAScript WhiteSpace set (tab,
      vertical tab, form feed, space, no-break space, byte order mark and the
      other space separators) and the LineTerminator set. */
  predicate IsTrimmable(c: char)
  {
    || c == '\t' || c == '\n' || c == '\U{000B}' || c == '\U{000C}' || c == '\r'
    || c == ' ' || c == '\U{00A0}' || c == '\U{1680}'
    || ('\U{2000}' <= c <= '\U{200A}')
    || c == '\U{2028}' || c == '\U{2029}' || c == '\U{202F}' || c == '\U{205F}'
    || c == '\U{3000}' || c == '\U{FEFF}'
  }

  /** A string made only of trimmable characters (the empty string included). */
  predicate IsBlank(s: string)
  {
    forall k :: 0 <= k < |s| ==> IsTrimmable(s[k])
  }

  /** `s` with its leading trimmable characters removed: a suffix of `s`. */
  function TrimStart(s: string): (r: string)
    ensures |r| <= |s| && r == s[|s| - |r|..]
    ensures forall k :: 0 <= k < |s| - |r| ==> IsTrimmable(s[k])
    ensures r == [] || !IsTrimmable(r[0])
  {
    if s != [] && IsTrimmable(s[0]) then TrimStart(s[1..]) else s
  }

  /** `s` with its trailing trimmable characters removed: a prefix of `s`. */
  function TrimEnd(s: string): (r: string)
    ensures |r| <= |s| && r == s[..|r|]
    ensures forall k :: |r| <= k < |s| ==> IsTrimmable(s[k])
    ensures r == [] || !IsTrimmable(r[|r| - 1])
  {
    if s != [] && IsTrimmable(s[|s| - 1]) then TrimEnd(s[..|s| - 1]) else s
  }

  /** `r` occurs in `s` at offset `i`, with only white space before and
      after it. */
  predicate BlankFramed(s: string, i: int, r: string)
  {
    0 <= i <= |s| - |r| && r == s[i..i + |r|] && IsBlank(s[..i]) && IsBlank(s[i + |r|..])
  }

  /** Cutting a blank prefix and then a blank tail leaves the slice of `s`
      between them; it is empty exactly when `s` is blank, and otherwise its
      ends are those the two cuts stopped at. */
  lemma TrimmedSlice(s: string, t: string, r: string)
    requires |t| <= |s| && t == s[|s| - |t|..]
    requires forall k :: 0 <= k < |s| - |t| ==> IsTrimmable(s[k])
    requires t == [] || !IsTrimmable(t[0])
    requires |r| <= |t| && r == t[..|r|]
    requires forall k :: |r| <= k < |t| ==> IsTrimmable(t[k])
    requires r == [] || !IsTrimmable(r[|r| - 1])
    ensures forall c :: c in r ==> c in s
    ensures BlankFramed(s, |s| - |t|, r)
    ensures r == [] <==> IsBlank(s)
    ensures r != [] ==> !IsTrimmable(r[0]) && !IsTrimmable(r[|r| - 1])
  {
    var i := |s| - |t|;
    assert r == s[i..i + |r|];
    assert IsBlank(s[..i]) by {
      assert forall k :: 0 <= k < i ==> s[..i][k] == s[k];
    }
    assert IsBlank(t[|r|..]) by {
      assert forall k :: 0 <= k < |t| - |r| ==> t[|r|..][k] == t[|r| + k];
    }
    assert IsBlank(s[i + |r|..]) by {
      assert s[i + |r|..] == t[|r|..];
    }
    assert r != [] ==> r[0] == t[0];
    if r == [] {
      assert s == s[..i] + t[|r|..];
    } else {
      assert s[i] == r[0];
    }
  }

  /** `s.trim()`: the contiguous middle of `s` left between a blank prefix
      and a blank suffix, empty exactly when `s` is blank, otherwise starting
      and ending with a non-trimmable character. */
  function Trim(s: string): (r: string)
    ensures |r| <= |s|
    ensures forall c :: c in r ==> c in s
    ensures exists i :: BlankFramed(s, i, r)
    ensures r == [] <==> IsBlank(s)
    ensures r != [] ==> !IsTrimmable(r[0]) && !IsTrimmable(r[|r| - 1])
  {
    var t := TrimStart(s);
    var r := TrimEnd(t);
    TrimmedSlice(s, t, r);
    r
  }

  /** Every character inside a blank prefix is white space. */
  lemma BlankPrefixChars(s: string, i: nat)
    requires i <= |s| && IsBlank(s[..i])
    ensures forall k :: 0 <= k < i ==> IsTrimmable(s[k])
  {
    assert forall k :: 0 <= k < i ==> s[..i][k] == s[k];
  }

  /** Every character inside a blank suffix is white space. */
  lemma BlankSuffixChars(s: string, i: nat)
    requires i <= |s| && IsBlank(s[i..])
    ensures forall k :: i <= k < |s| ==> IsTrimmable(s[k])
  {
    assert forall k :: i <= k < |s| ==> s[i..][k - i] == s[k];
  }

  /** Two blank-framed slices of `s` whose own ends are not white space are
      the same slice. */
  lemma FramedSlicesAgree(s: string, i: int, a: string, j: int, b: string)
    requires BlankFramed(s, i, a) && (a != [] ==> !IsTrimmable(a[0]) && !IsTrimmable(a[|a| - 1]))
    requires BlankFramed(s, j, b) && (b != [] ==> !IsTrimmable(b[0]) && !IsTrimmable(b[|b| - 1]))
    ensures a == b
  {
    BlankPrefixChars(s, i);
    BlankSuffixChars(s, i + |a|);
    BlankPrefixChars(s, j);
    BlankSuffixChars(s, j + |b|);
    assert a != [] ==> a[0] == s[i] && a[|a| - 1] == s[i + |a| - 1];
    assert b != [] ==> b[0] == s[j] && b[|b| - 1] == s[j + |b| - 1];
    if a != [] && b != [] {
      assert j == i;
      assert |a| == |b|;
    }
  }

  /** Where the trimmed slice sits in `s`. */
  lemma TrimOffset(s: string) returns (j: int)
    ensures BlankFramed(s, j, Trim(s))
  {
    j :| BlankFramed(s, j, Trim(s));
  }

  /** `trim` is determined by what it removes: a blank-framed slice of `s`
      whose own ends are not white space is `Trim(s)`. */
  lemma TrimIsFramedSlice(s: string, i: int, m: string)
    requires BlankFramed(s, i, m)
    requires m != [] ==> !IsTrimmable(m[0]) && !IsTrimmable(m[|m| - 1])
    ensures Trim(s) == m
  {
    var j := TrimOffset(s);
    FramedSlicesAgree(s, i, m, j, Trim(s));
  }

  /** `s.split(sep)[0]`: the longest prefix of `s` without `sep`, which ends
      where `sep` first occurs. */
  function SplitFirst(s: string, sep: char): (r: string)
    ensures |r| <= |s| && r == s[..|r|]
    ensures sep !in r
    ensures |r| < |s| ==> s[|r|] == sep
  {
    if s == [] || s[0] == sep then [] else [s[0]] + SplitFirst(s[1..], sep)
  }

  /** The trimmed first field holds no separator and only characters of the
      whole input. */
  lemma TrimmedFirstField(s: string, sep: char)
    ensures sep !in Trim(SplitFirst(s, sep))
    ensures forall c :: c in Trim(SplitFirst(s, sep)) ==> c in s
  {
    var first := SplitFirst(s, sep);
    forall c | c in first ensures c in s {
      var i :| 0 <= i < |first| && first[i] == c;
      assert s[i] == c;
    }
  }
}
