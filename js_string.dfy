/** The two JavaScript string operations the content script and the popup
    rely on: `String.prototype.trim` and `String.prototype.includes`. */
module JsString {

  /** The characters `trim` removes: ECMAScript's WhiteSpace (tab, vertical
      tab, form feed, space, no-break space, zero-width no-break space and the
      Unicode "Zs" space separators) and its LineTerminator characters. */
  predicate IsTrimmable(c: char) {
    || c == '\t' || c == '\n' || c == '\U{000B}' || c == '\U{000C}' || c == '\r'
    || c == ' ' || c == '\U{00A0}' || c == '\U{1680}'
    || ('\U{2000}' <= c <= '\U{200A}')
    || c == '\U{2028}' || c == '\U{2029}' || c == '\U{202F}' || c == '\U{205F}'
    || c == '\U{3000}' || c == '\U{FEFF}'
  }

  /** `s` with its leading trimmable characters removed: a suffix of `s`
      that is empty or starts with a character `trim` keeps. */
  function TrimStart(s: string): (r: string)
    ensures |r| <= |s| && r == s[|s| - |r|..]
    ensures r == [] || !IsTrimmable(r[0])
    ensures forall k :: 0 <= k < |s| - |r| ==> IsTrimmable(s[k])
  {
    if s != [] && IsTrimmable(s[0]) then TrimStart(s[1..]) else s
  }

  /** `s` with its trailing trimmable characters removed: a prefix of `s`
      that is empty or ends with a character `trim` keeps. */
  function TrimEnd(s: string): (r: string)
    ensures |r| <= |s| && r == s[..|r|]
    ensures r == [] || !IsTrimmable(r[|r| - 1])
    ensures forall k :: |r| <= k < |s| ==> IsTrimmable(s[k])
  {
    if s != [] && IsTrimmable(s[|s| - 1]) then TrimEnd(s[..|s| - 1]) else s
  }

  /** `String.prototype.trim`. */
  function Trim(s: string): string {
    TrimEnd(TrimStart(s))
  }

  /** `r` is what is left of `s` once the first `i` characters and the
      characters after `r` have been cut off, all of them trimmable. */
  ghost predicate IsTrimOf(r: string, s: string, i: int) {
    && 0 <= i <= |s| - |r| && r == s[i..i + |r|]
    && (forall k :: 0 <= k < i ==> IsTrimmable(s[k]))
    && (forall k :: i + |r| <= k < |s| ==> IsTrimmable(s[k]))
  }

  /** `r` is `s` trimmed: a slice of `s` with only trimmable characters cut
      off on either side, that neither starts nor ends with a trimmable
      character. At most one slice of `s` is like that. */
  ghost predicate IsTrimmed(r: string, s: string) {
    && (r == [] || (!IsTrimmable(r[0]) && !IsTrimmable(r[|r| - 1])))
    && exists i :: IsTrimOf(r, s, i)
  }

  /** The trimmed text is a slice of the original that neither starts nor
      ends with a trimmable character, and only trimmable characters were
      cut off on either side. */
  lemma TrimIsCore(s: string)
    ensures IsTrimmed(Trim(s), s)
  {
    var t := TrimStart(s);
    var r := TrimEnd(t);
    var i := |s| - |t|;
    assert IsTrimOf(r, s, i) by {
      SliceOfSlice(s, t, r, i);
    }
    assert r == [] || (!IsTrimmable(r[0]) && !IsTrimmable(r[|r| - 1])) by {
      if r != [] {
        assert r[0] == t[0];
      }
    }
  }

  /** `trim` is the only way of cutting `s` down like that: any slice that
      `IsTrimmed` describes is `Trim(s)`. */
  lemma TrimmedIsTrim(r: string, s: string)
    requires IsTrimmed(r, s)
    ensures r == Trim(s)
  {
    var t := Trim(s);
    TrimIsCore(s);
    var i :| IsTrimOf(r, s, i);
    var j :| IsTrimOf(t, s, j);
    if r != [] && t != [] {
      assert s[i] == r[0] && s[j] == t[0];
      assert s[i + |r| - 1] == r[|r| - 1] && s[j + |t| - 1] == t[|t| - 1];
      assert i == j && |r| == |t|;
    }
  }

  /** Cutting trimmable characters off the front and then off the back
      leaves a slice whose surroundings are all trimmable. */
  lemma SliceOfSlice(s: string, t: string, r: string, i: int)
    requires 0 <= i <= |s| && t == s[i..]
    requires forall k :: 0 <= k < i ==> IsTrimmable(s[k])
    requires |r| <= |t| && r == t[..|r|]
    requires forall k :: |r| <= k < |t| ==> IsTrimmable(t[k])
    ensures IsTrimOf(r, s, i)
  {
    forall k | i + |r| <= k < |s| ensures IsTrimmable(s[k]) {
      assert s[k] == t[k - i];
    }
  }

  /** The trimmed text is empty exactly when every character is trimmable;
      this decides which name elements yield an empty business name. */
  lemma TrimEmptyIff(s: string)
    ensures Trim(s) == [] <==> forall k :: 0 <= k < |s| ==> IsTrimmable(s[k])
  {
    var t := TrimStart(s);
    if Trim(s) == [] {
      // a non-empty `t` would start with a kept character, which `TrimEnd`
      // could not have removed
      assert t == [];
    } else {
      TrimIsCore(s);
    }
  }

  /** `String.prototype.includes`: whether `sub` occurs in `s` as a
      contiguous piece. */
  function Contains(s: string, sub: string): bool
    decreases |s|
  {
    |sub| <= |s| && (s[..|sub|] == sub || Contains(s[1..], sub))
  }

  /** `sub` occurs in `s` starting at position `i`. */
  predicate OccursAt(s: string, sub: string, i: int) {
    0 <= i <= |s| - |sub| && s[i..i + |sub|] == sub
  }

  /** `Contains` agrees with the positional definition of a substring. */
  lemma {:induction false} ContainsIff(s: string, sub: string)
    ensures Contains(s, sub) <==> exists i :: OccursAt(s, sub, i)
    decreases |s|
  {
    if |sub| <= |s| && s[..|sub|] != sub {
      ContainsIff(s[1..], sub);
      if Contains(s[1..], sub) {
        var i :| OccursAt(s[1..], sub, i);
        assert s[i + 1..i + 1 + |sub|] == s[1..][i..i + |sub|];
        assert OccursAt(s, sub, i + 1);
      }
      if exists i :: OccursAt(s, sub, i) {
        var i :| OccursAt(s, sub, i);
        assert i != 0;
        assert s[1..][i - 1..i - 1 + |sub|] == s[i..i + |sub|];
        assert OccursAt(s[1..], sub, i - 1);
      }
    } else if |sub| <= |s| {
      assert OccursAt(s, sub, 0);
    }
  }

  /** A text lacking one of the characters of `sub` does not include `sub`. */
  lemma ContainsOnlyItsChars(s: string, sub: string, c: char)
    requires c in sub && c !in s
    ensures !Contains(s, sub)
  {
    ContainsIff(s, sub);
  }
}
