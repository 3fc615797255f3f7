/**
 * The pieces of JavaScript's string semantics that the prediction pipeline
 * relies on: the `\s` / `trim()` whitespace set, the `\w` word characters,
 * ASCII case folding for `/i` patterns, `.length` in UTF-16 code units and
 * `String.prototype.includes`.
 */
module JsText {

  /** The whitespace set of `\s` and of `String.prototype.trim`:
    * the ECMAScript WhiteSpace and LineTerminator characters. */
  predicate IsSpace(c: char)
  {
    var n := c as int;
    (0x09 <= n <= 0x0D) || n == 0x20 || n == 0xA0 || n == 0x1680 ||
    (0x2000 <= n <= 0x200A) || n == 0x2028 || n == 0x2029 || n == 0x202F ||
    n == 0x205F || n == 0x3000 || n == 0xFEFF
  }

  /** The `\w` class of a pattern without the `u` flag. */
  predicate IsWordChar(c: char)
  {
    ('a' <= c <= 'z') || ('A' <= c <= 'Z') || ('0' <= c <= '9') || c == '_'
  }

  /** Case folding used by a `/i` pattern without the `u` flag, restricted to
    * what matters for patterns written in lower-case ASCII: only `A`-`Z`
    * fold, and no character outside ASCII folds onto an ASCII one. */
  function Lower(c: char): (d: char)
    ensures ('A' <= c <= 'Z') ==> 'a' <= d <= 'z' && d as int == c as int + 32
    ensures !('A' <= c <= 'Z') ==> d == c
  {
    if 'A' <= c <= 'Z' then (c as int + 32) as char else c
  }

  /** Every character of `s` is whitespace. */
  predicate AllSpace(s: string)
  {
    forall i :: 0 <= i < |s| ==> IsSpace(s[i])
  }

  /** `s` with its leading whitespace removed. */
  function TrimStart(s: string): (r: string)
    ensures |r| <= |s| && r == s[|s| - |r|..]
    ensures r == [] || !IsSpace(r[0])
  {
    if s != [] && IsSpace(s[0]) then TrimStart(s[1..]) else s
  }

  /** Only whitespace is removed from the front. */
  lemma {:induction false} TrimStartRemovesSpace(s: string)
    ensures forall i :: 0 <= i < |s| - |TrimStart(s)| ==> IsSpace(s[i])
  {
    if s != [] && IsSpace(s[0]) {
      TrimStartRemovesSpace(s[1..]);
      forall i | 1 <= i < |s| - |TrimStart(s)|
        ensures IsSpace(s[i])
      {
        assert s[1..][i - 1] == s[i];
      }
    }
  }

  /** `s` with its trailing whitespace removed. */
  function TrimEnd(s: string): (r: string)
    ensures |r| <= |s| && r == s[..|r|]
    ensures r == [] || !IsSpace(r[|r| - 1])
  {
    if s != [] && IsSpace(s[|s| - 1]) then TrimEnd(s[..|s| - 1]) else s
  }

  /** Only whitespace is removed from the back. */
  lemma {:induction false} TrimEndRemovesSpace(s: string)
    ensures forall i :: |TrimEnd(s)| <= i < |s| ==> IsSpace(s[i])
    decreases |s|
  {
    if s != [] && IsSpace(s[|s| - 1]) {
      var u := s[..|s| - 1];
      TrimEndRemovesSpace(u);
      forall i | |TrimEnd(s)| <= i < |u|
        ensures IsSpace(s[i])
      {
        assert u[i] == s[i];
      }
    }
  }

  /** A string that starts with non-whitespace keeps that character at the
    * end's trim. */
  lemma {:induction false} TrimEndKeepsFirst(s: string)
    requires s != [] && !IsSpace(s[0])
    ensures TrimEnd(s) != []
    decreases |s|
  {
    if IsSpace(s[|s| - 1]) {
      TrimEndKeepsFirst(s[..|s| - 1]);
    }
  }

  /** `r` is what remains of `s` once the whitespace at both ends is
    * removed, the first `a` characters being the leading whitespace:
    * `s` is whitespace, then `r`, then whitespace, and `r` neither starts
    * nor ends with whitespace. */
  predicate TrimmedAt(s: string, a: nat, r: string)
  {
    a + |r| <= |s| && r == s[a..a + |r|] && AllSpace(s[..a]) && AllSpace(s[a + |r|..]) &&
    (r == [] || (!IsSpace(r[0]) && !IsSpace(r[|r| - 1])))
  }

  /** `String.prototype.trim`. */
  function Trim(s: string): (r: string)
    ensures |r| <= |s|
    ensures TrimmedAt(s, |s| - |TrimStart(s)|, r)
  {
    var t := TrimStart(s);
    var r := TrimEnd(t);
    TrimStartRemovesSpace(s);
    TrimEndRemovesSpace(t);
    TrimmedSlice(s, t, r);
    r
  }

  /** The trim neither starts nor ends with whitespace. */
  lemma TrimEnds(s: string)
    ensures var r := Trim(s); r == [] || (!IsSpace(r[0]) && !IsSpace(r[|r| - 1]))
  {
    assert TrimmedAt(s, |s| - |TrimStart(s)|, Trim(s));
  }

  /** The trim is the slice of `s` from some index `a`. */
  lemma TrimSlice(s: string) returns (a: nat)
    ensures a + |Trim(s)| <= |s| && Trim(s) == s[a..a + |Trim(s)|]
  {
    a := |s| - |TrimStart(s)|;
    assert TrimmedAt(s, a, Trim(s));
  }

  /** Whitespace removed from the front of `s` to give `t`, then from the
    * back of `t` to give `r`: `r` is a slice of `s` with only whitespace
    * on either side. */
  lemma TrimmedSlice(s: string, t: string, r: string)
    requires |t| <= |s| && t == s[|s| - |t|..]
    requires forall i :: 0 <= i < |s| - |t| ==> IsSpace(s[i])
    requires |r| <= |t| && r == t[..|r|]
    requires forall i :: |r| <= i < |t| ==> IsSpace(t[i])
    requires t == [] || !IsSpace(t[0])
    requires r == [] || !IsSpace(r[|r| - 1])
    ensures TrimmedAt(s, |s| - |t|, r)
  {
    var a := |s| - |t|;
    assert AllSpace(s[..a]);
    assert r != [] ==> r[0] == t[0];
    var u := s[a + |r|..];
    forall i | 0 <= i < |u|
      ensures IsSpace(u[i])
    {
      assert t[|r| + i] == u[i];
    }
  }

  /** The trim is empty exactly when the string is all whitespace. */
  lemma TrimEmptyIff(s: string)
    ensures Trim(s) == [] <==> forall i :: 0 <= i < |s| ==> IsSpace(s[i])
  {
    var t := TrimStart(s);
    var a := |s| - |t|;
    TrimStartRemovesSpace(s);
    if t != [] {
      TrimEndKeepsFirst(t);
    }
    if Trim(s) == [] {
      assert t == [];
    } else {
      assert t != [] && !IsSpace(t[0]) && t[0] == s[a];
    }
  }

  /** A string with no whitespace at either end is its own trim. */
  lemma TrimUnchanged(s: string)
    requires s == [] || (!IsSpace(s[0]) && !IsSpace(s[|s| - 1]))
    ensures Trim(s) == s
  {
  }

  /** A character outside the Basic Multilingual Plane: `.length` counts it
    * as a surrogate pair. */
  predicate IsAstral(c: char)
  {
    c as int >= 0x10000
  }

  /** The number of characters outside the Basic Multilingual Plane. */
  ghost function AstralCount(s: string): nat
  {
    |set i | 0 <= i < |s| && IsAstral(s[i])|
  }

  /** `.length`: the number of UTF-16 code units, so a character outside
    * the Basic Multilingual Plane counts twice. */
  function Utf16Length(s: string): (n: nat)
    ensures |s| <= n <= 2 * |s|
    ensures n == |s| + AstralCount(s)
    decreases |s|
  {
    if s == [] then 0
    else
      var u := s[..|s| - 1];
      AstralCountSnoc(s);
      Utf16Length(u) + (if IsAstral(s[|s| - 1]) then 2 else 1)
  }

  /** Counting the characters outside the plane, one character at a time
    * from the back. */
  lemma AstralCountSnoc(s: string)
    requires s != []
    ensures AstralCount(s) == AstralCount(s[..|s| - 1]) + (if IsAstral(s[|s| - 1]) then 1 else 0)
  {
    var u := s[..|s| - 1];
    var A := set i | 0 <= i < |s| && IsAstral(s[i]);
    var B := set i | 0 <= i < |u| && IsAstral(u[i]);
    if IsAstral(s[|s| - 1]) {
      assert A == B + {|s| - 1};
    } else {
      assert A == B;
    }
  }

  /** `.length` of a concatenation is the sum of the lengths. */
  lemma {:induction false} Utf16LengthAppend(s: string, t: string)
    ensures Utf16Length(s + t) == Utf16Length(s) + Utf16Length(t)
    decreases |t|
  {
    if t == [] {
      assert s + t == s;
    } else {
      var v := t[..|t| - 1];
      assert (s + t)[..|s + t| - 1] == s + v;
      assert (s + t)[|s + t| - 1] == t[|t| - 1];
      Utf16LengthAppend(s, v);
    }
  }

  /** Text inside the Basic Multilingual Plane has one unit per character. */
  lemma {:induction false} Utf16LengthBmp(s: string)
    requires forall i :: 0 <= i < |s| ==> s[i] as int < 0x10000
    ensures Utf16Length(s) == |s|
    decreases |s|
  {
    if s != [] {
      var u := s[..|s| - 1];
      assert forall i :: 0 <= i < |u| ==> u[i] == s[i];
      Utf16LengthBmp(u);
    }
  }

  /** `p` occurs in `s` starting at index `i`. */
  predicate OccursAt(s: string, p: string, i: int)
  {
    0 <= i && i + |p| <= |s| && s[i..i + |p|] == p
  }

  /** `s.includes(p)`, searching from the left: true exactly when `p`
    * occurs somewhere in `s`. */
  function Includes(s: string, p: string): (b: bool)
    ensures b <==> exists i :: OccursAt(s, p, i)
    decreases |s|
  {
    if |p| > |s| then false
    else if s[..|p|] == p then
      assert OccursAt(s, p, 0);
      true
    else
      OccursAfterFirst(s, p);
      s != [] && Includes(s[1..], p)
  }

  /** When `p` does not occur at the front of `s`, its occurrences in `s`
    * are those in `s[1..]`, shifted by one. */
  lemma OccursAfterFirst(s: string, p: string)
    requires |p| <= |s| && s[..|p|] != p
    ensures s != []
    ensures (exists i :: OccursAt(s, p, i)) <==> (exists i :: OccursAt(s[1..], p, i))
  {
    if exists i :: OccursAt(s[1..], p, i) {
      var i :| OccursAt(s[1..], p, i);
      forall k | 0 <= k < |p|
        ensures s[i + 1..i + 1 + |p|][k] == p[k]
      {
        assert s[1..][i + k] == s[i + 1 + k];
        assert s[1..][i..i + |p|][k] == p[k];
      }
      assert OccursAt(s, p, i + 1);
    }
    if exists i :: OccursAt(s, p, i) {
      var i :| OccursAt(s, p, i);
      assert i != 0;
      forall k | 0 <= k < |p|
        ensures s[1..][i - 1..i - 1 + |p|][k] == p[k]
      {
        assert s[1..][i - 1 + k] == s[i + k];
        assert s[i..i + |p|][k] == p[k];
      }
      assert OccursAt(s[1..], p, i - 1);
    }
  }
}
