/** The string operations the service applies to names and look-up tokens:
    lower-casing (`toLowerCase`, `toLocaleLowerCase`) and `trim`. */
module Text {

  /** ASCII case mapping: 'A'..'Z' become 'a'..'z', every other character is kept. */
  function LowerChar(c: char): char
  {
    if 'A' <= c <= 'Z' then (c as int + 32) as char else c
  }

  predicate IsLower(s: string)
  {
    forall i :: 0 <= i < |s| ==> !('A' <= s[i] <= 'Z')
  }

  /** Lower-cases every character of `s`, keeping its length. */
  function Lower(s: string): (r: string)
    ensures |r| == |s|
    ensures forall i :: 0 <= i < |s| ==> r[i] == LowerChar(s[i])
  {
    if s == [] then [] else [LowerChar(s[0])] + Lower(s[1..])
  }

  lemma LowerIsLower(s: string)
    ensures IsLower(Lower(s))
  {
  }

  /** A string that is already lower case is left as it is; in particular
      lower-casing twice is the same as lower-casing once. */
  lemma LowerOfLower(s: string)
    requires IsLower(s)
    ensures Lower(s) == s
  {
  }

  lemma LowerIdempotent(s: string)
    ensures Lower(Lower(s)) == Lower(s)
  {
    LowerIsLower(s);
    LowerOfLower(Lower(s));
  }

  /** Lower-casing `" Pikachu "` gives `" pikachu "`. */
  lemma LowerExample()
    ensures Lower(" Pikachu ") == " pikachu "
  {
    var token, lowered := " Pikachu ", Lower(" Pikachu ");
    assert LowerChar('P') == 'p';
    forall i | 0 <= i < |token| ensures lowered[i] == " pikachu "[i] {
      assert lowered[i] == LowerChar(token[i]);
    }
  }

  /** The characters ECMAScript's `String.prototype.trim` removes: the
      WhiteSpace and LineTerminator code points of ECMA-262 (section 12.2 and
      12.3), including the Unicode "Zs" space separators. */
  predicate IsWhiteSpace(c: char)
  {
    var n := c as int;
    (9 <= n <= 13) || n == 0x20 || n == 0xA0 || n == 0x1680 ||
    (0x2000 <= n <= 0x200A) || n == 0x2028 || n == 0x2029 ||
    n == 0x202F || n == 0x205F || n == 0x3000 || n == 0xFEFF
  }

  predicate AllWhiteSpace(s: string)
  {
    forall i :: 0 <= i < |s| ==> IsWhiteSpace(s[i])
  }

  /** Number of white-space characters at the start of `s`. */
  function LeadingSpace(s: string): (n: nat)
    ensures n <= |s|
    ensures forall i :: 0 <= i < n ==> IsWhiteSpace(s[i])
    ensures n < |s| ==> !IsWhiteSpace(s[n])
  {
    if s != [] && IsWhiteSpace(s[0]) then 1 + LeadingSpace(s[1..]) else 0
  }

  /** Number of white-space characters at the end of `s`. */
  function TrailingSpace(s: string): (n: nat)
    ensures n <= |s|
    ensures forall i :: |s| - n <= i < |s| ==> IsWhiteSpace(s[i])
    ensures n < |s| ==> !IsWhiteSpace(s[|s| - 1 - n])
  {
    if s != [] && IsWhiteSpace(s[|s| - 1]) then 1 + TrailingSpace(s[..|s| - 1]) else 0
  }

  /** `s.trim()`: `s` without its leading and trailing white space. */
  function Trim(s: string): (r: string)
    ensures r == [] <==> AllWhiteSpace(s)
    ensures r != [] ==> !IsWhiteSpace(r[0]) && !IsWhiteSpace(r[|r| - 1])
    ensures IsLower(s) ==> IsLower(r)
  {
    var a := LeadingSpace(s);
    var t := s[a..];
    var r := t[..|t| - TrailingSpace(t)];
    assert IsLower(s) ==> IsLower(r) by {
      if IsLower(s) {
        forall k | 0 <= k < |r| ensures !('A' <= r[k] <= 'Z') { assert r[k] == s[a + k]; }
      }
    }
    r
  }

  /** A core with no white space at either end, padded by white space on both
      sides, trims back to that core: trim is the inverse of padding. */
  lemma {:induction false} TrimPadded(pre: string, core: string, post: string)
    requires AllWhiteSpace(pre) && AllWhiteSpace(post)
    requires core != [] ==> !IsWhiteSpace(core[0]) && !IsWhiteSpace(core[|core| - 1])
    ensures Trim(pre + core + post) == core
  {
    var s := pre + core + post;
    if core == [] {
      assert AllWhiteSpace(s) by {
        forall i | 0 <= i < |s| ensures IsWhiteSpace(s[i]) {
          if i < |pre| { assert s[i] == pre[i]; } else { assert s[i] == post[i - |pre|]; }
        }
      }
    } else {
      var a := LeadingSpace(s);
      assert s[|pre|] == core[0];
      assert forall i :: 0 <= i < |pre| ==> IsWhiteSpace(s[i]) by {
        forall i | 0 <= i < |pre| ensures s[i] == pre[i] { }
      }
      assert !IsWhiteSpace(s[|pre|]);
      assert a == |pre|;
      var t := s[a..];
      assert t == core + post;
      var b := TrailingSpace(t);
      assert t[|core| - 1] == core[|core| - 1];
      assert forall i :: |t| - |post| <= i < |t| ==> IsWhiteSpace(t[i]) by {
        forall i | |t| - |post| <= i < |t| ensures t[i] == post[i - |core|] { }
      }
      assert !IsWhiteSpace(t[|t| - 1 - |post|]);
      assert b == |post|;
      assert t[..|t| - b] == core;
    }
  }

  /** Trimming twice is the same as trimming once. */
  lemma TrimIdempotent(s: string)
    ensures Trim(Trim(s)) == Trim(s)
  {
    var r := Trim(s);
    TrimPadded([], r, []);
    assert [] + r + [] == r;
  }

  /** `sub` occurs in `s` starting at position `i`. */
  predicate OccursAt(s: string, sub: string, i: int)
  {
    0 <= i <= |s| - |sub| && s[i..i + |sub|] == sub
  }

  /** `sub` occurs somewhere inside `s`. */
  predicate Contains(s: string, sub: string)
  {
    exists i :: 0 <= i <= |s| && OccursAt(s, sub, i)
  }

  lemma ContainsMiddle(pre: string, sub: string, post: string)
    ensures Contains(pre + sub + post, sub)
  {
    var s := pre + sub + post;
    assert OccursAt(s, sub, |pre|) by {
      assert s[|pre|..|pre| + |sub|] == sub;
    }
  }
}
