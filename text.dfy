/** The JavaScript string operations the dashboards rely on: `trim`,
    `toLowerCase`, `includes` and `length`. Strings are sequences of Unicode
    scalar values; `length` counts their UTF-16 code units; `toLowerCase` is
    modelled on ASCII letters only. */
module Text {

  /** ECMAScript WhiteSpace and LineTerminator code points: what `trim` strips. */
  predicate IsSpace(c: char)
  {
    || c == '\t' || c == '\n' || c == '\U{000B}' || c == '\U{000C}' || c == '\r' || c == ' '
    || c == '\U{00A0}' || c == '\U{1680}' || ('\U{2000}' <= c <= '\U{200A}')
    || c == '\U{2028}' || c == '\U{2029}' || c == '\U{202F}' || c == '\U{205F}'
    || c == '\U{3000}' || c == '\U{FEFF}'
  }

  /** Drops leading white space: what is left is a suffix starting with a non-space. */
  function TrimStart(s: string): (r: string)
    ensures |r| <= |s| && r == s[|s| - |r|..]
    ensures forall i :: 0 <= i < |s| - |r| ==> IsSpace(s[i])
    ensures r == [] || !IsSpace(r[0])
  {
    if s != [] && IsSpace(s[0]) then TrimStart(s[1..]) else s
  }

  /** Drops trailing white space: what is left is a prefix ending with a non-space. */
  function TrimEnd(s: string): (r: string)
    ensures |r| <= |s| && r == s[..|r|]
    ensures forall i :: |r| <= i < |s| ==> IsSpace(s[i])
    ensures r == [] || !IsSpace(r[|r| - 1])
  {
    if s != [] && IsSpace(s[|s| - 1]) then TrimEnd(s[..|s| - 1]) else s
  }

  /** JavaScript's `s.trim()`. */
  function Trim(s: string): (r: string)
    ensures |r| <= |s|
  {
    TrimEnd(TrimStart(s))
  }

  /** `Trim(s)` is the slice `s[a..b]` where everything outside is white space
      and, when it is not empty, it starts and ends with a non-space. */
  lemma TrimSlice(s: string) returns (a: nat, b: nat)
    ensures a <= b <= |s| && Trim(s) == s[a..b]
    ensures forall i :: 0 <= i < a ==> IsSpace(s[i])
    ensures forall i :: b <= i < |s| ==> IsSpace(s[i])
    ensures a < b ==> !IsSpace(s[a]) && !IsSpace(s[b - 1])
  {
    var t := TrimStart(s);
    var r := TrimEnd(t);
    assert Trim(s) == r;
    a := |s| - |t|;
    b := a + |r|;
    assert t == s[a..];
    assert r == t[..|r|];
    assert r == s[a..b];
    forall i | b <= i < |s| ensures IsSpace(s[i]) {
      assert s[i] == t[i - a];
    }
    if a < b {
      assert !IsSpace(t[0]) && !IsSpace(t[|r| - 1]);
      assert s[a] == t[0] && s[b - 1] == t[|r| - 1];
    }
  }

  /** A code point above U+FFFF, which JavaScript stores as a surrogate pair. */
  predicate IsAstral(c: char)
  {
    c >= '\U{10000}'
  }

  /** JavaScript's `s.length`: the number of UTF-16 code units, so an astral
      character counts twice. */
  function Utf16Length(s: string): (n: nat)
    ensures |s| <= n <= 2 * |s|
    ensures n == |s| <==> forall i :: 0 <= i < |s| ==> !IsAstral(s[i])
  {
    if s == [] then 0 else (if IsAstral(s[0]) then 2 else 1) + Utf16Length(s[1..])
  }

  /** The text holds at least two characters that are not white space. */
  predicate TwoVisible(s: string)
  {
    exists i, j :: 0 <= i < j < |s| && !IsSpace(s[i]) && !IsSpace(s[j])
  }

  /** The text holds a character that is not white space and lies above U+FFFF. */
  predicate VisibleAstral(s: string)
  {
    exists i :: 0 <= i < |s| && !IsSpace(s[i]) && IsAstral(s[i])
  }

  /** `s.trim().length > 1` read without `trim`: the text holds two visible
      characters, or one visible character that takes two code units. */
  lemma TrimLongerThanOne(s: string)
    ensures Utf16Length(Trim(s)) > 1 <==> TwoVisible(s) || VisibleAstral(s)
  {
    var a, b := TrimSlice(s);
    var t := Trim(s);
    if Utf16Length(t) > 1 {
      if |t| > 1 {
        assert !IsSpace(s[a]) && !IsSpace(s[b - 1]);
      } else {
        assert t == [s[a]];
        assert !IsSpace(s[a]) && IsAstral(s[a]);
      }
    }
    if TwoVisible(s) {
      var i, j :| 0 <= i < j < |s| && !IsSpace(s[i]) && !IsSpace(s[j]);
      assert a <= i && j < b;
    }
    if VisibleAstral(s) {
      var i :| 0 <= i < |s| && !IsSpace(s[i]) && IsAstral(s[i]);
      assert a <= i < b;
      if |t| == 1 {
        assert t == [s[i]];
      }
    }
  }

  /** ASCII `toLowerCase` on one character. */
  function LowerChar(c: char): char
  {
    if 'A' <= c <= 'Z' then (c as int + 32) as char else c
  }

  /** JavaScript's `s.toLowerCase()`, restricted to ASCII letters. */
  function ToLower(s: string): (r: string)
    ensures |r| == |s|
    ensures forall i :: 0 <= i < |r| ==> !('A' <= r[i] <= 'Z')
  {
    seq(|s|, i requires 0 <= i < |s| => LowerChar(s[i]))
  }

  /** A lowercase letter `c` occurs in `ToLower(s)` only where `s` holds `c`
      or its capital. */
  lemma {:induction false} ToLowerOccurrence(s: string, c: char)
    requires 'a' <= c <= 'z'
    requires c !in s && (c as int - 32) as char !in s
    ensures c !in ToLower(s)
  {
  }

  /** JavaScript's `s.includes(sub)`: `sub` occurs in `s` as a contiguous block. */
  predicate Includes(s: string, sub: string)
    ensures Includes(s, sub) ==> |sub| <= |s|
  {
    exists i | 0 <= i <= |s| - |sub| :: OccursAt(s, sub, i)
  }

  /** `sub` occurs in `s` starting at position `i`. */
  predicate OccursAt(s: string, sub: string, i: int)
  {
    0 <= i <= |s| - |sub| && s[i..i + |sub|] == sub
  }

  /** The empty string is included in every string. */
  lemma EmptyIncluded(s: string)
    ensures Includes(s, "")
  {
    assert OccursAt(s, "", 0);
  }

  /** Every character of an included string occurs in the including one. */
  lemma IncludesCharacters(s: string, sub: string)
    requires Includes(s, sub)
    ensures forall c :: c in sub ==> c in s
  {
    var i :| OccursAt(s, sub, i);
    assert OccursAt(s, sub, i);
    forall c | c in sub ensures c in s {
      var k :| 0 <= k < |sub| && sub[k] == c;
      assert s[i..i + |sub|][k] == s[i + k];
    }
  }

  /** A lowercase letter that `s` holds in neither case rules out every query containing it. */
  lemma NotIncludedForMissingLetter(s: string, sub: string, c: char)
    requires 'a' <= c <= 'z' && c in sub
    requires c !in s && (c as int - 32) as char !in s
    ensures !Includes(ToLower(s), sub)
  {
    ToLowerOccurrence(s, c);
    if Includes(ToLower(s), sub) {
      IncludesCharacters(ToLower(s), sub);
    }
  }
}
