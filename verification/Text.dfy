/** String helpers shared by the Java and Python sources.

    Case folding is ASCII-only: `String.equalsIgnoreCase` in Java, `str.lower()`
    in Python and SQL `LOWER` all agree with it on ASCII text. */
module Text {

  function LowerChar(c: char): (d: char)
  {
    if 'A' <= c <= 'Z' then (c as int + 32) as char else c
  }

  /** Python `s.lower()` / SQL `LOWER(s)` on ASCII text. */
  function ToLower(s: string): (r: string)
    ensures |r| == |s|
    ensures forall i :: 0 <= i < |s| ==> r[i] == LowerChar(s[i])
  {
    seq(|s|, i requires 0 <= i < |s| => LowerChar(s[i]))
  }

  lemma ToLowerIdempotent(s: string)
    ensures ToLower(ToLower(s)) == ToLower(s)
  {
  }

  /** Java `a.equalsIgnoreCase(b)`. */
  predicate EqualsIgnoreCase(a: string, b: string)
  {
    ToLower(a) == ToLower(b)
  }

  /** `w` occurs in `s` starting at index `i`. */
  predicate OccursAt(s: string, w: string, i: int)
  {
    0 <= i && i + |w| <= |s| && s[i..i + |w|] == w
  }

  /** Python `w in s` / Java `s.contains(w)` / SQL `s LIKE '%w%'` without
      wildcards: `w` occurs at some position of `s`. */
  predicate Contains(s: string, w: string)
  {
    exists i :: 0 <= i <= |s| - |w| && OccursAt(s, w, i)
  }

  /** A word found at a known position is contained. */
  lemma ContainsAt(s: string, w: string, i: int)
    requires OccursAt(s, w, i)
    ensures Contains(s, w)
  {
  }

  /** A word with a character that does not occur in `s` is not contained in it. */
  lemma NotContainsChar(s: string, w: string, k: int)
    requires 0 <= k < |w| && w[k] !in s
    ensures !Contains(s, w)
  {
    forall i | 0 <= i <= |s| - |w| ensures !OccursAt(s, w, i) {
      assert s[i + k] in s;
      assert s[i..i + |w|][k] == s[i + k];
    }
  }

  /** Python `s.split('.')[-1]`: the text after the last '.', or all of `s`. */
  function AfterLastDot(s: string): (r: string)
    ensures |r| <= |s| && r == s[|s| - |r|..]
    ensures forall i :: 0 <= i < |r| ==> r[i] != '.'
    ensures |r| < |s| ==> s[|s| - |r| - 1] == '.'
    decreases |s|
  {
    if |s| == 0 then s
    else if s[|s| - 1] == '.' then []
    else AfterLastDot(s[..|s| - 1]) + [s[|s| - 1]]
  }
  /** Python `c.isspace()`: tab through carriage return, the four separator
      controls and the space; next-line (U+0085) and no-break space (U+00A0);
      the Ogham space mark (U+1680); the spaces U+2000 to U+200A; the line and
      paragraph separators (U+2028, U+2029); the narrow no-break space (U+202F);
      the medium mathematical space (U+205F); and the ideographic space (U+3000). */
  predicate IsSpace(c: char)
  {
    var n := c as int;
    || 9 <= n <= 13 || 28 <= n <= 32
    || n == 0x85 || n == 0xA0 || n == 0x1680
    || 0x2000 <= n <= 0x200A || n == 0x2028 || n == 0x2029
    || n == 0x202F || n == 0x205F || n == 0x3000
  }

  /** Python `s.lstrip()`. */
  function TrimStart(s: string): (r: string)
    ensures |r| <= |s| && r == s[|s| - |r|..]
    ensures forall i :: 0 <= i < |s| - |r| ==> IsSpace(s[i])
    ensures |r| > 0 ==> !IsSpace(r[0])
    decreases |s|
  {
    if |s| > 0 && IsSpace(s[0]) then TrimStart(s[1..]) else s
  }

  /** Python `s.rstrip()`. */
  function TrimEnd(s: string): (r: string)
    ensures |r| <= |s| && r == s[..|r|]
    ensures forall i :: |r| <= i < |s| ==> IsSpace(s[i])
    ensures |r| > 0 ==> !IsSpace(r[|r| - 1])
    decreases |s|
  {
    if |s| > 0 && IsSpace(s[|s| - 1]) then TrimEnd(s[..|s| - 1]) else s
  }

  /** Python `s.strip()`: the slice of `s` left once whitespace is cut from both
      ends; everything cut is whitespace and the slice neither starts nor ends with it. */
  function Strip(s: string): (r: string)
    ensures exists a :: OccursAt(s, r, a)
              && (forall i :: 0 <= i < a ==> IsSpace(s[i]))
              && (forall i :: a + |r| <= i < |s| ==> IsSpace(s[i]))
    ensures |r| > 0 ==> !IsSpace(r[0]) && !IsSpace(r[|r| - 1])
  {
    var t := TrimStart(s);
    var r := TrimEnd(t);
    var a := |s| - |t|;
    assert OccursAt(s, r, a);
    r
  }

  /** Stripping is all-or-nothing on blank text: the result is empty exactly when
      every character is whitespace. */
  lemma StripEmptyIff(s: string)
    ensures Strip(s) == [] <==> forall i :: 0 <= i < |s| ==> IsSpace(s[i])
  {
    if Strip(s) == [] {
      var a :| OccursAt(s, [], a) && (forall i :: 0 <= i < a ==> IsSpace(s[i]))
                && (forall i :: a <= i < |s| ==> IsSpace(s[i]));
    }
  }

  /** Python strips the no-break space and the ideographic space as it strips
      the ASCII space. */
  lemma StripsUnicodeSpaces()
    ensures Strip([0xA0 as char]) == []
    ensures Strip([0x3000 as char, 'a', 0x2029 as char]) == "a"
  {
    var nb: string := [0xA0 as char];
    assert IsSpace(nb[0]) && nb[1..] == [];
    assert TrimStart(nb) == [];
    var s: string := [0x3000 as char, 'a', 0x2029 as char];
    var t: string := ['a', 0x2029 as char];
    assert IsSpace(s[0]) && s[1..] == t && !IsSpace(t[0]);
    assert TrimStart(s) == t;
    assert IsSpace(t[1]) && t[..1] == "a" && !IsSpace('a');
    assert TrimEnd(t) == "a";
  }

  /** Stripping twice changes nothing more. */
  lemma StripIdempotent(s: string)
    ensures Strip(Strip(s)) == Strip(s)
  {
    var r := Strip(s);
    if |r| > 0 {
      assert TrimStart(r) == r;
      assert TrimEnd(r) == r;
    }
  }
}
