/**
 * The part of JavaScript's string semantics that the page relies on:
 * `String.prototype.trim` (section 22.1.3.32 of ECMA-262) and the
 * truthiness of a string (the empty string is the only falsy one).
 */
module JsString {

  /** The WhiteSpace and LineTerminator code points of ECMA-262 (sections 12.2 and 12.3). */
  const Whitespace: set<char> := {
    '\U{0009}', '\U{000B}', '\U{000C}', '\U{FEFF}',                 // TAB, VT, FF, ZWNBSP
    '\U{0020}', '\U{00A0}', '\U{1680}',                             // Space_Separator ...
    '\U{2000}', '\U{2001}', '\U{2002}', '\U{2003}', '\U{2004}', '\U{2005}',
    '\U{2006}', '\U{2007}', '\U{2008}', '\U{2009}', '\U{200A}',
    '\U{202F}', '\U{205F}', '\U{3000}',                             // ... Space_Separator
    '\U{000A}', '\U{000D}', '\U{2028}', '\U{2029}'                  // LF, CR, LS, PS
  }

  predicate IsWhitespace(c: char) {
    c in Whitespace
  }

  /** Every character of s is whitespace (the empty string included). */
  ghost predicate AllWhitespace(s: string) {
    forall i :: 0 <= i < |s| ==> IsWhitespace(s[i])
  }

  /** JavaScript truthiness of a string: `!s` holds exactly for "". */
  predicate Truthy(s: string) {
    s != ""
  }

  /** Drops the leading whitespace: the result is the suffix of s that starts at its first non-whitespace character. */
  function TrimStart(s: string): (r: string)
    ensures |r| <= |s| && r == s[|s| - |r|..]
    ensures forall i :: 0 <= i < |s| - |r| ==> IsWhitespace(s[i])
    ensures r == [] || !IsWhitespace(r[0])
    decreases |s|
  {
    if s == [] || !IsWhitespace(s[0]) then s else TrimStart(s[1..])
  }

  /** Drops the trailing whitespace: the result is the prefix of s that ends at its last non-whitespace character. */
  function TrimEnd(s: string): (r: string)
    ensures |r| <= |s| && r == s[..|r|]
    ensures forall i :: |r| <= i < |s| ==> IsWhitespace(s[i])
    ensures r == [] || !IsWhitespace(r[|r| - 1])
    decreases |s|
  {
    if s == [] || !IsWhitespace(s[|s| - 1]) then s else TrimEnd(s[..|s| - 1])
  }

  /** `s.trim()`: whitespace removed from both ends, nothing inside touched. */
  function Trim(s: string): (r: string)
    ensures |r| <= |s|
    ensures r == [] || (!IsWhitespace(r[0]) && !IsWhitespace(r[|r| - 1]))
    ensures (s == [] || (!IsWhitespace(s[0]) && !IsWhitespace(s[|s| - 1]))) ==> r == s
    ensures exists i, j :: CutsTo(s, i, j, r)
  {
    TrimIsSlice(s);
    TrimEnd(TrimStart(s))
  }

  /** r is s[i..j], and what lies outside it, s[..i] and s[j..], is whitespace. */
  ghost predicate CutsTo(s: string, i: int, j: int, r: string) {
    0 <= i <= j <= |s| && r == s[i..j] && AllWhitespace(s[..i]) && AllWhitespace(s[j..])
  }

  /** Trimming cuts s to a slice and drops only whitespace. */
  lemma TrimIsSlice(s: string)
    ensures exists i, j :: CutsTo(s, i, j, TrimEnd(TrimStart(s)))
  {
    var t := TrimStart(s);
    var r := TrimEnd(t);
    var i := |s| - |t|;
    var j := i + |r|;
    assert r == s[i..j];
    assert AllWhitespace(s[..i]) by {
      forall k | 0 <= k < i
        ensures IsWhitespace(s[..i][k])
      {
        assert s[..i][k] == s[k];
      }
    }
    assert AllWhitespace(s[j..]) by {
      forall k | 0 <= k < |s| - j
        ensures IsWhitespace(s[j..][k])
      {
        assert s[j..][k] == t[|r| + k];
      }
    }
    assert CutsTo(s, i, j, r);
  }

  /** `!s.trim()`: the string is empty after trimming. */
  predicate IsBlank(s: string) {
    !Truthy(Trim(s))
  }

  /** Trimming leaves nothing exactly when every character is whitespace. */
  lemma BlankIffAllWhitespace(s: string)
    ensures IsBlank(s) <==> AllWhitespace(s)
  {
  }

  /** Trimming twice is trimming once. */
  lemma TrimIdempotent(s: string)
    ensures Trim(Trim(s)) == Trim(s)
  {
  }
}
