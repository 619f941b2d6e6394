/**
 * The string operations `setFilter` (src/DependencyGraph.ts:182-190) relies on:
 * the regular-expression class `\s` and `replace(/\s/g, "")`, `toLowerCase`
 * and `includes`, over strings of characters.
 */
module Text {
  import opened Wrappers
  import opened Filtering

  /** ECMAScript's `\s`: the WhiteSpace and LineTerminator code points. */
  predicate IsWhitespace(c: char)
  {
    c == '\t' || c == '\n' || c == '\U{000B}' || c == '\U{000C}' || c == '\r'
    || c == ' ' || c == '\U{00A0}' || c == '\U{1680}'
    || ('\U{2000}' <= c <= '\U{200A}')
    || c == '\U{2028}' || c == '\U{2029}' || c == '\U{202F}' || c == '\U{205F}'
    || c == '\U{3000}' || c == '\U{FEFF}'
  }

  function NotWhitespace(): char -> bool
  {
    c => !IsWhitespace(c)
  }

  /** `s.replace(/\s/g, "")`: the characters of `s` that are not white space. */
  function StripWhitespace(s: string): (r: string)
    ensures |r| <= |s|
    ensures forall i :: 0 <= i < |r| ==> !IsWhitespace(r[i])
  {
    var r := Filter(s, NotWhitespace());
    FilterAllPass(s, NotWhitespace());
    assert forall i :: 0 <= i < |r| ==> r[i] in r;
    r
  }

  /**
   * The test of line 183: a value that is undefined, the empty string (both
   * falsy) or a string whose white-space-free form is empty means "no filter".
   */
  predicate IsBlank(value: Option<string>)
  {
    value.None? || value.value == "" || |StripWhitespace(value.value)| == 0
  }

  /** A defined value is blank exactly when every character of it is white space. */
  lemma BlankIffAllWhitespace(s: string)
    ensures IsBlank(Some(s)) <==> forall i :: 0 <= i < |s| ==> IsWhitespace(s[i])
  {
    FilterEmpty(s, NotWhitespace());
  }

  /** `toLowerCase` on one character (see README for its scope). */
  function LowerChar(c: char): (r: char)
    ensures !('A' <= r <= 'Z')
    ensures !('A' <= c <= 'Z') ==> r == c
    ensures 'A' <= c <= 'Z' ==> r == "abcdefghijklmnopqrstuvwxyz"[c as int - 'A' as int]
  {
    if 'A' <= c <= 'Z' then (c as int + 32) as char else c
  }

  /** `toLowerCase`: lower-cases every character, keeping the length. */
  function Lower(s: string): (r: string)
    ensures |r| == |s|
    ensures forall i :: 0 <= i < |s| ==> r[i] == LowerChar(s[i])
    ensures forall i :: 0 <= i < |s| ==> !('A' <= r[i] <= 'Z')
  {
    seq(|s|, i requires 0 <= i < |s| => LowerChar(s[i]))
  }

  /** Lower-casing twice is lower-casing once. */
  lemma LowerIdempotent(s: string)
    ensures Lower(Lower(s)) == Lower(s)
  {
  }

  predicate StartsWith(s: string, t: string)
  {
    |t| <= |s| && s[..|t|] == t
  }

  /** `t` occurs in `s` starting at position `i`. */
  predicate OccursAt(s: string, t: string, i: int)
  {
    0 <= i <= |s| - |t| && s[i..i + |t|] == t
  }

  /** `s.includes(t)`: `t` starts at some position of `s`. */
  predicate Includes(s: string, t: string): (r: bool)
    ensures r ==> |t| <= |s|
    ensures t == "" ==> r
    decreases |s|
  {
    StartsWith(s, t) || (|s| > 0 && Includes(s[1..], t))
  }

  /** `Includes` holds exactly when `t` occurs as a contiguous slice of `s`. */
  lemma {:induction false} IncludesIff(s: string, t: string)
    ensures Includes(s, t) <==> exists i :: OccursAt(s, t, i)
  {
    if Includes(s, t) {
      if StartsWith(s, t) {
        assert OccursAt(s, t, 0);
      } else {
        IncludesIff(s[1..], t);
        var i :| OccursAt(s[1..], t, i);
        assert s[1..][i..i + |t|] == s[i + 1..i + 1 + |t|];
        assert OccursAt(s, t, i + 1);
      }
    } else if exists i :: OccursAt(s, t, i) {
      var i :| OccursAt(s, t, i);
      if i > 0 {
        assert s[1..][i - 1..i - 1 + |t|] == s[i..i + |t|];
        assert OccursAt(s[1..], t, i - 1);
        IncludesIff(s[1..], t);
      }
    }
  }

  /**
   * The node test of lines 186-188: the lower-cased name contains the
   * lower-cased query, which is not trimmed first.
   */
  predicate MatchesQuery(name: string, filter: string): (r: bool)
    ensures r ==> |filter| <= |name|
    ensures filter == "" ==> r
  {
    Includes(Lower(name), filter)
  }
}
