/** JavaScript strings as the worker sees them: sequences of UTF-16 code units,
    with the two string operations the worker relies on, `toLowerCase` and `indexOf`. */
module JsStrings {

  /** One UTF-16 code unit, the value `charCodeAt` returns. */
  type CodeUnit = n: int | 0 <= n < 0x1_0000

  type JsString = seq<CodeUnit>

  const Space: CodeUnit := 0x20

  /** The text `"undefined"`, which string concatenation produces for a missing property. */
  const Undefined: JsString := [0x75, 0x6e, 0x64, 0x65, 0x66, 0x69, 0x6e, 0x65, 0x64]

  /** `toLowerCase` on one code unit, restricted to the ASCII letters A-Z. */
  function LowerUnit(c: CodeUnit): CodeUnit {
    if 0x41 <= c <= 0x5a then c + 0x20 else c
  }

  function Lower(s: JsString): JsString {
    seq(|s|, i requires 0 <= i < |s| => LowerUnit(s[i]))
  }

  /** Lowering twice is lowering once: the second `toLowerCase` the single-word
      search applies to an already lowered query changes nothing. */
  lemma LowerIdempotent(s: JsString)
    ensures Lower(Lower(s)) == Lower(s)
  {
    assert forall i :: 0 <= i < |s| ==> LowerUnit(LowerUnit(s[i])) == LowerUnit(s[i]);
  }

  /** Lowering neither creates nor removes a space. */
  lemma LowerKeepsSpaces(s: JsString)
    ensures Space in Lower(s) <==> Space in s
  {
    if Space in s {
      var i :| 0 <= i < |s| && s[i] == Space;
      assert Lower(s)[i] == Space;
    }
    if Space in Lower(s) {
      var i :| 0 <= i < |s| && Lower(s)[i] == Space;
      assert s[i] == Space;
    }
  }

  /** `pat` occurs in `s` starting at index `i`. */
  ghost predicate OccursAt(s: JsString, pat: JsString, i: int) {
    0 <= i && i + |pat| <= |s| && s[i..i + |pat|] == pat
  }

  /** `s.indexOf(pat, from)`: the first index at or after `from` where `pat`
      occurs, or -1 when there is none. */
  function IndexFrom(s: JsString, pat: JsString, from: nat): (r: int)
    decreases |s| - from
    ensures r == -1 || (from <= r && OccursAt(s, pat, r))
    ensures r == -1 ==> forall i :: from <= i ==> !OccursAt(s, pat, i)
    ensures r != -1 ==> forall i :: from <= i < r ==> !OccursAt(s, pat, i)
  {
    if from + |pat| > |s| then -1
    else if s[from..from + |pat|] == pat then from
    else IndexFrom(s, pat, from + 1)
  }

  /** `s.indexOf(pat)`: -1 exactly when `pat` occurs nowhere in `s`, otherwise
      the first place it occurs. */
  function IndexOf(s: JsString, pat: JsString): (r: int)
    ensures r == -1 <==> forall i :: !OccursAt(s, pat, i)
    ensures r != -1 ==> OccursAt(s, pat, r) && forall i :: 0 <= i < r ==> !OccursAt(s, pat, i)
  {
    IndexFrom(s, pat, 0)
  }

  /** Looking for a one-unit string is looking for that code unit. */
  lemma IndexOfUnit(s: JsString, c: CodeUnit)
    ensures IndexOf(s, [c]) == -1 <==> c !in s
  {
    if c in s {
      var i :| 0 <= i < |s| && s[i] == c;
      assert OccursAt(s, [c], i);
    }
    if IndexOf(s, [c]) != -1 {
      var i := IndexOf(s, [c]);
      assert s[i..i + 1] == [c];
      assert s[i] == c;
    }
  }
}
