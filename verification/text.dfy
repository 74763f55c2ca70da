/** ASCII case folding and substring search on strings. */
module Text {

  predicate IsUpper(c: char) {
    'A' <= c <= 'Z'
  }

  function LowerChar(c: char): char {
    if IsUpper(c) then (c as int + 32) as char else c
  }

  /** `str.lower()`, restricted to the ASCII letters. */
  function Lower(s: string): (r: string)
    ensures |r| == |s|
    ensures forall i :: 0 <= i < |s| ==> !IsUpper(r[i])
    ensures forall i :: 0 <= i < |s| && !IsUpper(s[i]) ==> r[i] == s[i]
    ensures forall i :: 0 <= i < |s| && IsUpper(s[i]) ==> r[i] as int == s[i] as int + 32
  {
    seq(|s|, i requires 0 <= i < |s| => LowerChar(s[i]))
  }

  /** Lowering twice is lowering once. */
  lemma LowerIdempotent(s: string)
    ensures Lower(Lower(s)) == Lower(s)
  {
  }

  /** `pat` occurs in `s` starting at position `i`. */
  predicate OccursAt(s: string, pat: string, i: int) {
    0 <= i && i + |pat| <= |s| && s[i..i + |pat|] == pat
  }

  /** `pat in s` for Python strings, as a scan from the left. */
  function Contains(s: string, pat: string): (r: bool)
    ensures r <==> exists i :: OccursAt(s, pat, i)
    decreases |s|
  {
    if |pat| <= |s| && s[..|pat|] == pat then
      assert OccursAt(s, pat, 0);
      true
    else if |s| == 0 then
      false
    else
      var r := Contains(s[1..], pat);
      ShiftOccurrence(s, pat);
      r
  }

  /** With no occurrence at position 0, `pat` occurs in `s` exactly when it occurs in `s[1..]`. */
  lemma ShiftOccurrence(s: string, pat: string)
    requires |s| > 0
    requires !OccursAt(s, pat, 0)
    ensures (exists i :: OccursAt(s, pat, i)) <==> (exists j :: OccursAt(s[1..], pat, j))
  {
    if exists i :: OccursAt(s, pat, i) {
      var i :| OccursAt(s, pat, i);
      assert s[1..][i - 1..i - 1 + |pat|] == s[i..i + |pat|];
      assert OccursAt(s[1..], pat, i - 1);
    }
    if exists j :: OccursAt(s[1..], pat, j) {
      var j :| OccursAt(s[1..], pat, j);
      assert s[1..][j..j + |pat|] == s[j + 1..j + 1 + |pat|];
      assert OccursAt(s, pat, j + 1);
    }
  }
}
