/** The one string operation the generator uses to select its input files. */
module Strings {

  /** `sub` occurs in `s` starting at position `i`. */
  predicate OccursAt(s: string, sub: string, i: int) {
    0 <= i <= |s| - |sub| && s[i..i + |sub|] == sub
  }

  /** Python's `sub in s` on strings: `sub` occurs somewhere in `s`. */
  function Contains(s: string, sub: string): (r: bool)
    ensures r <==> exists i :: OccursAt(s, sub, i)
    decreases |s|
  {
    if |s| < |sub| then false
    else if s[..|sub|] == sub then
      assert OccursAt(s, sub, 0);
      true
    else
      var r := Contains(s[1..], sub);
      assert forall i :: OccursAt(s[1..], sub, i) <==> OccursAt(s, sub, i + 1);
      assert !OccursAt(s, sub, 0);
      if r then
        var i :| OccursAt(s[1..], sub, i);
        assert OccursAt(s, sub, i + 1);
        r
      else
        assert forall i :: OccursAt(s, sub, i) ==> OccursAt(s[1..], sub, i - 1);
        r
  }
}
