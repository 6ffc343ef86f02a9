/** Case-sensitive substring search, as JavaScript's String.prototype.includes
    does it (with no start position). */
module Strings {

  predicate IsPrefix(p: string, s: string) {
    |p| <= |s| && s[..|p|] == p
  }

  /** `s.includes(marker)`: tries each start position from left to right. */
  predicate Includes(s: string, marker: string)
    ensures Includes(s, marker) ==> |marker| <= |s|
    ensures Includes(s, marker) && |marker| > 0 ==> marker[0] in s
    decreases |s|
  {
    IsPrefix(marker, s) || (|s| > 0 && Includes(s[1..], marker))
  }

  /** `marker` occurs in `s` starting at index `i`. */
  ghost predicate OccursAt(s: string, marker: string, i: int) {
    0 <= i && i + |marker| <= |s| && s[i..i + |marker|] == marker
  }

  /** The search finds the marker exactly when it occurs somewhere. */
  lemma {:induction false} IncludesIff(s: string, marker: string)
    ensures Includes(s, marker) <==> exists i :: OccursAt(s, marker, i)
    decreases |s|
  {
    if IsPrefix(marker, s) {
      assert OccursAt(s, marker, 0);
    } else if |s| == 0 {
      assert forall i :: !OccursAt(s, marker, i);
    } else {
      IncludesIff(s[1..], marker);
      forall i | OccursAt(s, marker, i)
        ensures OccursAt(s[1..], marker, i - 1)
      {
        assert i != 0;
        assert s[1..][i - 1..i - 1 + |marker|] == s[i..i + |marker|];
      }
      forall i | OccursAt(s[1..], marker, i)
        ensures OccursAt(s, marker, i + 1)
      {
        assert s[1..][i..i + |marker|] == s[i + 1..i + 1 + |marker|];
      }
    }
  }

  /** A marker with a character that the string lacks is not included. */
  lemma MissingCharExcludes(s: string, marker: string, i: int)
    requires 0 <= i < |marker| && marker[i] !in s
    ensures !Includes(s, marker)
  {
    IncludesIff(s, marker);
  }

  /** An occurrence at a known index is found by the search. */
  lemma OccurrenceIncluded(s: string, marker: string, i: int)
    requires OccursAt(s, marker, i)
    ensures Includes(s, marker)
  {
    IncludesIff(s, marker);
  }
}
