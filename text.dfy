/** Case-insensitive substring matching, the meaning given here to the
    database's `ilike('%term%')` pattern (ASCII letters only). */
module Text {

  /** ASCII lower-casing of one character; other characters are unchanged. */
  function Lower(c: char): (d: char)
    ensures 'A' <= c <= 'Z' ==> 'a' <= d <= 'z' && d as int == c as int + 32
    ensures !('A' <= c <= 'Z') ==> d == c
  {
    if 'A' <= c <= 'Z' then (c as int + 32) as char else c
  }

  /** ASCII upper-casing of one character; other characters are unchanged. */
  function Upper(c: char): (d: char)
    ensures 'a' <= c <= 'z' ==> 'A' <= d <= 'Z' && d as int == c as int - 32
    ensures !('a' <= c <= 'z') ==> d == c
  {
    if 'a' <= c <= 'z' then (c as int - 32) as char else c
  }

  function LowerString(s: string): (r: string)
    ensures |r| == |s|
    ensures forall i :: 0 <= i < |s| ==> r[i] == Lower(s[i])
  {
    seq(|s|, i requires 0 <= i < |s| => Lower(s[i]))
  }

  function UpperString(s: string): (r: string)
    ensures |r| == |s|
    ensures forall i :: 0 <= i < |s| ==> r[i] == Upper(s[i])
  {
    seq(|s|, i requires 0 <= i < |s| => Upper(s[i]))
  }

  /** `term` occurs in `text` as a contiguous block starting at index `i`. */
  predicate OccursAt(term: string, text: string, i: nat)
  {
    i + |term| <= |text| && text[i..i + |term|] == term
  }

  /** `term` occurs in `text` as a contiguous block. */
  predicate IsSubstring(term: string, text: string)
  {
    exists i: nat | i <= |text| :: OccursAt(term, text, i)
  }

  /** Character by character, `term` matches `text` from index `i` on,
      ignoring the case of letters. */
  predicate MatchesAt(text: string, term: string, i: nat)
  {
    i + |term| <= |text| && forall k :: 0 <= k < |term| ==> Lower(text[i + k]) == Lower(term[k])
  }

  /** Comparing lower-cased slices is comparing characters ignoring case. */
  lemma OccursAtLowered(text: string, term: string, i: nat)
    ensures OccursAt(LowerString(term), LowerString(text), i) <==> MatchesAt(text, term, i)
  {
    if MatchesAt(text, term, i) {
      assert LowerString(text)[i..i + |term|] == LowerString(term);
    }
    if OccursAt(LowerString(term), LowerString(text), i) {
      forall k | 0 <= k < |term|
        ensures Lower(text[i + k]) == Lower(term[k])
      {
        assert LowerString(text)[i..i + |term|][k] == LowerString(term)[k];
      }
    }
  }

  /** `text ILIKE '%term%'`: `term` occurs in `text`, ignoring the case of letters. */
  predicate ContainsIgnoringCase(text: string, term: string)
    ensures ContainsIgnoringCase(text, term) <==> exists i: nat :: MatchesAt(text, term, i)
    ensures ContainsIgnoringCase(text, term) ==> |term| <= |text|
  {
    OccursAtEverywhere(text, term);
    IsSubstring(LowerString(term), LowerString(text))
  }

  /** OccursAtLowered at every index. */
  lemma OccursAtEverywhere(text: string, term: string)
    ensures forall i: nat :: OccursAt(LowerString(term), LowerString(text), i) <==> MatchesAt(text, term, i)
  {
    forall i: nat
      ensures OccursAt(LowerString(term), LowerString(text), i) <==> MatchesAt(text, term, i)
    {
      OccursAtLowered(text, term, i);
    }
  }

  /** Lower-casing forgets whether the letters were written in upper case. */
  lemma LowerOfUpper(s: string)
    ensures LowerString(UpperString(s)) == LowerString(s)
  {
  }

  /** The empty term occurs in every text. */
  lemma EmptyTermMatches(text: string)
    ensures ContainsIgnoringCase(text, "")
  {
    assert OccursAt(LowerString(""), LowerString(text), 0);
  }
}
