/** The string operations the search filters use: `toLowerCase()` and
    `includes()`. Lower-casing covers the ASCII letters only. */
module Text {

  function LowerChar(c: char): char
  {
    if 'A' <= c <= 'Z' then (c as int + 32) as char else c
  }

  /** `s.toLowerCase()`, restricted to ASCII. */
  function Lower(s: string): (r: string)
    ensures |r| == |s|
    ensures forall i :: 0 <= i < |s| ==> r[i] == LowerChar(s[i])
    ensures forall i :: 0 <= i < |r| ==> !('A' <= r[i] <= 'Z')
  {
    seq(|s|, i requires 0 <= i < |s| => LowerChar(s[i]))
  }

  /** Lower-casing twice is lower-casing once. */
  lemma LowerIdempotent(s: string)
    ensures Lower(Lower(s)) == Lower(s)
  {
    var r := Lower(s);
    forall i | 0 <= i < |r|
      ensures Lower(r)[i] == r[i]
    {
      assert !('A' <= r[i] <= 'Z');
    }
  }

  /** `sub` occurs in `s` at offset `i`. */
  ghost predicate OccursAt(s: string, sub: string, i: int)
  {
    0 <= i && i + |sub| <= |s| && s[i..i + |sub|] == sub
  }

  /** `s.includes(sub)`: tries each offset from the left. */
  predicate Includes(s: string, sub: string)
    decreases |s|
  {
    (|sub| <= |s| && s[..|sub|] == sub) || (|s| > 0 && Includes(s[1..], sub))
  }

  lemma {:induction false} IncludesAt(s: string, sub: string, i: int)
    requires OccursAt(s, sub, i)
    ensures Includes(s, sub)
    decreases i
  {
    if i > 0 {
      assert s[1..][i - 1..i - 1 + |sub|] == s[i..i + |sub|];
      IncludesAt(s[1..], sub, i - 1);
    }
  }

  lemma {:induction false} IncludesWitness(s: string, sub: string) returns (i: int)
    requires Includes(s, sub)
    ensures OccursAt(s, sub, i)
    decreases |s|
  {
    if |sub| <= |s| && s[..|sub|] == sub {
      i := 0;
    } else {
      var j := IncludesWitness(s[1..], sub);
      assert s[1..][j..j + |sub|] == s[j + 1..j + 1 + |sub|];
      i := j + 1;
    }
  }

  /** `Includes` finds `sub` exactly when it occurs somewhere in `s`. */
  lemma IncludesIff(s: string, sub: string)
    ensures Includes(s, sub) <==> exists i :: OccursAt(s, sub, i)
  {
    if Includes(s, sub) {
      var i := IncludesWitness(s, sub);
    }
    if exists i :: OccursAt(s, sub, i) {
      var i :| OccursAt(s, sub, i);
      IncludesAt(s, sub, i);
    }
  }

  /** The empty string occurs in every string, so an empty search term would
      keep every record even without the stores' explicit guard. */
  lemma IncludesEmpty(s: string)
    ensures Includes(s, "")
  {
    assert s[..0] == "";
  }

  /** `field.toLowerCase().includes(term.toLowerCase())`. */
  predicate ContainsIgnoringCase(field: string, term: string)
  {
    Includes(Lower(field), Lower(term))
  }

  /** The comparison is blind to case on both sides: lower-casing the field
      or the term first changes no outcome. */
  lemma CaseBlind(field: string, term: string)
    ensures ContainsIgnoringCase(Lower(field), term) <==> ContainsIgnoringCase(field, term)
    ensures ContainsIgnoringCase(field, Lower(term)) <==> ContainsIgnoringCase(field, term)
  {
    LowerIdempotent(field);
    LowerIdempotent(term);
  }

  /** A string none of whose characters starts `sub` does not include it. */
  lemma {:induction false} ExcludesWithoutFirstChar(s: string, sub: string)
    requires |sub| > 0 && forall i :: 0 <= i < |s| ==> s[i] != sub[0]
    ensures !Includes(s, sub)
    decreases |s|
  {
    if |s| > 0 {
      assert |sub| <= |s| ==> s[..|sub|][0] == s[0];
      ExcludesWithoutFirstChar(s[1..], sub);
    }
  }

}
