/** Case folding of identifiers, as Python's `str.lower` does it on the
    ASCII letters that group ids and role names are made of. */
module Text {

  predicate IsUpperChar(c: char) {
    'A' <= c <= 'Z'
  }

  function LowerChar(c: char): (d: char)
    ensures !IsUpperChar(d)
    ensures !IsUpperChar(c) ==> d == c
  {
    if IsUpperChar(c) then (c as int + 32) as char else c
  }

  /** No upper-case letter occurs in `s`. */
  predicate IsLower(s: string) {
    forall i :: 0 <= i < |s| ==> !IsUpperChar(s[i])
  }

  /** `s.lower()`: every character folded, the length kept, nothing upper-case left. */
  function Lower(s: string): (r: string)
    ensures |r| == |s|
    ensures forall i :: 0 <= i < |s| ==> r[i] == LowerChar(s[i])
    ensures IsLower(r)
  {
    if s == [] then [] else [LowerChar(s[0])] + Lower(s[1..])
  }

  /** A string with no upper-case letter is its own lower-case form. */
  lemma LowerKeepsLower(s: string)
    requires IsLower(s)
    ensures Lower(s) == s
  {
  }

  /** `{g.lower() for g in groups}` */
  function LowerSet(s: set<string>): (r: set<string>)
    ensures forall x :: x in s ==> Lower(x) in r
    ensures forall y :: y in r ==> IsLower(y)
  {
    set g | g in s :: Lower(g)
  }

  /** Nothing else is in the lower-cased set: each member comes from an element. */
  lemma LowerSetFromElements(s: set<string>, y: string)
    requires y in LowerSet(s)
    ensures exists x :: x in s && Lower(x) == y
  {
  }

  /** Lower-casing a set of lower-case strings changes nothing. */
  lemma LowerSetKeepsLower(s: set<string>)
    requires forall x :: x in s ==> IsLower(x)
    ensures LowerSet(s) == s
  {
    var r := LowerSet(s);
    forall x | x in s ensures x in r {
      LowerKeepsLower(x);
    }
    forall y | y in r ensures y in s {
      var x :| x in s && Lower(x) == y;
      LowerKeepsLower(x);
    }
  }
}
