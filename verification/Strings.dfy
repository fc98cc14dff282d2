// The C library's character classes and case-insensitive comparison, in the C locale.
module Strings {

  const NUL := '\0'

  // Where a name stands in a table.
  datatype Position = NotFound | Found(at: nat)

  // isspace
  predicate IsSpace(c: char) {
    c == ' ' || 9 <= c as int <= 13
  }

  predicate AllSpaces(s: string) {
    forall i :: 0 <= i < |s| ==> IsSpace(s[i])
  }

  // tolower
  function Lower(c: char): char {
    if 'A' <= c <= 'Z' then (c as int + 32) as char else c
  }

  // strcasecmp, reduced to the sign of its result.
  function CaseCmp(a: string, b: string): int
    decreases |a|
  {
    if a == [] && b == [] then 0
    else if a == [] then -1
    else if b == [] then 1
    else if Lower(a[0]) < Lower(b[0]) then -1
    else if Lower(a[0]) > Lower(b[0]) then 1
    else CaseCmp(a[1..], b[1..])
  }

  // ---- What these mean, letter by letter ----

  // isspace accepts these six characters.
  lemma SixSpaces(c: char)
    ensures IsSpace(c) <==> c in {' ', '\t', '\n', '\r', 11 as char, 12 as char}
  {
  }

  // The upper- and lower-case form of one letter.
  predicate CasesOf(upper: char, lower: char) {
    'A' <= upper <= 'Z' && 'a' <= lower <= 'z' && upper as int - 'A' as int == lower as int - 'a' as int
  }

  predicate SameLetter(c: char, d: char) {
    c == d || CasesOf(c, d) || CasesOf(d, c)
  }

  predicate SameUpToCase(a: string, b: string) {
    |a| == |b| && forall i :: 0 <= i < |a| ==> SameLetter(a[i], b[i])
  }

  predicate LowerForm(c: char, lower: char) {
    CasesOf(c, lower) || (c == lower && !('A' <= c <= 'Z'))
  }

  // In lower case, c comes before d.
  ghost predicate Earlier(c: char, d: char) {
    exists l, m :: LowerForm(c, l) && LowerForm(d, m) && l < m
  }

  // Up to case, a comes before b: at the first difference, or as a proper prefix.
  ghost predicate Precedes(a: string, b: string) {
    exists k :: 0 <= k <= |a| && PrecedesAt(a, b, k)
  }

  ghost predicate PrecedesAt(a: string, b: string, k: nat)
    requires k <= |a|
  {
    k < |b| && SameUpToCase(a[..k], b[..k]) && (k == |a| || Earlier(a[k], b[k]))
  }

  lemma LowerCompares(c: char, d: char)
    ensures Lower(c) == Lower(d) <==> SameLetter(c, d)
    ensures Lower(c) < Lower(d) <==> Earlier(c, d)
  {
    assert LowerForm(c, Lower(c)) && LowerForm(d, Lower(d));
  }

  // It is zero exactly for strings that differ in the case of letters only.
  lemma {:induction false} CaseCmpZero(a: string, b: string)
    ensures CaseCmp(a, b) == 0 <==> SameUpToCase(a, b)
    decreases |a|
  {
    hide Lower, SameLetter;
    if a != [] && b != [] {
      CaseCmpZero(a[1..], b[1..]);
      LowerCompares(a[0], b[0]);
      LowerCompares(b[0], a[0]);
      SameTails(a, b);
    }
  }

  lemma SameTails(a: string, b: string)
    requires a != [] && b != []
    ensures SameUpToCase(a, b) <==> SameLetter(a[0], b[0]) && SameUpToCase(a[1..], b[1..])
  {
    hide SameLetter;
    if SameLetter(a[0], b[0]) && SameUpToCase(a[1..], b[1..]) {
      forall i | 0 <= i < |a| ensures SameLetter(a[i], b[i]) {
        if i > 0 { assert a[i] == a[1..][i - 1] && b[i] == b[1..][i - 1]; }
      }
    }
  }

  // It is negative exactly when the first string comes first.
  lemma {:induction false} CaseCmpSign(a: string, b: string)
    ensures CaseCmp(a, b) < 0 <==> Precedes(a, b)
    decreases |a|
  {
    hide Lower, SameLetter, Earlier;
    if a == [] {
      if b != [] { assert PrecedesAt(a, b, 0); }
    } else if b != [] {
      CaseCmpSign(a[1..], b[1..]);
      LowerCompares(a[0], b[0]);
      LowerCompares(b[0], a[0]);
      if Precedes(a, b) {
        var k :| 0 <= k <= |a| && PrecedesAt(a, b, k);
        if k > 0 {
          SamePrefixes(a, b, k);
          assert PrecedesAt(a[1..], b[1..], k - 1);
        }
      }
      if CaseCmp(a, b) < 0 {
        if Earlier(a[0], b[0]) {
          assert PrecedesAt(a, b, 0);
        } else {
          var k :| 0 <= k <= |a[1..]| && PrecedesAt(a[1..], b[1..], k);
          SamePrefixes(a, b, k + 1);
          assert PrecedesAt(a, b, k + 1);
        }
      }
    }
  }

  lemma SamePrefixes(a: string, b: string, k: nat)
    requires 0 < k <= |a| && k <= |b|
    ensures SameUpToCase(a[..k], b[..k]) <==> SameLetter(a[0], b[0]) && SameUpToCase(a[1..][..k - 1], b[1..][..k - 1])
  {
    assert a[..k][1..] == a[1..][..k - 1] && b[..k][1..] == b[1..][..k - 1];
    SameTails(a[..k], b[..k]);
  }

  // It is a total order up to case.
  lemma {:induction false} CaseCmpSwap(a: string, b: string)
    ensures CaseCmp(a, b) == -CaseCmp(b, a)
    decreases |a|
  {
    if a != [] && b != [] {
      CaseCmpSwap(a[1..], b[1..]);
    }
  }

  lemma {:induction false} CaseCmpTransitive(a: string, b: string, c: string)
    requires CaseCmp(a, b) <= 0 && CaseCmp(b, c) <= 0
    ensures CaseCmp(a, c) <= 0
    ensures CaseCmp(a, b) < 0 || CaseCmp(b, c) < 0 ==> CaseCmp(a, c) < 0
    decreases |a|
  {
    if a != [] && b != [] && c != [] && Lower(a[0]) == Lower(b[0]) == Lower(c[0]) {
      CaseCmpTransitive(a[1..], b[1..], c[1..]);
    }
  }
}
