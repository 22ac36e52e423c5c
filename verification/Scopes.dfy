/**
 * The scope claim of an access token: printed as a space-separated list, read back by
 * splitting at white space (section 3.3 of RFC 6749).  `space` says what counts as white space.
 */
module Scopes {

  /** `" ".join(scopes)`. */
  function Join(scopes: seq<string>): string {
    if scopes == [] then "" else if |scopes| == 1 then scopes[0] else scopes[0] + " " + Join(scopes[1..])
  }

  function SkipSpace(s: string, space: char -> bool): (rest: string)
    ensures |rest| <= |s| && (rest != [] ==> !space(rest[0]))
  {
    if s != [] && space(s[0]) then SkipSpace(s[1..], space) else s
  }

  /** Length of the word at the front. */
  function WordLength(s: string, space: char -> bool): (n: nat)
    ensures n <= |s| && (forall i :: 0 <= i < n ==> !space(s[i])) && (n < |s| ==> space(s[n]))
  {
    if s == [] || space(s[0]) then 0 else 1 + WordLength(s[1..], space)
  }

  /** `s.split()`. */
  function Split(s: string, space: char -> bool): seq<string>
    decreases |s|
  {
    var t := SkipSpace(s, space);
    if t == [] then [] else
      var n := WordLength(t, space);
      [t[..n]] + Split(t[n..], space)
  }

  /** `set(required_scopes).issubset(scopes)`. */
  predicate Granted(required: set<string>, claim: string, space: char -> bool) {
    forall r :: r in required ==> r in Split(claim, space)
  }

  predicate Clean(scope: string, space: char -> bool) {
    scope != "" && forall i :: 0 <= i < |scope| ==> !space(scope[i])
  }

  predicate AllClean(scopes: seq<string>, space: char -> bool) {
    forall i :: 0 <= i < |scopes| ==> Clean(scopes[i], space)
  }

  lemma {:induction false} SplitIsClean(s: string, space: char -> bool)
    ensures AllClean(Split(s, space), space)
    decreases |s|
  {
    var t := SkipSpace(s, space);
    if t != [] {
      SplitIsClean(t[WordLength(t, space)..], space);
    }
  }

  lemma {:induction false} WordFound(w: string, rest: string, space: char -> bool)
    requires forall i :: 0 <= i < |w| ==> !space(w[i])
    requires rest != [] ==> space(rest[0])
    ensures WordLength(w + rest, space) == |w|
  {
    if w != [] {
      assert (w + rest)[1..] == w[1..] + rest;
      WordFound(w[1..], rest, space);
    } else {
      assert w + rest == rest;
    }
  }

  lemma SplitFirst(w: string, rest: string, space: char -> bool)
    requires Clean(w, space) && (rest != [] ==> space(rest[0]))
    ensures Split(w + rest, space) == [w] + Split(rest, space)
  {
    WordFound(w, rest, space);
    assert SkipSpace(w + rest, space) == w + rest;
    assert (w + rest)[..|w|] == w && (w + rest)[|w|..] == rest;
  }

  lemma SplitSpace(s: string, space: char -> bool)
    requires space(' ')
    ensures Split([' '] + s, space) == Split(s, space)
  {
    assert ([' '] + s)[1..] == s;
  }

  lemma {:induction false} JoinThenSplit(scopes: seq<string>, space: char -> bool)
    requires space(' ') && AllClean(scopes, space)
    ensures Split(Join(scopes), space) == scopes
  {
    if |scopes| == 1 {
      SplitFirst(scopes[0], "", space);
      assert scopes[0] + "" == scopes[0];
    } else if |scopes| > 1 {
      var rest := [' '] + Join(scopes[1..]);
      JoinThenSplit(scopes[1..], space);
      SplitSpace(Join(scopes[1..]), space);
      SplitFirst(scopes[0], rest, space);
      assert Join(scopes) == scopes[0] + rest;
    }
  }

  /** The claim reads back as the scopes it was printed from exactly when they are non-empty and free of white space. */
  lemma ScopeRoundTrip(scopes: seq<string>, space: char -> bool)
    requires space(' ')
    ensures Split(Join(scopes), space) == scopes <==> AllClean(scopes, space)
  {
    SplitIsClean(Join(scopes), space);
    if AllClean(scopes, space) {
      JoinThenSplit(scopes, space);
    }
  }

  /** A token printed from clean scopes grants exactly the requirements among them. */
  lemma GrantsExactly(required: set<string>, scopes: seq<string>, space: char -> bool)
    requires space(' ') && AllClean(scopes, space)
    ensures Granted(required, Join(scopes), space) <==> forall r :: r in required ==> r in scopes
  {
    JoinThenSplit(scopes, space);
  }
}
