/** Sequence equalities the solver does not look for by itself. */
module Sequences {

  lemma Assoc<T>(a: seq<T>, b: seq<T>, c: seq<T>)
    ensures (a + b) + c == a + (b + c)
  {
  }

  lemma NoMore<T>(s: seq<T>)
    ensures s + [] == s && [] + s == s
  {
  }

  lemma CutAt<T>(s: seq<T>, n: nat)
    requires n <= |s|
    ensures s == s[..n] + s[n..]
  {
  }

  lemma HeadAt<T>(s: seq<T>, i: nat)
    requires i < |s|
    ensures s[i..] == [s[i]] + s[i + 1..]
  {
  }

  lemma TakeNext<T>(s: seq<T>, i: nat)
    requires i < |s|
    ensures s[..i + 1] == s[..i] + [s[i]]
  {
  }

  lemma Uncons<T>(a: T, s: seq<T>)
    ensures ([a] + s)[0] == a && ([a] + s)[1..] == s
    ensures forall i :: 0 <= i < |s| ==> s[i] == ([a] + s)[i + 1]
  {
  }

  /** The index a loop over a list builds: a repeated element keeps its last
      position. */
  function Positions<T(==)>(s: seq<T>): map<T, int> {
    if s == [] then map[] else Positions(s[..|s| - 1])[s[|s| - 1] := |s| - 1]
  }

  lemma {:induction false} LastPosition<T>(s: seq<T>, x: T)
    ensures x in Positions(s) <==> x in s
    ensures x in s ==> 0 <= Positions(s)[x] < |s| && s[Positions(s)[x]] == x
    ensures x in s ==> forall i :: Positions(s)[x] < i < |s| ==> s[i] != x
    decreases |s|
  {
    if s != [] {
      var init := s[..|s| - 1];
      LastPosition(init, x);
      assert s == init + [s[|s| - 1]];
      assert forall i :: 0 <= i < |init| ==> s[i] == init[i];
    }
  }
}
