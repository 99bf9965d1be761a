/** Lists of distinct identifiers. */
module Lists {

  ghost predicate Distinct(s: seq<int>) {
    forall i, j :: 0 <= i < j < |s| ==> s[i] != s[j]
  }

  /** The list without the first `x`. */
  function Erased(s: seq<int>, x: int): (r: seq<int>)
    ensures |r| <= |s|
  {
    if s == [] then [] else if s[0] == x then s[1..] else [s[0]] + Erased(s[1..], x)
  }

  lemma {:induction false} ErasedElements(s: seq<int>, x: int)
    ensures forall y :: y in Erased(s, x) ==> y in s
    ensures forall y :: y in s && y != x ==> y in Erased(s, x)
    ensures x !in s ==> Erased(s, x) == s
    ensures x in s ==> |Erased(s, x)| == |s| - 1
    ensures Distinct(s) ==> x !in Erased(s, x) && Distinct(Erased(s, x))
    decreases |s|
  {
    if s != [] {
      var head, rest := s[0], s[1..];
      assert s == [head] + rest;
      ErasedElements(rest, x);
      if Distinct(s) {
        assert head !in rest;
        if head != x {
          assert forall i :: 0 <= i < |Erased(rest, x)| ==> Erased(rest, x)[i] in Erased(rest, x);
        }
      }
    }
  }
}
