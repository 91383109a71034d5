// Shared by the models of several components.

module Common {

  datatype Option<+A> = None | Some(value: A)

  ghost predicate Distinct<A>(s: seq<A>)
  {
    forall i, j :: 0 <= i < j < |s| ==> s[i] != s[j]
  }

  /** The list without m. */
  function Without<A(==)>(s: seq<A>, m: A): seq<A>
  {
    if s == [] then []
    else if s[0] == m then Without(s[1..], m)
    else [s[0]] + Without(s[1..], m)
  }

  lemma {:induction false} WithoutFacts<A>(s: seq<A>, m: A)
    ensures forall k :: k in Without(s, m) ==> k in s && k != m
    ensures forall k :: k in s && k != m ==> k in Without(s, m)
    ensures Distinct(s) ==> Distinct(Without(s, m))
  {
    if s != [] {
      WithoutFacts(s[1..], m);
      assert s == [s[0]] + s[1..];
      if Distinct(s) { DistinctTail(s, m); }
    }
  }

  lemma DistinctTail<A>(s: seq<A>, m: A)
    requires s != [] && Distinct(s)
    requires Distinct(s[1..]) ==> Distinct(Without(s[1..], m))
    requires forall k :: k in Without(s[1..], m) ==> k in s[1..]
    ensures Distinct(Without(s, m))
  {
    assert Distinct(s[1..]);
    assert forall k :: k in s[1..] ==> k != s[0];
    var rest := Without(s[1..], m);
    assert s[0] !in rest;
  }
}
