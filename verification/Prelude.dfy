/** What several components need: optional values, minima, and that a set without elements is the empty one. */
module Prelude {

  datatype Option<T> = None | Some(value: T)

  function Min(a: nat, b: nat): nat { if a < b then a else b }

  lemma Inhabited<T(!new)>(s: set<T>)
    ensures s == {} || exists x :: x in s
  {
    if forall x: T :: x !in s {
      assert s == {};
    }
  }
}
