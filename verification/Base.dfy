/** What several modules share. */
module Base {
  datatype Option<+T> = None | Some(value: T)

  /** A number above everything in s. */
  ghost function Beyond(s: set<nat>): (n: nat)
    ensures forall x :: x in s ==> x < n
  {
    if s == {} then 0 else
      var x :| x in s;
      var n := Beyond(s - {x});
      assert s == (s - {x}) + {x};
      if x < n then n else x + 1
  }

  /** There is always an id that has not been given out. */
  lemma AlwaysAnother(s: set<nat>)
    ensures exists x: nat :: x !in s
  {
    assert Beyond(s) !in s;
  }

  lemma {:induction false} SubsetSize<T>(a: set<T>, b: set<T>)
    requires a <= b
    ensures |a| <= |b|
  {
    if x :| x in a {
      SubsetSize(a - {x}, b - {x});
    }
  }
}
