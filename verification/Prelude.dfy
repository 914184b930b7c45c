/** Values shared by every component of the model. */
module Prelude {
  datatype Option<+T> = None | Some(value: T)

  /** A row of the users table, as far as it decides who is active. */
  datatype Status = Active | Inactive | Suspended
  datatype Account = Account(status: Status, deleted: bool)

  const DAY := 86_400

  predicate Distinct<T(==)>(xs: seq<T>) {
    forall i, j :: 0 <= i < j < |xs| ==> xs[i] != xs[j]
  }

  function SetOf<T>(xs: seq<T>): set<T> {
    set x | x in xs
  }

  lemma SubsetSize<T>(a: set<T>, b: set<T>)
    requires a <= b
    ensures |a| <= |b|
  {
    assert b == a + (b - a);
  }

  /** A set of two or more elements has another one beside x. */
  lemma AtLeastTwo<T>(s: set<T>, x: T)
    requires x in s && |s| >= 2
    ensures exists y :: y in s && y != x
  {
    var rest := s - {x};
    assert |rest| == |s| - 1;
    var y :| y in rest;
  }

  /** The events `es` lead from `s` to `m`, one move each; a move is None where the event is not possible. */
  ghost predicate Reaches<S, E>(move: (S, E) -> Option<S>, s: S, es: seq<E>, m: S)
    decreases |es|
  {
    if es == [] then m == s
    else move(s, es[0]).Some? && Reaches(move, move(s, es[0]).value, es[1..], m)
  }

  lemma {:induction false} ReachesAppend<S, E>(move: (S, E) -> Option<S>, s: S, es: seq<E>, m: S, more: seq<E>, m': S)
    requires Reaches(move, s, es, m) && Reaches(move, m, more, m')
    ensures Reaches(move, s, es + more, m')
    decreases |es|
  {
    if es == [] {
      assert es + more == more;
    } else {
      ReachesAppend(move, move(s, es[0]).value, es[1..], m, more, m');
      assert (es + more)[1..] == es[1..] + more;
    }
  }

  lemma ReachesOne<S, E>(move: (S, E) -> Option<S>, s: S, e: E, m: S)
    requires move(s, e) == Some(m)
    ensures Reaches(move, s, [e], m)
  {
    assert [e][1..] == [];
  }
}
