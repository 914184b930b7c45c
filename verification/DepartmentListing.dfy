/**
 The department listing: the rows of the recursive query ordered by tree_path, which shows the visible part of
 the forest in preorder.
 */
module DepartmentListing {
  import opened Prelude
  import opened DepartmentForest
  import opened Departments

  /** Array comparison of the database: element by element, a proper prefix first. */
  predicate Before(a: seq<DeptId>, b: seq<DeptId>)
    decreases |a|
  {
    b != [] && (a == [] || a[0] < b[0] || (a[0] == b[0] && Before(a[1..], b[1..])))
  }

  lemma {:induction false} BeforeTrichotomy(a: seq<DeptId>, b: seq<DeptId>)
    ensures a == b || Before(a, b) || Before(b, a)
    ensures !(Before(a, b) && Before(b, a)) && !Before(a, a)
    decreases |a|
  {
    if a != [] {
      BeforeTrichotomy(a[1..], if b == [] then [] else b[1..]);
      if b != [] && a[0] == b[0] && a[1..] == b[1..] { assert a == [a[0]] + a[1..] == b; }
      BeforeTrichotomy(a[1..], a[1..]);
    }
  }

  lemma {:induction false} BeforeTransitive(a: seq<DeptId>, b: seq<DeptId>, c: seq<DeptId>)
    requires Before(a, b) && Before(b, c)
    ensures Before(a, c)
    decreases |a|
  {
    if a != [] && a[0] == b[0] == c[0] { BeforeTransitive(a[1..], b[1..], c[1..]); }
  }

  lemma {:induction false} PrefixBefore(p: seq<DeptId>, a: seq<DeptId>)
    requires p < a
    ensures Before(p, a)
    decreases |p|
  {
    if p != [] { PrefixBefore(p[1..], a[1..]); }
  }

  /** Everything between two paths with a common prefix has that prefix. */
  lemma {:induction false} PrefixInterval(p: seq<DeptId>, a: seq<DeptId>, b: seq<DeptId>, c: seq<DeptId>)
    requires p <= a && p <= c && Before(a, b) && Before(b, c)
    ensures p <= b
    decreases |p|
  {
    if p != [] { PrefixInterval(p[1..], a[1..], b[1..], c[1..]); }
  }

  ghost predicate Sorted(rows: seq<seq<DeptId>>) {
    forall i, j :: 0 <= i < j < |rows| ==> Before(rows[i], rows[j])
  }

  // ---------------------------------------------------------------- ordering the rows

  function Insert(rows: seq<seq<DeptId>>, p: seq<DeptId>): seq<seq<DeptId>> {
    if rows == [] || Before(p, rows[0]) then [p] + rows else [rows[0]] + Insert(rows[1..], p)
  }

  lemma {:induction false} InsertAdds(rows: seq<seq<DeptId>>, p: seq<DeptId>)
    ensures forall x :: x in Insert(rows, p) <==> x in rows || x == p
  {
    if rows != [] && !Before(p, rows[0]) {
      InsertAdds(rows[1..], p);
      assert rows == [rows[0]] + rows[1..];
    }
  }

  lemma SortedCons(first: seq<DeptId>, rows: seq<seq<DeptId>>)
    requires Sorted(rows) && forall x :: x in rows ==> Before(first, x)
    ensures Sorted([first] + rows)
  {}

  lemma {:induction false} InsertSorts(rows: seq<seq<DeptId>>, p: seq<DeptId>)
    requires Sorted(rows) && p !in rows
    ensures Sorted(Insert(rows, p))
  {
    if rows == [] {
    } else if Before(p, rows[0]) {
      forall x | x in rows ensures Before(p, x) {
        if x != rows[0] { BeforeTransitive(p, rows[0], x); }
      }
      SortedCons(p, rows);
    } else {
      BeforeTrichotomy(p, rows[0]);
      InsertSorts(rows[1..], p);
      InsertAdds(rows[1..], p);
      SortedCons(rows[0], Insert(rows[1..], p));
    }
  }

  ghost predicate IsListing(t: Table, actor: Actor, rows: seq<seq<DeptId>>) {
    Sorted(rows) && forall p :: p in rows <==> IsRow(t, Visible(t, actor), p)
  }

  /** departments::list, each row given by its tree_path. */
  method List(t: Table, actor: Actor) returns (rows: seq<seq<DeptId>>)
    requires Forest(t)
    ensures IsListing(t, actor, rows)
  {
    var found := Evaluate(t, Visible(t, actor));
    rows := [];
    var rest := found;
    while rest != {}
      invariant Sorted(rows) && rest <= found && forall p :: p in rows <==> p in found - rest
    {
      var p :| p in rest;
      InsertSorts(rows, p);
      InsertAdds(rows, p);
      rows := Insert(rows, p);
      rest := rest - {p};
    }
  }

  // ---------------------------------------------------------------- what a listing shows

  /** Exactly the departments find_by_id finds are listed, each once, with the same depth. */
  lemma ListedOnce(t: Table, actor: Actor, rows: seq<seq<DeptId>>, d: DeptId)
    requires Forest(t) && IsListing(t, actor, rows)
    ensures CanSee(t, actor, d) <==> exists i :: 0 <= i < |rows| && rows[i] != [] && Last(rows[i]) == d
    ensures forall i :: 0 <= i < |rows| ==> rows[i] != [] && Sees(t, actor, Last(rows[i]), |rows[i]| - 1)
    ensures forall i, j :: 0 <= i < |rows| && 0 <= j < |rows| && Last(rows[i]) == Last(rows[j]) ==> i == j
  {
    forall i | 0 <= i < |rows| ensures rows[i] != [] && Sees(t, actor, Last(rows[i]), |rows[i]| - 1) {
      assert rows[i] in rows;
      RowsAreSeen(t, actor, rows[i]);
    }
    forall i, j | 0 <= i < j < |rows| ensures Last(rows[i]) != Last(rows[j]) {
      RowsDiffer(t, actor, rows, i, j);
    }
    if CanSee(t, actor, d) {
      var k: nat :| Sees(t, actor, d, k);
      var p := SeenHasRow(t, actor, d, k);
      assert p in rows;
    }
  }

  lemma RowsDiffer(t: Table, actor: Actor, rows: seq<seq<DeptId>>, i: nat, j: nat)
    requires Forest(t) && IsListing(t, actor, rows) && i < j < |rows|
    ensures rows[i] != [] && rows[j] != [] && Last(rows[i]) != Last(rows[j])
  {
    assert rows[i] in rows && rows[j] in rows;
    RowsAreSeen(t, actor, rows[i]);
    RowsAreSeen(t, actor, rows[j]);
    BeforeTrichotomy(rows[i], rows[i]);
    if Last(rows[i]) == Last(rows[j]) {
      SeenAtOneDepth(t, actor, Last(rows[i]), |rows[i]| - 1, |rows[j]| - 1);
      RowsEqual(t, Visible(t, actor), rows[i], rows[j]);
    }
  }

  /** Among the rows, "extends the path of" is "descends from". */
  lemma PrefixIffDescends(t: Table, actor: Actor, p: seq<DeptId>, r: seq<DeptId>)
    requires Forest(t) && IsRow(t, Visible(t, actor), p) && IsRow(t, Visible(t, actor), r)
    ensures p <= r <==> Descends(t, Last(p), Last(r))
  {
    var q := Visible(t, actor);
    RowIsChain(t, q, r);
    if p <= r {
      assert Up(t, Last(r), |r| - |p|) == Some(r[|p| - 1]);
    }
    if Descends(t, Last(p), Last(r)) {
      var k: nat :| Up(t, Last(r), k) == Some(Last(p));
      RowIsChain(t, q, p);
      UpSum(t, Last(r), k, |p| - 1);
      assert Up(t, Last(p), |p| - 1) == Some(p[0]);
      StartsMeet(t, actor, p, r, k);
      PrefixIsRow(t, q, r, |r| - k);
      assert Last(r[..|r| - k]) == Last(p);
      RowsEqual(t, q, p, r[..|r| - k]);
    }
  }

  /** Both paths begin at the one start above the lower department. */
  lemma StartsMeet(t: Table, actor: Actor, p: seq<DeptId>, r: seq<DeptId>, k: nat)
    requires Forest(t) && IsRow(t, Visible(t, actor), p) && IsRow(t, Visible(t, actor), r)
    requires Up(t, Last(r), k) == Some(Last(p))
    ensures |r| == |p| + k
  {
    var q := Visible(t, actor);
    RowIsChain(t, q, p);
    RowIsChain(t, q, r);
    assert Up(t, Last(p), |p| - 1) == Some(p[0]);
    assert Up(t, Last(r), |r| - 1) == Some(r[0]);
    UpSum(t, Last(r), k, |p| - 1);
    assert p[0] in q.starts && r[0] in q.starts;
    if q.starts == Roots(t) {
      RootUnique(t, Last(r), k + |p| - 1, |r| - 1);
    } else {
      DistanceUnique(t, Last(r), k + |p| - 1, |r| - 1);
    }
  }

  lemma {:induction false} LastDecides(p: seq<DeptId>, a: DeptId, b: DeptId)
    ensures Before(p + [a], p + [b]) <==> a < b
    decreases |p|
  {
    if p != [] {
      assert (p + [a])[1..] == p[1..] + [a] && (p + [b])[1..] == p[1..] + [b];
      LastDecides(p[1..], a, b);
    }
  }

  /** Children of one department are listed in the order of their ids. */
  lemma SiblingsById(t: Table, actor: Actor, rows: seq<seq<DeptId>>, i: nat, j: nat, p: seq<DeptId>, a: DeptId,
      b: DeptId)
    requires IsListing(t, actor, rows) && i < |rows| && j < |rows| && rows[i] == p + [a] && rows[j] == p + [b]
    ensures a < b ==> i < j
  {
    LastDecides(p, b, a);
    assert rows[i][|p|] == a && rows[j][|p|] == b;
  }

  /** A listed department's parent, when listed, comes earlier; so does every listed ancestor. */
  lemma ParentsComeFirst(t: Table, actor: Actor, rows: seq<seq<DeptId>>, i: nat, j: nat)
    requires Forest(t) && IsListing(t, actor, rows) && i < |rows| && j < |rows| && i != j
    requires rows[i] != [] && rows[j] != [] && Descends(t, Last(rows[i]), Last(rows[j]))
    ensures i < j
  {
    assert rows[i] in rows && rows[j] in rows;
    PrefixIffDescends(t, actor, rows[i], rows[j]);
    if j < i {
      BeforeTrichotomy(rows[i], rows[j]);
      if rows[i] != rows[j] { PrefixBefore(rows[i], rows[j]); }
    }
  }

  /** Every subtree is one contiguous block that starts with its own root. */
  lemma SubtreeIsBlock(t: Table, actor: Actor, rows: seq<seq<DeptId>>, i: nat) returns (end: nat)
    requires Forest(t) && IsListing(t, actor, rows) && i < |rows|
    ensures i < end <= |rows|
    ensures forall j :: 0 <= j < |rows| ==>
              rows[j] != [] && rows[i] != [] && (Descends(t, Last(rows[i]), Last(rows[j])) <==> i <= j < end)
  {
    end := i + 1;
    while end < |rows| && rows[i] <= rows[end]
      invariant i < end <= |rows|
      invariant forall j :: i <= j < end ==> rows[i] <= rows[j]
    {
      end := end + 1;
    }
    forall j | 0 <= j < |rows|
      ensures rows[j] != [] && rows[i] != [] && (Descends(t, Last(rows[i]), Last(rows[j])) <==> i <= j < end)
    {
      assert rows[i] in rows && rows[j] in rows;
      PrefixIffDescends(t, actor, rows[i], rows[j]);
      if Descends(t, Last(rows[i]), Last(rows[j])) {
        if i != j { ParentsComeFirst(t, actor, rows, i, j); }
        if end < j { PrefixInterval(rows[i], rows[i], rows[end], rows[j]); }
      }
    }
  }
}
