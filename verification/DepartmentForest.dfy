/**
 The department table, ancestors and descendants in it, and the recursive query that walks it downwards.
 */
module DepartmentForest {
  import opened Prelude

  type DeptId = nat
  type OrgId = nat

  datatype Dept = Dept(org: OrgId, parent: Option<DeptId>, code: string, name: string, active: bool)
  type Table = map<DeptId, Dept>

  /** The k-th ancestor of `d`, itself for k = 0. */
  function Up(t: Table, d: DeptId, k: nat): Option<DeptId>
    decreases k
  {
    if d !in t then None
    else if k == 0 then Some(d)
    else if t[d].parent.None? then None
    else Up(t, t[d].parent.value, k - 1)
  }

  ghost predicate Descends(t: Table, ancestor: DeptId, d: DeptId) {
    exists k: nat :: Up(t, d, k) == Some(ancestor)
  }

  /** Foreign key (parent_id, organization_id): a parent exists, in the same organization. */
  ghost predicate Closed(t: Table) {
    forall d :: d in t && t[d].parent.Some? ==> t[d].parent.value in t && t[t[d].parent.value].org == t[d].org
  }

  /** No department is its own proper ancestor. */
  ghost predicate Acyclic(t: Table) {
    forall d: DeptId, k: nat :: k > 0 ==> Up(t, d, k) != Some(d)
  }

  ghost predicate Forest(t: Table) {
    Closed(t) && Acyclic(t)
  }

  function Roots(t: Table): set<DeptId> {
    set d | d in t && t[d].parent.None?
  }

  // ---------------------------------------------------------------- ancestors

  lemma {:induction false} UpSum(t: Table, d: DeptId, i: nat, j: nat)
    requires Up(t, d, i).Some?
    ensures Up(t, d, i + j) == Up(t, Up(t, d, i).value, j)
    decreases i
  {
    if i > 0 { UpSum(t, t[d].parent.value, i - 1, j); }
  }

  lemma {:induction false} UpShorter(t: Table, d: DeptId, i: nat, k: nat)
    requires i <= k && Up(t, d, k).Some?
    ensures Up(t, d, i).Some?
    decreases i
  {
    if i > 0 { UpShorter(t, t[d].parent.value, i - 1, k - 1); }
  }

  lemma {:induction false} UpInTable(t: Table, d: DeptId, k: nat)
    requires Up(t, d, k).Some?
    ensures Up(t, d, k).value in t && d in t
    ensures Closed(t) ==> t[Up(t, d, k).value].org == t[d].org
    decreases k
  {
    if k > 0 { UpInTable(t, t[d].parent.value, k - 1); }
  }

  /** In an acyclic table an ancestor is reached by exactly one number of steps. */
  lemma DistanceUnique(t: Table, d: DeptId, i: nat, j: nat)
    requires Acyclic(t) && Up(t, d, i).Some? && Up(t, d, i) == Up(t, d, j)
    ensures i == j
  {
    var (near, far) := if i < j then (i, j) else (j, i);
    UpSum(t, d, near, far - near);
  }

  /** ... and a root is the end of the chain. */
  lemma RootUnique(t: Table, d: DeptId, i: nat, j: nat)
    requires Up(t, d, i).Some? && Up(t, d, j).Some?
    requires Up(t, d, i).value in Roots(t) && Up(t, d, j).value in Roots(t)
    ensures i == j
  {
    var (near, far) := if i < j then (i, j) else (j, i);
    UpSum(t, d, near, far - near);
  }

  ghost function Ancestors(t: Table, d: DeptId, k: nat): set<DeptId>
    requires Up(t, d, k).Some?
  {
    set i: nat | i <= k && Up(t, d, i).Some? :: Up(t, d, i).value
  }

  /** A chain never repeats a department, so it is shorter than the table is large. */
  lemma {:induction false} ChainIsShort(t: Table, d: DeptId, k: nat)
    requires Acyclic(t) && Up(t, d, k).Some?
    ensures k < |t|
  {
    AncestorCount(t, d, k);
    forall a | a in Ancestors(t, d, k) ensures a in t.Keys {
      var i: nat :| i <= k && Up(t, d, i) == Some(a);
      UpInTable(t, d, i);
    }
    SubsetSize(Ancestors(t, d, k), t.Keys);
  }

  lemma {:induction false} AncestorCount(t: Table, d: DeptId, k: nat)
    requires Acyclic(t) && Up(t, d, k).Some?
    ensures |Ancestors(t, d, k)| == k + 1
    decreases k
  {
    if k == 0 {
      assert Ancestors(t, d, 0) == {d};
    } else {
      UpShorter(t, d, k - 1, k);
      AncestorCount(t, d, k - 1);
      var a := Up(t, d, k).value;
      assert Ancestors(t, d, k) == Ancestors(t, d, k - 1) + {a};
      if a in Ancestors(t, d, k - 1) {
        var i: nat :| i <= k - 1 && Up(t, d, i) == Some(a);
        DistanceUnique(t, d, i, k);
      }
    }
  }

  /** Every department is below exactly one root, at one depth. */
  lemma {:induction false} HasRoot(t: Table, d: DeptId, k: nat) returns (depth: nat)
    requires Forest(t) && Up(t, d, k).Some?
    ensures Up(t, d, depth).Some? && Up(t, d, depth).value in Roots(t)
    decreases |t| - k
  {
    ChainIsShort(t, d, k);
    UpInTable(t, d, k);
    var a := Up(t, d, k).value;
    if t[a].parent.None? {
      depth := k;
    } else {
      UpSum(t, d, k, 1);
      assert Up(t, t[a].parent.value, 0).Some?;
      assert Up(t, a, 1) == Up(t, t[a].parent.value, 0);
      ChainIsShort(t, d, k + 1);
      depth := HasRoot(t, d, k + 1);
    }
  }

  /** A rank that grows from parent to child: the other usual meaning of an acyclic table. */
  ghost predicate Ranked(t: Table, rank: map<DeptId, nat>) {
    && t.Keys <= rank.Keys
    && forall d :: d in t && t[d].parent.Some? && t[d].parent.value in t ==> rank[t[d].parent.value] < rank[d]
  }

  lemma {:induction false} RankGrows(t: Table, rank: map<DeptId, nat>, d: DeptId, k: nat)
    requires Ranked(t, rank) && Up(t, d, k).Some?
    ensures Up(t, d, k).value in t && d in t && rank[Up(t, d, k).value] + k <= rank[d]
    decreases k
  {
    if k > 0 { RankGrows(t, rank, t[d].parent.value, k - 1); }
  }

  lemma ForestIffRanked(t: Table)
    requires Closed(t)
    ensures Forest(t) <==> exists rank :: Ranked(t, rank)
  {
    if rank :| Ranked(t, rank) {
      forall d: DeptId, k: nat | k > 0 ensures Up(t, d, k) != Some(d) {
        if Up(t, d, k) == Some(d) { RankGrows(t, rank, d, k); }
      }
    }
    if Forest(t) {
      var rank := RootDistances(t);
      assert Ranked(t, rank);
    }
  }

  lemma RootDistances(t: Table) returns (rank: map<DeptId, nat>)
    requires Forest(t)
    ensures Ranked(t, rank)
  {
    forall d | d in t ensures exists k: nat :: DepthIs(t, d, k) {
      var k := HasRoot(t, d, 0);
      assert DepthIs(t, d, k);
    }
    rank := map d | d in t :: var k: nat :| DepthIs(t, d, k); k;
    forall d | d in t && t[d].parent.Some? ensures rank[t[d].parent.value] < rank[d] {
      DepthGrows(t, d, rank[t[d].parent.value], rank[d]);
    }
  }

  lemma DepthGrows(t: Table, d: DeptId, above: nat, depth: nat)
    requires d in t && t[d].parent.Some? && DepthIs(t, t[d].parent.value, above) && DepthIs(t, d, depth)
    ensures depth == above + 1
  {
    assert Up(t, d, above + 1) == Up(t, t[d].parent.value, above);
    RootUnique(t, d, above + 1, depth);
  }

  ghost predicate DepthIs(t: Table, d: DeptId, k: nat) {
    Up(t, d, k).Some? && Up(t, d, k).value in Roots(t)
  }

  // ---------------------------------------------------------------- the recursive query

  /** WITH RECURSIVE: base rows are `starts` of the organization; `recurse` switches the recursive term on. */
  datatype Query = Query(org: OrgId, starts: set<DeptId>, recurse: bool)

  function Last(p: seq<DeptId>): DeptId
    requires p != []
  {
    p[|p| - 1]
  }

  /** A result row, given by its tree_path. */
  predicate IsRow(t: Table, q: Query, p: seq<DeptId>)
    decreases |p|
  {
    && p != [] && Last(p) in t && t[Last(p)].org == q.org
    && if |p| == 1 then p[0] in q.starts
       else q.recurse && t[Last(p)].parent == Some(p[|p| - 2]) && IsRow(t, q, p[..|p| - 1])
  }

  /** The departments on a row's path are the ancestors of the last one. */
  lemma {:induction false} RowIsChain(t: Table, q: Query, p: seq<DeptId>)
    requires IsRow(t, q, p)
    ensures forall i :: 0 <= i < |p| ==> Up(t, Last(p), |p| - 1 - i) == Some(p[i])
    ensures p[0] in q.starts && (|p| > 1 ==> q.recurse)
    decreases |p|
  {
    if |p| > 1 {
      var s := p[..|p| - 1];
      RowIsChain(t, q, s);
      forall i | 0 <= i < |p| ensures Up(t, Last(p), |p| - 1 - i) == Some(p[i]) {
        if i < |s| {
          assert Up(t, Last(s), |s| - 1 - i) == Some(s[i]);
        }
      }
    }
  }

  /** Conversely every department below a start of its organization has a row. */
  lemma {:induction false} ChainIsRow(t: Table, q: Query, d: DeptId, k: nat) returns (p: seq<DeptId>)
    requires Closed(t) && d in t && t[d].org == q.org
    requires Up(t, d, k).Some? && Up(t, d, k).value in q.starts && (k > 0 ==> q.recurse)
    ensures IsRow(t, q, p) && Last(p) == d && |p| == k + 1
    decreases k
  {
    if k == 0 {
      p := [d];
    } else {
      var s := ChainIsRow(t, q, t[d].parent.value, k - 1);
      p := s + [d];
      assert p[..|p| - 1] == s;
    }
  }

  lemma RowsEqual(t: Table, q: Query, p: seq<DeptId>, r: seq<DeptId>)
    requires IsRow(t, q, p) && IsRow(t, q, r) && Last(p) == Last(r) && |p| == |r|
    ensures p == r
  {}

  lemma {:induction false} PrefixIsRow(t: Table, q: Query, p: seq<DeptId>, n: nat)
    requires IsRow(t, q, p) && 0 < n <= |p|
    ensures IsRow(t, q, p[..n])
    decreases |p|
  {
    if n == |p| {
      assert p[..n] == p;
    } else {
      PrefixIsRow(t, q, p[..|p| - 1], n);
      assert p[..|p| - 1][..n] == p[..n];
    }
  }

  function BaseRows(t: Table, q: Query): set<seq<DeptId>> {
    set d | d in t && d in q.starts && t[d].org == q.org :: [d]
  }

  function Children(t: Table, q: Query, working: set<seq<DeptId>>): set<seq<DeptId>> {
    if q.recurse then
      set p, c | p in working && p != [] && c in t && t[c].org == q.org && t[c].parent == Some(Last(p)) :: p + [c]
    else {}
  }

  /** The working table after k rounds, and the result so far. */
  ghost predicate IsLevel(t: Table, q: Query, working: set<seq<DeptId>>, k: nat) {
    forall p :: p in working <==> IsRow(t, q, p) && |p| == k + 1
  }

  ghost predicate HoldsLevels(t: Table, q: Query, rows: set<seq<DeptId>>, k: nat) {
    forall p :: p in rows <==> IsRow(t, q, p) && |p| <= k
  }

  lemma FirstLevel(t: Table, q: Query)
    ensures IsLevel(t, q, BaseRows(t, q), 0)
  {
    assert forall p :: |p| == 1 && IsRow(t, q, p) ==> p == [p[0]];
  }

  lemma ChildrenAreNextLevel(t: Table, q: Query, working: set<seq<DeptId>>, k: nat)
    requires IsLevel(t, q, working, k)
    ensures IsLevel(t, q, Children(t, q, working), k + 1)
  {
    forall p ensures p in Children(t, q, working) <==> IsRow(t, q, p) && |p| == k + 2 {
      if p in Children(t, q, working) {
        var s, c :| s in working && s != [] && c in t && t[c].org == q.org && t[c].parent == Some(Last(s))
            && p == s + [c];
        assert p[..|p| - 1] == s;
      }
      if IsRow(t, q, p) && |p| == k + 2 {
        var s := p[..|p| - 1];
        assert p == s + [Last(p)];
        assert s in working;
      }
    }
  }

  lemma EmptyLevelIsLast(t: Table, q: Query, rows: set<seq<DeptId>>, k: nat)
    requires IsLevel(t, q, {}, k) && HoldsLevels(t, q, rows, k)
    ensures forall p :: p in rows <==> IsRow(t, q, p)
  {
    forall p | IsRow(t, q, p) ensures |p| <= k {
      if |p| > k { PrefixIsRow(t, q, p, k + 1); }
    }
  }

  lemma LevelIsShallow(t: Table, q: Query, working: set<seq<DeptId>>, k: nat)
    requires Acyclic(t) && IsLevel(t, q, working, k) && working != {}
    ensures k < |t|
  {
    var p :| p in working;
    RowIsChain(t, q, p);
    ChainIsShort(t, Last(p), k);
  }

  /**
   How the database evaluates the query: the working table holds the newest rows, they move to the result, and
   the recursive term replaces them by their children until none are left. It ends on every forest.
   */
  method Evaluate(t: Table, q: Query) returns (rows: set<seq<DeptId>>)
    requires Forest(t)
    ensures forall p :: p in rows <==> IsRow(t, q, p)
  {
    rows := {};
    var working := BaseRows(t, q);
    FirstLevel(t, q);
    ghost var k := 0;
    while working != {}
      invariant IsLevel(t, q, working, k) && HoldsLevels(t, q, rows, k)
      decreases |t| - k
    {
      LevelIsShallow(t, q, working, k);
      ChildrenAreNextLevel(t, q, working, k);
      rows := rows + working;
      working := Children(t, q, working);
      k := k + 1;
    }
    EmptyLevelIsLast(t, q, rows, k);
  }

  /** departments::parent_would_create_cycle */
  method ParentWouldCreateCycle(t: Table, org: OrgId, id: DeptId, parent: DeptId) returns (cycle: bool)
    requires Forest(t)
    ensures cycle <==> id in t && t[id].org == org && Descends(t, id, parent)
  {
    var q := Query(org, {id}, true);
    var rows := Evaluate(t, q);
    cycle := exists p :: p in rows && p != [] && Last(p) == parent;
    if cycle {
      var p :| p in rows && p != [] && Last(p) == parent;
      RowIsChain(t, q, p);
      assert Up(t, parent, |p| - 1) == Some(id);
      UpInTable(t, parent, |p| - 1);
    }
    if id in t && t[id].org == org && Descends(t, id, parent) {
      var k: nat :| Up(t, parent, k) == Some(id);
      UpInTable(t, parent, k);
      var p := ChainIsRow(t, q, parent, k);
      assert p in rows;
    }
  }

  // ---------------------------------------------------------------- changes

  /** Re-parenting one department leaves every chain that does not pass through it as it was. */
  lemma {:induction false} UpAvoiding(t: Table, t': Table, id: DeptId, d: DeptId, k: nat)
    requires t.Keys == t'.Keys && forall e :: e in t && e != id ==> t'[e].parent == t[e].parent
    requires forall j: nat :: j < k ==> Up(t', d, j) != Some(id)
    ensures Up(t', d, k) == Up(t, d, k)
    decreases k
  {
    if k > 0 && d in t && d != id && t[d].parent.Some? {
      forall j: nat | j < k - 1 ensures Up(t', t[d].parent.value, j) != Some(id) {
        assert Up(t', d, j + 1) == Up(t', t[d].parent.value, j);
      }
      UpAvoiding(t, t', id, t[d].parent.value, k - 1);
    } else if k > 0 && d == id {
      assert d in t ==> Up(t', d, 0) == Some(id);
    }
  }

  /** Any cycle after re-parenting passes through the re-parented department. */
  lemma CycleThroughMoved(t: Table, t': Table, id: DeptId, d: DeptId, k: nat)
    requires Acyclic(t) && t.Keys == t'.Keys && forall e :: e in t && e != id ==> t'[e].parent == t[e].parent
    requires k > 0 && Up(t', d, k) == Some(d)
    ensures Up(t', id, k) == Some(id)
  {
    if forall j: nat :: j < k ==> Up(t', d, j) != Some(id) {
      UpAvoiding(t, t', id, d, k);
    } else {
      var j: nat :| j < k && Up(t', d, j) == Some(id);
      UpSum(t', d, j, k);
      UpSum(t', d, k, j);
    }
  }

  ghost predicate SameButParent(t: Table, t': Table, id: DeptId, parent: DeptId) {
    && t.Keys == t'.Keys && id in t && t'[id].parent == Some(parent)
    && (forall e :: e in t ==> t'[e].org == t[e].org)
    && (forall e :: e in t && e != id ==> t'[e].parent == t[e].parent)
  }

  /** The guard is exact: a move keeps the forest if and only if the new parent is outside the moved subtree. */
  lemma MoveKeepsForestIff(t: Table, t': Table, id: DeptId, parent: DeptId)
    requires Forest(t) && SameButParent(t, t', id, parent) && parent in t && t[parent].org == t[id].org
    ensures Forest(t') <==> !Descends(t, id, parent)
  {
    if Descends(t, id, parent) {
      var k: nat :| Up(t, parent, k) == Some(id);
      assert Up(t', parent, k) == Some(id) by {
        forall j: nat | j < k ensures Up(t, parent, j) != Some(id) {
          if Up(t, parent, j) == Some(id) { DistanceUnique(t, parent, j, k); }
        }
        UpAvoiding(t', t, id, parent, k);
      }
      assert Up(t', id, k + 1) == Some(id);
    } else {
      forall d: DeptId, k: nat | k > 0 ensures Up(t', d, k) != Some(d) {
        if Up(t', d, k) == Some(d) {
          CycleThroughMoved(t, t', id, d, k);
          assert Up(t', parent, k - 1) == Some(id);
          ReachedInOld(t, t', id, parent, k - 1);
        }
      }
    }
  }

  /** What reaches the moved department afterwards reached it before: its first visit avoids it. */
  lemma {:induction false} ReachedInOld(t: Table, t': Table, id: DeptId, d: DeptId, k: nat)
    requires t.Keys == t'.Keys && forall e :: e in t && e != id ==> t'[e].parent == t[e].parent
    requires Up(t', d, k) == Some(id)
    ensures Descends(t, id, d)
    decreases k
  {
    if forall j: nat :: j < k ==> Up(t', d, j) != Some(id) {
      UpAvoiding(t, t', id, d, k);
    } else {
      var j: nat :| j < k && Up(t', d, j) == Some(id);
      ReachedInOld(t, t', id, d, j);
    }
  }

  lemma {:induction false} UpInSubtable(t: Table, t': Table, d: DeptId, k: nat)
    requires forall e :: e in t' ==> e in t && t'[e].parent == t[e].parent
    requires Up(t', d, k).Some?
    ensures Up(t, d, k) == Up(t', d, k)
    decreases k
  {
    if k > 0 { UpInSubtable(t, t', t'[d].parent.value, k - 1); }
  }

  lemma RemovalKeepsForest(t: Table, id: DeptId)
    requires Forest(t) && forall c :: c in t ==> t[c].parent != Some(id)
    ensures Forest(t - {id})
  {
    var t' := t - {id};
    forall d: DeptId, k: nat | k > 0 ensures Up(t', d, k) != Some(d) {
      if Up(t', d, k) == Some(d) { UpInSubtable(t, t', d, k); }
    }
  }

  lemma AdditionKeepsForest(t: Table, id: DeptId, dept: Dept)
    requires Forest(t) && id !in t && dept.parent.Some? && dept.parent.value in t
        && t[dept.parent.value].org == dept.org
    ensures Forest(t[id := dept])
  {
    var t' := t[id := dept];
    forall d: DeptId, k: nat | d in t && k >= 0 ensures Up(t', d, k) == Up(t, d, k) { UpInClosed(t, t', d, k); }
    forall d: DeptId, k: nat | k > 0 ensures Up(t', d, k) != Some(d) {
      if Up(t', d, k) == Some(d) && d == id {
        assert Up(t, dept.parent.value, k - 1) == Some(id);
        UpInTable(t, dept.parent.value, k - 1);
      }
    }
  }

  lemma {:induction false} UpInClosed(t: Table, t': Table, d: DeptId, k: nat)
    requires Closed(t) && d in t && forall e :: e in t ==> e in t' && t'[e].parent == t[e].parent
    ensures Up(t', d, k) == Up(t, d, k)
    decreases k
  {
    if k > 0 && t[d].parent.Some? { UpInClosed(t, t', t[d].parent.value, k - 1); }
  }
}
