/**
 The department editor of the web client: it collects the edited department's descendants from the list it
 was given and offers the other departments as parents.
 */
module DepartmentEditor {
  import opened Prelude
  import opened DepartmentForest
  import opened Departments
  import opened DepartmentListing

  datatype Item = Item(id: DeptId, parent: Option<DeptId>, active: bool)

  /** `d` is k listed parent links below `root`; nothing is assumed of the list. */
  ghost predicate Below(items: seq<Item>, root: DeptId, d: DeptId, k: nat)
    decreases k
  {
    if k == 0 then d == root
    else
      exists item :: item in items && item.id == d && item.parent.Some? && Below(items, root, item.parent.value, k - 1)
  }

  ghost predicate IsDescendant(items: seq<Item>, root: DeptId, d: DeptId) {
    exists k: nat :: Below(items, root, d, k)
  }

  predicate Adds(blocked: set<DeptId>, item: Item) {
    item.parent.Some? && item.parent.value in blocked && item.id !in blocked
  }

  lemma ChildIsDescendant(items: seq<Item>, root: DeptId, item: Item)
    requires item in items && item.parent.Some? && IsDescendant(items, root, item.parent.value)
    ensures IsDescendant(items, root, item.id)
  {
    var k: nat :| Below(items, root, item.parent.value, k);
    assert Below(items, root, item.id, k + 1);
  }

  /** A set that holds the root and that no item extends holds every descendant. */
  lemma {:induction false} StableHoldsAll(items: seq<Item>, root: DeptId, blocked: set<DeptId>, d: DeptId, k: nat)
    requires root in blocked && Stable(items, blocked, |items|) && Below(items, root, d, k)
    ensures d in blocked
    decreases k
  {
    if k > 0 {
      var item :| item in items && item.id == d && item.parent.Some? && Below(items, root, item.parent.value, k - 1);
      StableHoldsAll(items, root, blocked, item.parent.value, k - 1);
    }
  }

  function Ids(items: seq<Item>): set<DeptId> {
    set item | item in items :: item.id
  }

  ghost predicate AllDescend(items: seq<Item>, root: DeptId, blocked: set<DeptId>) {
    forall d :: d in blocked ==> IsDescendant(items, root, d)
  }

  /** No item among the first n extends the set. */
  ghost predicate Stable(items: seq<Item>, blocked: set<DeptId>, n: nat) {
    forall i :: 0 <= i < n && i < |items| ==> !Adds(blocked, items[i])
  }

  /** What a pass may do to the set: grow it by listed ids, and say so. */
  ghost predicate Grown(items: seq<Item>, before: set<DeptId>, blocked: set<DeptId>, changed: bool) {
    before <= blocked <= before + Ids(items) && (changed <==> blocked != before)
  }

  lemma GrownShrinks(items: seq<Item>, before: set<DeptId>, blocked: set<DeptId>)
    requires Grown(items, before, blocked, true)
    ensures |Ids(items) - blocked| < |Ids(items) - before|
  {
    var missing, left := Ids(items) - before, Ids(items) - blocked;
    assert (forall d :: d in blocked ==> d in before) ==> blocked == before;
    var added :| added in blocked && added !in before;
    assert added in missing - left;
    assert missing == left + (missing - left);
  }

  lemma AddedDescends(items: seq<Item>, root: DeptId, before: set<DeptId>, blocked: set<DeptId>, changed: bool,
      item: Item)
    requires AllDescend(items, root, blocked) && Grown(items, before, blocked, changed) && item in items
        && Adds(blocked, item)
    ensures AllDescend(items, root, blocked + {item.id}) && Grown(items, before, blocked + {item.id}, true)
  {
    ChildIsDescendant(items, root, item);
  }

  /** One run of the inner loop. */
  method OnePass(items: seq<Item>, ghost root: DeptId, before: set<DeptId>)
    returns (blocked: set<DeptId>, changed: bool)
    requires AllDescend(items, root, before)
    ensures AllDescend(items, root, blocked) && Grown(items, before, blocked, changed)
    ensures !changed ==> Stable(items, blocked, |items|)
  {
    blocked, changed := before, false;
    for i := 0 to |items|
      invariant AllDescend(items, root, blocked) && Grown(items, before, blocked, changed)
      invariant !changed ==> Stable(items, blocked, i)
    {
      if Adds(blocked, items[i]) {
        AddedDescends(items, root, before, blocked, changed, items[i]);
        blocked := blocked + {items[i].id};
        changed := true;
      }
    }
  }

  /** descendantIds */
  method DescendantIds(items: seq<Item>, department: Option<DeptId>) returns (blocked: set<DeptId>)
    ensures department.None? ==> blocked == {}
    ensures department.Some? ==> forall d :: d in blocked <==> IsDescendant(items, department.value, d)
  {
    if department.None? {
      return {};
    }
    var root := department.value;
    blocked := {root};
    var changed := true;
    assert Below(items, root, root, 0);
    while changed
      invariant root in blocked && AllDescend(items, root, blocked)
      invariant !changed ==> Stable(items, blocked, |items|)
      decreases |Ids(items) - blocked|, changed
    {
      ghost var before := blocked;
      blocked, changed := OnePass(items, root, blocked);
      if changed { GrownShrinks(items, before, blocked); }
    }
    forall d | IsDescendant(items, root, d) ensures d in blocked {
      var k: nat :| Below(items, root, d, k);
      StableHoldsAll(items, root, blocked, d, k);
    }
  }

  ghost predicate Offered(items: seq<Item>, department: Option<DeptId>, currentParent: Option<DeptId>, item: Item) {
    && item in items && (item.active || Some(item.id) == currentParent)
    && (department.Some? ==> !IsDescendant(items, department.value, item.id))
  }

  /** parentOptions */
  method ParentOptions(items: seq<Item>, department: Option<DeptId>, currentParent: Option<DeptId>)
    returns (options: seq<Item>)
    ensures forall item :: item in options <==> Offered(items, department, currentParent, item)
  {
    var blocked := DescendantIds(items, department);
    options := [];
    for i := 0 to |items|
      invariant forall item ::
                  item in options <==> item in items[..i] && Offered(items, department, currentParent, item)
    {
      assert items[..i + 1] == items[..i] + [items[i]];
      if items[i].id !in blocked && (items[i].active || Some(items[i].id) == currentParent) {
        options := options + [items[i]];
      }
    }
    assert items[..|items|] == items;
  }

  // ---------------------------------------------------------------- agreement with the server

  ghost predicate Faithful(t: Table, items: seq<Item>) {
    forall item :: item in items ==> item.id in t && item.parent == t[item.id].parent
  }

  ghost predicate HoldsSubtree(t: Table, items: seq<Item>, root: DeptId) {
    forall d :: Descends(t, root, d) ==> exists item :: item in items && item.id == d && item.parent == t[d].parent
  }

  lemma {:induction false} ListedIsDescendant(t: Table, items: seq<Item>, root: DeptId, d: DeptId, k: nat)
    requires Faithful(t, items) && root in t && Below(items, root, d, k)
    ensures Up(t, d, k) == Some(root)
    decreases k
  {
    if k > 0 {
      var item :| item in items && item.id == d && item.parent.Some? && Below(items, root, item.parent.value, k - 1);
      ListedIsDescendant(t, items, root, item.parent.value, k - 1);
    }
  }

  lemma {:induction false} DescendantIsListed(t: Table, items: seq<Item>, root: DeptId, d: DeptId, k: nat)
    requires HoldsSubtree(t, items, root) && Up(t, d, k) == Some(root)
    ensures Below(items, root, d, k)
    decreases k
  {
    if k > 0 {
      DescendantIsListed(t, items, root, t[d].parent.value, k - 1);
      assert Descends(t, root, d);
      var item :| item in items && item.id == d && item.parent == t[d].parent;
    }
  }

  /** On a list that holds the whole subtree, the loop finds exactly what the server's cycle check rejects. */
  lemma LoopMatchesCycleCheck(t: Table, items: seq<Item>, root: DeptId, d: DeptId)
    requires HoldsSubtree(t, items, root) && Faithful(t, items) && root in t
    ensures IsDescendant(items, root, d) <==> Descends(t, root, d)
  {
    if IsDescendant(items, root, d) {
      var k: nat :| Below(items, root, d, k);
      ListedIsDescendant(t, items, root, d, k);
    }
    if Descends(t, root, d) {
      var k: nat :| Up(t, d, k) == Some(root);
      DescendantIsListed(t, items, root, d, k);
    }
  }

  function ItemOf(t: Table, p: seq<DeptId>): Item
    requires p != [] && Last(p) in t
  {
    Item(Last(p), t[Last(p)].parent, t[Last(p)].active)
  }

  /** The items of a listing that the server sent. */
  ghost predicate FromListing(t: Table, rows: seq<seq<DeptId>>, items: seq<Item>) {
    |items| == |rows| && forall i :: 0 <= i < |rows| ==>
        rows[i] != [] && Last(rows[i]) in t && items[i] == ItemOf(t, rows[i])
  }

  lemma {:induction false} RowsBelow(t: Table, actor: Actor, p: seq<DeptId>, d: DeptId, k: nat) returns (r: seq<DeptId>)
    requires Forest(t) && IsRow(t, Visible(t, actor), p) && Visible(t, actor).recurse && Up(t, d, k) == Some(Last(p))
    ensures IsRow(t, Visible(t, actor), r) && Last(r) == d
  {
    var q := Visible(t, actor);
    RowIsChain(t, q, p);
    UpSum(t, d, k, |p| - 1);
    UpInTable(t, d, k);
    assert Up(t, Last(p), |p| - 1) == Some(p[0]);
    r := ChainIsRow(t, q, d, k + |p| - 1);
  }

  lemma ListingHoldsSubtree(t: Table, actor: Actor, rows: seq<seq<DeptId>>, items: seq<Item>, root: DeptId)
    requires Forest(t) && IsListing(t, actor, rows) && FromListing(t, rows, items) && CanSee(t, actor, root)
    requires Visible(t, actor).recurse
    ensures HoldsSubtree(t, items, root)
  {
    var depth: nat :| Sees(t, actor, root, depth);
    var p := SeenHasRow(t, actor, root, depth);
    forall d | Descends(t, root, d) ensures exists item :: item in items && item.id == d && item.parent == t[d].parent {
      var k: nat :| Up(t, d, k) == Some(root);
      var r := RowsBelow(t, actor, p, d, k);
      assert r in rows;
      var i :| 0 <= i < |rows| && rows[i] == r;
      assert items[i] in items;
    }
  }

  /** Without recursion the scope holds one department, and the editor offers it no parent. */
  lemma OnlyOneListed(t: Table, actor: Actor, rows: seq<seq<DeptId>>, items: seq<Item>, root: DeptId, item: Item)
    requires Forest(t) && IsListing(t, actor, rows) && FromListing(t, rows, items) && CanSee(t, actor, root)
    requires !Visible(t, actor).recurse && item in items
    ensures item.id == root
  {
    var i :| 0 <= i < |items| && items[i] == item;
    assert rows[i] in rows;
    RowsAreSeen(t, actor, rows[i]);
  }

  /**
   For every actor and every department it may edit, given the server's own listing: the editor offers a
   department exactly when the server's cycle check would accept it as parent and it is active or the current
   parent.
   */
  lemma OffersPassCycleCheck(t: Table, actor: Actor, rows: seq<seq<DeptId>>, items: seq<Item>, root: DeptId, item: Item)
    requires Forest(t) && IsListing(t, actor, rows) && FromListing(t, rows, items) && CanSee(t, actor, root)
    requires item in items
    ensures Offered(items, Some(root), t[root].parent, item)
       <==> !Descends(t, root, item.id) && (item.active || Some(item.id) == t[root].parent)
  {
    assert Faithful(t, items);
    if Visible(t, actor).recurse {
      ListingHoldsSubtree(t, actor, rows, items, root);
      LoopMatchesCycleCheck(t, items, root, item.id);
    } else {
      OnlyOneListed(t, actor, rows, items, root, item);
      assert Up(t, root, 0) == Some(root);
      assert Below(items, root, root, 0);
    }
  }
}
