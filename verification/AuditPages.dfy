/**
 Keyset pagination of the audit log: newest first by (created_at, id), one extra row fetched per page to tell
 whether a next page exists, and the last row shown as cursor.
 */
module AuditPages {
  import opened Prelude

  datatype Row = Row(id: nat, at: int, body: string)
  datatype Key = Key(at: int, id: nat)
  type Log = set<Row>

  function KeyOf(r: Row): Key {
    Key(r.at, r.id)
  }

  /** Row comparison (created_at, id) < (at, id). */
  predicate Less(a: Key, b: Key) {
    a.at < b.at || (a.at == b.at && a.id < b.id)
  }

  predicate Under(r: Row, cursor: Option<Key>) {
    cursor.None? || Less(KeyOf(r), cursor.value)
  }

  /** id is the primary key. */
  ghost predicate Valid(log: Log) {
    forall r, s :: r in log && s in log && r.id == s.id ==> r == s
  }

  ghost predicate Descending(rows: seq<Row>) {
    forall i, j :: 0 <= i < j < |rows| ==> Less(KeyOf(rows[j]), KeyOf(rows[i]))
  }

  ghost predicate Holds(rows: seq<Row>, s: set<Row>) {
    forall r :: r in rows <==> r in s
  }

  /** ORDER BY created_at DESC, id DESC, as a relation between a set and its ordered rows. */
  ghost predicate Orders(rows: seq<Row>, s: set<Row>) {
    Descending(rows) && Holds(rows, s)
  }

  /** The rows a query selects: any filter, and below the cursor. */
  function Selected(log: Log, keep: Row -> bool, cursor: Option<Key>): set<Row> {
    set r | r in log && keep(r) && Under(r, cursor)
  }

  // ---------------------------------------------------------------- ordered rows

  predicate IsNewest(s: set<Row>, m: Row) {
    m in s && forall r :: r in s && r != m ==> Less(KeyOf(r), KeyOf(m))
  }

  lemma {:induction false} NewestExists(s: set<Row>)
    requires Valid(s) && s != {}
    ensures exists m :: IsNewest(s, m)
  {
    var m :| m in s;
    if s == {m} {
      assert IsNewest(s, m);
    } else {
      NewestExists(s - {m});
      var n :| IsNewest(s - {m}, n);
      assert IsNewest(s, if Less(KeyOf(m), KeyOf(n)) then n else m);
    }
  }

  /** The rows of a set in that order. */
  ghost function Ordered(s: set<Row>): (rows: seq<Row>)
    requires Valid(s)
    ensures Orders(rows, s)
  {
    if s == {} then []
    else
      NewestExists(s);
      var m :| IsNewest(s, m);
      [m] + Ordered(s - {m})
  }

  lemma {:induction false} OrderUnique(a: seq<Row>, b: seq<Row>, s: set<Row>)
    requires Orders(a, s) && Orders(b, s)
    ensures a == b
    decreases |a|
  {
    assert (a != [] ==> a[0] in b) && (b != [] ==> b[0] in a);
    if a != [] {
      assert a[0] == b[0];
      TailOrders(a, s);
      TailOrders(b, s);
      OrderUnique(a[1..], b[1..], s - {a[0]});
      assert a == [a[0]] + a[1..] && b == [b[0]] + b[1..];
    }
  }

  lemma TailOrders(a: seq<Row>, s: set<Row>)
    requires Orders(a, s) && a != []
    ensures Orders(a[1..], s - {a[0]})
  {}

  /** The query: LIMIT rows after OFFSET, computed by taking the newest remaining row each time. */
  method Query(log: Log, keep: Row -> bool, cursor: Option<Key>, limit: nat, offset: nat) returns (rows: seq<Row>)
    requires Valid(log)
    ensures rows == Slice(Ordered(Selected(log, keep, cursor)), offset, limit)
  {
    var ordered: seq<Row> := [];
    var selected := Selected(log, keep, cursor);
    var rest := selected;
    while rest != {}
      invariant rest <= selected && Orders(ordered, selected - rest)
      invariant forall r, s :: r in rest && s in ordered ==> Less(KeyOf(r), KeyOf(s))
    {
      NewestExists(rest);
      var m :| IsNewest(rest, m);
      ordered := ordered + [m];
      rest := rest - {m};
    }
    assert selected - {} == selected;
    OrderUnique(ordered, Ordered(selected), selected);
    rows := Slice(ordered, offset, limit);
  }

  function Slice(all: seq<Row>, offset: nat, limit: nat): seq<Row> {
    var from := if offset < |all| then offset else |all|;
    var to := if from + limit < |all| then from + limit else |all|;
    all[from..to]
  }

  function Clamp(x: int, lo: int, hi: int): int {
    if x < lo then lo else if x > hi then hi else x
  }

  function PageSize(requested: Option<int>): (n: nat)
    ensures 1 <= n <= 100
  {
    Clamp(if requested.Some? then requested.value else 20, 1, 100)
  }

  function PageNumber(requested: Option<int>): (n: nat)
    ensures n >= 1
  {
    if requested.Some? && requested.value > 1 then requested.value else 1
  }

  /** OFFSET of a numbered page. */
  function Skipped(page: Option<int>, pageSize: Option<int>): nat {
    NatProduct(PageNumber(page) - 1, PageSize(pageSize))
  }

  function NatProduct(a: nat, b: nat): nat {
    a * b
  }

  /** What the service answers: `size` of the ordered rows from `offset`, and a cursor if there are more. */
  ghost predicate IsPage(all: seq<Row>, offset: nat, size: nat, items: seq<Row>, next: Option<Key>)
    requires size >= 1
  {
    && items == Slice(all, offset, size)
    && next == if offset + size < |all| then Some(KeyOf(all[offset + size - 1])) else None
  }

  /** audit_logs::list of the service; page numbers count only without a cursor. */
  method List(log: Log, keep: Row -> bool, page: Option<int>, pageSize: Option<int>, cursor: Option<Key>)
    returns (items: seq<Row>, next: Option<Key>)
    requires Valid(log)
    ensures var offset := if cursor.Some? then 0 else Skipped(page, pageSize);
            IsPage(Ordered(Selected(log, keep, cursor)), offset, PageSize(pageSize), items, next)
  {
    var size := PageSize(pageSize);
    var offset := if cursor.Some? then 0 else Skipped(page, pageSize);
    var rows := Query(log, keep, cursor, size + 1, offset);
    items, next := TakePage(rows, size, Ordered(Selected(log, keep, cursor)), offset);
  }

  /** The extra row tells whether there is more and is dropped. */
  method TakePage(fetched: seq<Row>, size: nat, ghost all: seq<Row>, ghost offset: nat)
    returns (items: seq<Row>, next: Option<Key>)
    requires size >= 1 && fetched == Slice(all, offset, size + 1)
    ensures IsPage(all, offset, size, items, next)
  {
    items := fetched;
    var hasMore := |items| > size;
    if hasMore {
      items := items[..|items| - 1];
    }
    next := if hasMore then Some(KeyOf(items[|items| - 1])) else None;
    PageTaken(fetched, size, all, offset);
  }

  lemma PageTaken(fetched: seq<Row>, size: nat, all: seq<Row>, offset: nat)
    requires size >= 1 && fetched == Slice(all, offset, size + 1)
    ensures |fetched| > size <==> offset + size < |all|
    ensures Slice(all, offset, size) == if |fetched| > size then fetched[..|fetched| - 1] else fetched
    ensures |fetched| > size ==> fetched[|fetched| - 2] == all[offset + size - 1]
  {}

  /** The selected rows that come before `r`: later ones, and of the same time those with a larger id. */
  function Newer(s: set<Row>, r: Row): set<Row> {
    set x | x in s && (x.at > r.at || (x.at == r.at && x.id > r.id))
  }

  /** In a descending list the rows before position k are the k newer ones. */
  lemma {:induction false} RowsBefore(all: seq<Row>, s: set<Row>, k: nat)
    requires Orders(all, s) && k < |all|
    ensures Newer(s, all[k]) == (set x | x in all[..k]) && |Newer(s, all[k])| == k
  {
    forall x ensures x in Newer(s, all[k]) <==> x in all[..k] {
      if x in all[..k] {
        var i :| 0 <= i < k && all[..k][i] == x;
        assert x == all[i] && x in all;
      }
    }
    DistinctCount(all[..k]);
  }

  lemma {:induction false} DistinctCount(rows: seq<Row>)
    requires Descending(rows)
    ensures |set x | x in rows| == |rows|
    decreases |rows|
  {
    if rows != [] {
      var n := |rows| - 1;
      DistinctCount(rows[..n]);
      assert (set x | x in rows) == (set x | x in rows[..n]) + {rows[n]};
      assert rows[n] !in rows[..n];
    }
  }

  /** A page holds exactly the selected rows whose rank lies in its interval. */
  lemma PageIsRankInterval(all: seq<Row>, s: set<Row>, offset: nat, size: nat, r: Row)
    requires Orders(all, s)
    ensures r in Slice(all, offset, size) <==> r in s && offset <= |Newer(s, r)| < offset + size
  {
    if r in s {
      assert r in all;
      var k :| 0 <= k < |all| && all[k] == r;
      RowsBefore(all, s, k);
      if offset <= k < offset + size {
        assert Slice(all, offset, size)[k - offset] == r;
      }
      if r in Slice(all, offset, size) {
        var i :| 0 <= i < |Slice(all, offset, size)| && Slice(all, offset, size)[i] == r;
        assert all[offset + i] == r;
      }
    }
  }

  /**
   What a page request shows, in terms of the log: with n the page size (20 unless asked, from 1 to 100) and k the
   page (1 without one, or with a cursor), the rows the filter keeps and the cursor allows of which at least
   (k - 1) * n and fewer than k * n others are newer, newest first.
   */
  lemma PageContents(log: Log, keep: Row -> bool, page: Option<int>, pageSize: Option<int>, cursor: Option<Key>,
      items: seq<Row>, next: Option<Key>, n: nat, k: nat)
    requires Valid(log)
    requires n == if pageSize.None? then 20 else if pageSize.value < 1 then 1
                  else if pageSize.value > 100 then 100 else pageSize.value
    requires k == if cursor.Some? || page.None? || page.value < 1 then 1 else page.value
    requires var offset := if cursor.Some? then 0 else Skipped(page, pageSize);
             IsPage(Ordered(Selected(log, keep, cursor)), offset, PageSize(pageSize), items, next)
    ensures forall i, j :: 0 <= i < j < |items| ==>
              items[j].at < items[i].at || (items[j].at == items[i].at && items[j].id < items[i].id)
    ensures forall r :: r in items <==>
              && r in Selected(log, keep, cursor)
              && (k - 1) * n <= |Newer(Selected(log, keep, cursor), r)| < (k - 1) * n + n
    ensures forall r :: r in Selected(log, keep, cursor) <==>
              && r in log && keep(r)
              && (cursor.Some? ==> r.at < cursor.value.at || (r.at == cursor.value.at && r.id < cursor.value.id))
  {
    var selected := Selected(log, keep, cursor);
    var offset := if cursor.Some? then 0 else Skipped(page, pageSize);
    OffsetOfPage(page, pageSize, cursor, n, k);
    RanksOnPage(Ordered(selected), selected, offset, n);
    assert items == Slice(Ordered(selected), offset, n);
  }

  lemma OffsetOfPage(page: Option<int>, pageSize: Option<int>, cursor: Option<Key>, n: nat, k: nat)
    requires n == PageSize(pageSize) && k == if cursor.Some? then 1 else PageNumber(page)
    ensures (if cursor.Some? then 0 else Skipped(page, pageSize)) == (k - 1) * n
  {}

  lemma RanksOnPage(all: seq<Row>, s: set<Row>, offset: nat, n: nat)
    requires Orders(all, s)
    ensures forall r :: r in Slice(all, offset, n) <==> r in s && offset <= |Newer(s, r)| < offset + n
    ensures Descending(Slice(all, offset, n))
  {
    forall r ensures r in Slice(all, offset, n) <==> r in s && offset <= |Newer(s, r)| < offset + n {
      PageIsRankInterval(all, s, offset, n, r);
    }
  }

  // ---------------------------------------------------------------- following the cursor

  /** Below a row of the ordering lie exactly the rows that follow it. */
  lemma CursorSplits(log: Log, keep: Row -> bool, cursor: Option<Key>, all: seq<Row>, n: nat)
    requires Orders(all, Selected(log, keep, cursor)) && 0 < n <= |all|
    ensures Orders(all[n..], Selected(log, keep, Some(KeyOf(all[n - 1]))))
  {
    var below := Selected(log, keep, Some(KeyOf(all[n - 1])));
    forall r ensures r in all[n..] <==> r in below {
      if r in all[n..] {
        var i :| n <= i < |all| && all[i] == r;
        assert r in all;
      }
      if r in below {
        assert all[n - 1] in all;
        assert r in all;
        var i :| 0 <= i < |all| && all[i] == r;
        assert i >= n;
      }
    }
  }

  /** Where the client stands after showing `whole[skipped..done]`. */
  ghost predicate Reached(whole: seq<Row>, skipped: nat, done: nat, shown: seq<Row>, next: Option<Key>) {
    && skipped <= done && (done > |whole| ==> done == skipped)
    && shown == (if done <= |whole| then whole[skipped..done] else [])
    && if next.None? then done >= |whole| else 0 < done < |whole| && next.value == KeyOf(whole[done - 1])
  }

  lemma FirstReached(whole: seq<Row>, skipped: nat, size: nat, items: seq<Row>, next: Option<Key>)
    requires size >= 1 && IsPage(whole, skipped, size, items, next)
    ensures Reached(whole, skipped, skipped + |items|, items, next)
  {}

  lemma NextReached(whole: seq<Row>, skipped: nat, done: nat, shown: seq<Row>, next: Option<Key>, size: nat,
      items: seq<Row>, next': Option<Key>)
    requires size >= 1 && Reached(whole, skipped, done, shown, next) && next.Some?
        && IsPage(whole[done..], 0, size, items, next')
    ensures Reached(whole, skipped, done + |items|, shown + items, next') && |items| > 0
  {}

  /**
   Following next_cursor until it is absent: the loop ends, and from the first page it shows exactly the
   filtered log in order, without gap or repeat, for every page size; from a later page, what is left of it.
   */
  method FollowAll(log: Log, keep: Row -> bool, page: Option<int>, pageSize: Option<int>) returns (shown: seq<Row>)
    requires Valid(log)
    ensures shown == Tail(Ordered(Selected(log, keep, None)), Skipped(page, pageSize))
    ensures PageNumber(page) == 1 ==> Orders(shown, Selected(log, keep, None))
  {
    ghost var whole := Ordered(Selected(log, keep, None));
    var items, next := List(log, keep, page, pageSize, None);
    FirstReached(whole, Skipped(page, pageSize), PageSize(pageSize), items, next);
    shown := FollowFrom(log, keep, page, pageSize, items, next, whole, Skipped(page, pageSize));
    if PageNumber(page) == 1 {
      FirstPageIsAll(whole, page, pageSize);
    }
  }

  /** Page one skips nothing. */
  lemma FirstPageIsAll(whole: seq<Row>, page: Option<int>, pageSize: Option<int>)
    requires PageNumber(page) == 1
    ensures Tail(whole, Skipped(page, pageSize)) == whole
  {
    assert Skipped(page, pageSize) == NatProduct(0, PageSize(pageSize)) == 0;
  }

  function Tail(whole: seq<Row>, skipped: nat): seq<Row> {
    if skipped < |whole| then whole[skipped..] else []
  }

  lemma AllReached(whole: seq<Row>, skipped: nat, done: nat, shown: seq<Row>)
    requires Reached(whole, skipped, done, shown, None)
    ensures shown == Tail(whole, skipped)
  {}

  method FollowFrom(log: Log, keep: Row -> bool, page: Option<int>, pageSize: Option<int>, first: seq<Row>,
      cursor: Option<Key>, ghost whole: seq<Row>, ghost skipped: nat)
    returns (shown: seq<Row>)
    requires Valid(log) && Orders(whole, Selected(log, keep, None))
        && Reached(whole, skipped, skipped + |first|, first, cursor)
    ensures shown == Tail(whole, skipped)
  {
    var next := cursor;
    shown := first;
    ghost var done := skipped + |first|;
    while next.Some?
      invariant Reached(whole, skipped, done, shown, next)
      decreases |whole| - done, next.Some?
    {
      var items', next';
      items', next' := NextPage(log, keep, page, pageSize, next, whole, done);
      NextReached(whole, skipped, done, shown, next, PageSize(pageSize), items', next');
      done := done + |items'|;
      shown, next := shown + items', next';
    }
    AllReached(whole, skipped, done, shown);
  }

  /** The page below a cursor is the next piece of the whole ordering. */
  method NextPage(log: Log, keep: Row -> bool, page: Option<int>, pageSize: Option<int>, cursor: Option<Key>,
      ghost whole: seq<Row>, ghost done: nat)
    returns (items: seq<Row>, next: Option<Key>)
    requires Valid(log) && Orders(whole, Selected(log, keep, None))
    requires 0 < done <= |whole| && cursor == Some(KeyOf(whole[done - 1]))
    ensures IsPage(whole[done..], 0, PageSize(pageSize), items, next)
  {
    CursorSplits(log, keep, None, whole, done);
    items, next := List(log, keep, page, pageSize, cursor);
    OrderUnique(Ordered(Selected(log, keep, cursor)), whole[done..], Selected(log, keep, cursor));
  }

  // ---------------------------------------------------------------- rows recorded between pages

  /** One request: the log it saw, its cursor and its answer. */
  datatype Visit = Visit(log: Log, cursor: Option<Key>, items: seq<Row>, next: Option<Key>)

  ghost predicate Answered(v: Visit, keep: Row -> bool, size: nat)
    requires size >= 1
  {
    Valid(v.log) && IsPage(Ordered(Selected(v.log, keep, v.cursor)), 0, size, v.items, v.next)
  }

  /** A client follows next_cursor from the first page to the last while rows are recorded. */
  ghost predicate IsWalk(vs: seq<Visit>, keep: Row -> bool, size: nat)
    requires size >= 1
  {
    && vs != [] && vs[0].cursor.None? && vs[|vs| - 1].next.None?
    && (forall i :: 0 <= i < |vs| ==> Answered(vs[i], keep, size))
    && (forall i, j :: 0 <= i < j < |vs| && j == i + 1 ==>
          vs[j].cursor.Some? && vs[j].cursor == vs[i].next && vs[i].log <= vs[j].log)
  }

  function Shown(vs: seq<Visit>): seq<Row> {
    if vs == [] then [] else Shown(vs[..|vs| - 1]) + vs[|vs| - 1].items
  }

  /** The part of the key order a request covers. */
  ghost predicate Covers(v: Visit, r: Row) {
    Under(r, v.cursor) && (v.next.Some? ==> !Under(r, v.next))
  }

  /** The first n rows of an ordering are those not below the n-th. */
  lemma FirstRows(all: seq<Row>, n: nat, r: Row)
    requires Descending(all) && 0 < n <= |all|
    ensures r in all[..n] <==> r in all && !Less(KeyOf(r), KeyOf(all[n - 1]))
  {}

  lemma VisitContents(v: Visit, keep: Row -> bool, size: nat, r: Row)
    requires size >= 1 && Answered(v, keep, size)
    ensures r in v.items <==> r in v.log && keep(r) && Covers(v, r)
    ensures v.next.Some? ==> v.items != [] && v.next.value == KeyOf(v.items[|v.items| - 1])
  {
    var all := Ordered(Selected(v.log, keep, v.cursor));
    assert r in all <==> r in Selected(v.log, keep, v.cursor);
    if v.next.Some? {
      assert v.items == all[..size];
      FirstRows(all, size, r);
    } else {
      assert v.items == all;
    }
  }

  lemma {:induction false} ShownIff(vs: seq<Visit>, r: Row)
    ensures r in Shown(vs) <==> exists i :: 0 <= i < |vs| && r in vs[i].items
  {
    if vs != [] {
      var rest := vs[..|vs| - 1];
      ShownIff(rest, r);
      if r in Shown(rest) {
        var i :| 0 <= i < |rest| && r in rest[i].items;
        assert r in vs[i].items;
      }
      if i :| 0 <= i < |vs| && r in vs[i].items {
        if i < |rest| { assert r in rest[i].items; }
      }
    }
  }

  /** A row is shown exactly when it was already in the log as the request that covers its key was answered. */
  lemma {:induction false} WalkContents(vs: seq<Visit>, keep: Row -> bool, size: nat, r: Row)
    requires size >= 1 && IsWalk(vs, keep, size)
    ensures r in Shown(vs) <==> keep(r) && exists i :: 0 <= i < |vs| && Covers(vs[i], r) && r in vs[i].log
  {
    ShownIff(vs, r);
    forall i | 0 <= i < |vs| ensures r in vs[i].items <==> r in vs[i].log && keep(r) && Covers(vs[i], r) {
      VisitContents(vs[i], keep, size, r);
    }
  }

  /** The requests cover every key. */
  lemma {:induction false} SomeVisitCovers(vs: seq<Visit>, keep: Row -> bool, size: nat, r: Row, from: nat)
    returns (i: nat)
    requires size >= 1 && IsWalk(vs, keep, size) && from < |vs| && Under(r, vs[from].cursor)
    ensures from <= i < |vs| && Covers(vs[i], r)
    decreases |vs| - from
  {
    if vs[from].next.Some? && Under(r, vs[from].next) {
      i := SomeVisitCovers(vs, keep, size, r, from + 1);
    } else {
      i := from;
    }
  }

  lemma {:induction false} LogsGrow(vs: seq<Visit>, keep: Row -> bool, size: nat, i: nat, j: nat)
    requires size >= 1 && IsWalk(vs, keep, size) && i <= j < |vs|
    ensures vs[i].log <= vs[j].log
    decreases j
  {
    if i < j { LogsGrow(vs, keep, size, i, j - 1); }
  }

  /** Cursors fall strictly. */
  lemma {:induction false} CursorsFall(vs: seq<Visit>, keep: Row -> bool, size: nat, i: nat, j: nat, r: Row)
    requires size >= 1 && IsWalk(vs, keep, size) && i < j < |vs| && Under(r, vs[j].cursor)
    ensures vs[i].next.Some? && Under(r, vs[i].next)
    decreases j
  {
    if i < j - 1 {
      var v := vs[j - 1];
      VisitContents(v, keep, size, r);
      var last := v.items[|v.items| - 1];
      VisitContents(v, keep, size, last);
      assert Under(r, v.cursor);
      CursorsFall(vs, keep, size, i, j - 1, r);
    }
  }

  lemma {:induction false} EarlierIsNewer(vs: seq<Visit>, keep: Row -> bool, size: nat, i: nat, j: nat, r: Row, s: Row)
    requires size >= 1 && IsWalk(vs, keep, size) && i < j < |vs| && r in vs[i].items && s in vs[j].items
    ensures Less(KeyOf(s), KeyOf(r))
  {
    VisitContents(vs[i], keep, size, r);
    VisitContents(vs[j], keep, size, s);
    CursorsFall(vs, keep, size, i, j, s);
  }

  lemma {:induction false} ShownEarlierIsNewer(vs: seq<Visit>, keep: Row -> bool, size: nat, n: nat, r: Row, s: Row)
    requires size >= 1 && IsWalk(vs, keep, size) && n < |vs| && r in Shown(vs[..n]) && s in vs[n].items
    ensures Less(KeyOf(s), KeyOf(r))
  {
    var before := vs[..n];
    ShownIff(before, r);
    var i :| 0 <= i < n && r in before[i].items;
    EarlierIsNewer(vs, keep, size, i, n, r, s);
  }

  lemma {:induction false} ShownDescends(vs: seq<Visit>, keep: Row -> bool, size: nat, n: nat)
    requires size >= 1 && IsWalk(vs, keep, size) && n <= |vs|
    ensures Descending(Shown(vs[..n]))
  {
    if n > 0 {
      var before := vs[..n - 1];
      assert vs[..n][..n - 1] == before;
      ShownDescends(vs, keep, size, n - 1);
      var early, late := Shown(before), vs[n - 1].items;
      forall r, s | r in early && s in late ensures Less(KeyOf(s), KeyOf(r)) {
        ShownEarlierIsNewer(vs, keep, size, n - 1, r, s);
      }
      VisitDescends(vs[n - 1], keep, size);
      JoinDescending(early, late);
    }
  }

  lemma VisitDescends(v: Visit, keep: Row -> bool, size: nat)
    requires size >= 1 && Answered(v, keep, size)
    ensures Descending(v.items)
  {}

  lemma JoinDescending(a: seq<Row>, b: seq<Row>)
    requires Descending(a) && Descending(b) && forall r, s :: r in a && s in b ==> Less(KeyOf(s), KeyOf(r))
    ensures Descending(a + b)
  {}

  /**
   Whatever is recorded meanwhile, the pages show rows in strictly descending order, so none twice, and miss no
   row that was there at the start.
   */
  lemma {:induction false} WalkMissesNothing(vs: seq<Visit>, keep: Row -> bool, size: nat)
    requires size >= 1 && IsWalk(vs, keep, size)
    ensures Descending(Shown(vs))
    ensures forall r :: r in vs[0].log && keep(r) ==> r in Shown(vs)
  {
    ShownDescends(vs, keep, size, |vs|);
    assert vs[..|vs|] == vs;
    forall r | r in vs[0].log && keep(r) ensures r in Shown(vs) {
      var i := SomeVisitCovers(vs, keep, size, r, 0);
      LogsGrow(vs, keep, size, 0, i);
      WalkContents(vs, keep, size, r);
    }
  }

  /** If every row recorded meanwhile is newer than all rows at the start, the pages show the starting log exactly. */
  lemma {:induction false} NewerRowsChangeNothing(vs: seq<Visit>, keep: Row -> bool, size: nat)
    requires size >= 1 && IsWalk(vs, keep, size) && OnlyNewer(vs)
    ensures Orders(Shown(vs), Selected(vs[0].log, keep, None))
  {
    WalkMissesNothing(vs, keep, size);
    forall r | r in Shown(vs) ensures r in vs[0].log && keep(r) {
      ShownWasThere(vs, keep, size, r);
    }
  }

  /** Every row that was not there at the start is newer than all that were. */
  ghost predicate OnlyNewer(vs: seq<Visit>) {
    forall i, r, s :: 0 <= i < |vs| && r in vs[i].log && r !in vs[0].log && s in vs[0].log ==> Less(KeyOf(s), KeyOf(r))
  }

  lemma {:induction false} ShownWasThere(vs: seq<Visit>, keep: Row -> bool, size: nat, r: Row)
    requires size >= 1 && IsWalk(vs, keep, size) && OnlyNewer(vs) && r in Shown(vs)
    ensures r in vs[0].log && keep(r)
  {
    WalkContents(vs, keep, size, r);
    var i :| 0 <= i < |vs| && Covers(vs[i], r) && r in vs[i].log;
    if i > 0 {
      var s := LaterCoverIsOlder(vs, keep, size, i, r);
      NotNewer(vs, i, r, s);
    }
  }

  lemma NotNewer(vs: seq<Visit>, i: nat, r: Row, s: Row)
    requires i < |vs| && r in vs[i].log && OnlyNewer(vs) && s in vs[0].log && Less(KeyOf(r), KeyOf(s))
    ensures r in vs[0].log
  {}

  /** What a later request covers is older than some row of the starting log. */
  lemma LaterCoverIsOlder(vs: seq<Visit>, keep: Row -> bool, size: nat, i: nat, r: Row) returns (s: Row)
    requires size >= 1 && IsWalk(vs, keep, size) && 0 < i < |vs| && Covers(vs[i], r)
    ensures s in vs[0].log && Less(KeyOf(r), KeyOf(s))
  {
    CursorsFall(vs, keep, size, 0, i, r);
    var first := vs[0];
    VisitContents(first, keep, size, r);
    s := first.items[|first.items| - 1];
    VisitContents(first, keep, size, s);
  }
}
