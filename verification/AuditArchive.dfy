/**
 Retention of the audit log: expired rows are exported batch by batch into files and deleted afterwards.
 Recording, fetching, publishing a file and deleting are separate steps, and a job may stop between any two.
 */
module AuditArchive {
  import opened Prelude
  import opened AuditPages

  /** The name of an export; the cutoff appears in it with second precision. */
  datatype FileName = FileName(first: nat, last: nat, second: int)
  type Files = map<FileName, seq<Row>>
  type Pid = nat

  const MICROS := 1_000_000

  function Expired(table: Log, cutoff: int): Log {
    set r | r in table && r.at < cutoff
  }

  ghost predicate Ascending(rows: seq<Row>) {
    forall i, j :: 0 <= i < j < |rows| ==> rows[i].id < rows[j].id
  }

  /** archive_batch: the expired rows with the smallest ids, in id order, at most `limit` of them. */
  ghost predicate IsBatch(table: Log, cutoff: int, limit: nat, rows: seq<Row>) {
    && Ascending(rows) && |rows| <= limit
    && (forall r :: r in rows ==> r in Expired(table, cutoff))
    && (forall r, x :: r in rows && x in Expired(table, cutoff) && x !in rows ==> r.id < x.id)
    && (|rows| < limit ==> forall x :: x in Expired(table, cutoff) ==> x in rows)
  }

  function NameOf(rows: seq<Row>, cutoff: int): FileName
    requires rows != []
  {
    FileName(rows[0].id, rows[|rows| - 1].id, cutoff / MICROS)
  }

  function RowSet(rows: seq<Row>): Log {
    set r | r in rows
  }

  function IdsOf(rows: seq<Row>): set<nat> {
    set r | r in rows :: r.id
  }

  function Matching(table: Log, ids: set<nat>, cutoff: int): Log {
    set r | r in table && r.id in ids && r.at < cutoff
  }

  /** delete_archived: all rows of the batch, or none when their number is not as expected. */
  function AfterDelete(table: Log, rows: seq<Row>, cutoff: int): Option<Log> {
    var gone := Matching(table, IdsOf(rows), cutoff);
    if |gone| == |rows| then Some(table - gone) else None
  }

  // ---------------------------------------------------------------- steps of any number of jobs

  datatype Phase =
    | Fetched(rows: seq<Row>, cutoff: int)
    | Published(rows: seq<Row>, cutoff: int)

  /** `ever` holds every row recorded so far, whether still in the table or not. */
  datatype State = State(table: Log, ever: Log, files: Files, jobs: map<Pid, Phase>)

  datatype Event =
    | Record(row: Row)
    | Fetch(pid: Pid, cutoff: int, limit: nat, rows: seq<Row>)
    | Publish(pid: Pid)
    | Delete(pid: Pid)
    | Stop(pid: Pid)

  /** None when the event cannot happen; a job that fetches nothing ends, so its fetch is no event. */
  ghost function Next(s: State, e: Event): Option<State> {
    match e
    case Record(row) =>
      if exists r :: r in s.ever && r.id == row.id then None
      else Some(s.(table := s.table + {row}, ever := s.ever + {row}))
    case Fetch(pid, cutoff, limit, rows) =>
      if pid in s.jobs || rows == [] || !IsBatch(s.table, cutoff, limit, rows) then None
      else Some(s.(jobs := s.jobs[pid := Fetched(rows, cutoff)]))
    case Publish(pid) =>
      if pid !in s.jobs || !s.jobs[pid].Fetched? || s.jobs[pid].rows == [] then None
      else
        var job := s.jobs[pid];
        Some(s.(files := s.files[NameOf(job.rows, job.cutoff) := job.rows],
            jobs := s.jobs[pid := Published(job.rows, job.cutoff)]))
    case Delete(pid) =>
      if pid !in s.jobs || !s.jobs[pid].Published? then None
      else
        var table' := AfterDelete(s.table, s.jobs[pid].rows, s.jobs[pid].cutoff);
        Some(s.(table := if table'.Some? then table'.value else s.table, jobs := s.jobs - {pid}))
    case Stop(pid) =>
      Some(s.(jobs := s.jobs - {pid}))
  }

  /** No job starts a batch while another has one in hand. */
  ghost predicate Exclusive(s: State, e: Event) {
    e.Fetch? ==> s.jobs == map[]
  }

  ghost predicate Archived(files: Files, r: Row) {
    exists f :: f in files && r in files[f]
  }

  ghost predicate NothingLost(s: State) {
    forall r :: r in s.ever ==> r in s.table || Archived(s.files, r)
  }

  /** A file whose first row has left the table; no later batch can have its name. */
  ghost predicate Sealed(s: State, f: FileName) {
    f in s.files && forall x :: x in s.table ==> x.id != f.first
  }

  ghost predicate FileHonest(s: State, f: FileName) {
    f in s.files && s.files[f] != [] && s.files[f][0].id == f.first && forall r :: r in s.files[f] ==> r in s.ever
  }

  ghost predicate JobInHand(s: State, job: Phase) {
    && job.rows != [] && Ascending(job.rows) && (forall r :: r in job.rows ==> r in s.table && r.at < job.cutoff)
    && (job.Published? ==> NameOf(job.rows, job.cutoff) in s.files && s.files[NameOf(job.rows, job.cutoff)] == job.rows)
  }

  ghost predicate Inv(s: State) {
    && Valid(s.ever) && s.table <= s.ever
    && (forall f :: f in s.files ==> FileHonest(s, f))
    && (forall r :: r in s.ever && r !in s.table ==> exists f :: Sealed(s, f) && r in s.files[f])
    && (forall p, q :: p in s.jobs && q in s.jobs ==> p == q)
    && (forall p :: p in s.jobs ==> JobInHand(s, s.jobs[p]))
  }

  lemma RecordKeepsInv(s: State, row: Row)
    requires Inv(s) && Next(s, Record(row)).Some?
    ensures Inv(Next(s, Record(row)).value)
  {
    var s' := Next(s, Record(row)).value;
    forall f | f in s.files ensures FileHonest(s', f) && (Sealed(s, f) ==> Sealed(s', f)) {
      assert FileHonest(s, f);
      assert s.files[f][0] in s.ever;
    }
    forall r | r in s'.ever && r !in s'.table ensures exists f :: Sealed(s', f) && r in s'.files[f] {
      var f :| Sealed(s, f) && r in s.files[f];
      assert Sealed(s', f);
    }
  }

  lemma PublishKeepsInv(s: State, pid: Pid)
    requires Inv(s) && Next(s, Publish(pid)).Some?
    ensures Inv(Next(s, Publish(pid)).value)
  {
    var s' := Next(s, Publish(pid)).value;
    var job := s.jobs[pid];
    var name := NameOf(job.rows, job.cutoff);
    assert JobInHand(s, job) && job.rows[0] in s.table;
    forall r | r in s'.ever && r !in s'.table ensures exists f :: Sealed(s', f) && r in s'.files[f] {
      var f :| Sealed(s, f) && r in s.files[f];
      assert f != name;
      assert Sealed(s', f);
    }
    forall f | f in s'.files ensures FileHonest(s', f) {
      assert f != name ==> FileHonest(s, f);
    }
  }

  ghost predicate InTable(table: Log, cutoff: int, rows: seq<Row>) {
    Ascending(rows) && forall r :: r in rows ==> r in table && r.at < cutoff
  }

  /** With its rows in the table, a batch is deleted whole. */
  lemma BatchMatches(table: Log, rows: seq<Row>, cutoff: int)
    requires Valid(table) && InTable(table, cutoff, rows)
    ensures AfterDelete(table, rows, cutoff) == Some(table - RowSet(rows))
  {
    var gone := Matching(table, IdsOf(rows), cutoff);
    var all := RowSet(rows);
    assert gone == all;
    AscendingSize(rows);
  }

  lemma {:induction false} AscendingSize(rows: seq<Row>)
    requires Ascending(rows)
    ensures |RowSet(rows)| == |rows|
  {
    if rows == [] {
      assert RowSet(rows) == {};
    } else {
      var front, last := rows[..|rows| - 1], rows[|rows| - 1];
      AscendingSize(front);
      assert rows == front + [last];
      assert RowSet(rows) == RowSet(front) + {last};
    }
  }

  lemma DeleteKeepsInv(s: State, pid: Pid)
    requires Inv(s) && Next(s, Delete(pid)).Some?
    ensures Inv(Next(s, Delete(pid)).value)
    ensures Next(s, Delete(pid)).value.table == s.table - RowSet(s.jobs[pid].rows)
  {
    var s' := Next(s, Delete(pid)).value;
    var job := s.jobs[pid];
    assert JobInHand(s, job);
    BatchMatches(s.table, job.rows, job.cutoff);
    var name := NameOf(job.rows, job.cutoff);
    assert Sealed(s', name);
    forall r | r in s'.ever && r !in s'.table ensures exists f :: Sealed(s', f) && r in s'.files[f] {
      if r !in s.table {
        var f :| Sealed(s, f) && r in s.files[f];
        assert Sealed(s', f);
      }
    }
    forall f | f in s'.files ensures FileHonest(s', f) {
      assert FileHonest(s, f);
    }
  }

  lemma StepKeepsInv(s: State, e: Event)
    requires Inv(s) && Exclusive(s, e) && Next(s, e).Some?
    ensures Inv(Next(s, e).value)
  {
    match e
    case Record(row) => RecordKeepsInv(s, row);
    case Publish(pid) => PublishKeepsInv(s, pid);
    case Delete(pid) => DeleteKeepsInv(s, pid);
    case Fetch(_, _, _, _) => QuietStepKeepsInv(s, e);
    case Stop(_) => QuietStepKeepsInv(s, e);
  }

  /** Fetching and stopping leave the table and the files alone. */
  lemma QuietStepKeepsInv(s: State, e: Event)
    requires Inv(s) && Exclusive(s, e) && Next(s, e).Some? && (e.Fetch? || e.Stop?)
    ensures Inv(Next(s, e).value)
  {}

  ghost function Run(s: State, es: seq<Event>): Option<State>
    decreases |es|
  {
    if es == [] then Some(s)
    else
      var s' := Next(s, es[0]);
      if s'.None? then None else Run(s'.value, es[1..])
  }

  ghost predicate OneAtATime(s: State, es: seq<Event>)
    requires Run(s, es).Some?
    decreases |es|
  {
    es == [] || (Exclusive(s, es[0]) && OneAtATime(Next(s, es[0]).value, es[1..]))
  }

  /**
   Wherever jobs stop and restart, with any cutoffs, batch sizes and rows recorded meanwhile, and although a
   restarted job may overwrite an earlier file: every row ever recorded is in the table or in a published file.
   */
  lemma {:induction false} RunLosesNothing(s: State, es: seq<Event>)
    requires Inv(s) && Run(s, es).Some? && OneAtATime(s, es)
    ensures Inv(Run(s, es).value) && NothingLost(Run(s, es).value)
    ensures s.ever <= Run(s, es).value.ever
    decreases |es|
  {
    if es == [] {
      forall r | r in s.ever && r !in s.table ensures Archived(s.files, r) {
        var f :| Sealed(s, f) && r in s.files[f];
      }
    } else {
      StepKeepsInv(s, es[0]);
      RunLosesNothing(Next(s, es[0]).value, es[1..]);
    }
  }

  // ---------------------------------------------------------------- the loop of one job

  function Flat(batches: seq<seq<Row>>): seq<Row> {
    if batches == [] then [] else Flat(batches[..|batches| - 1]) + batches[|batches| - 1]
  }

  function Exported(files: Files, batches: seq<seq<Row>>, cutoff: int): Files
    requires forall i :: 0 <= i < |batches| ==> batches[i] != []
  {
    if batches == [] then files
    else
      var last := batches[|batches| - 1];
      Exported(files, batches[..|batches| - 1], cutoff)[NameOf(last, cutoff) := last]
  }

  /** The batches so far, and what they leave. */
  ghost predicate Progress(table: Log, cutoff: int, limit: nat, batches: seq<seq<Row>>, left: Log) {
    && (forall i :: 0 <= i < |batches| ==> 0 < |batches[i]| <= limit)
    && Ascending(Flat(batches))
    && left == table - RowSet(Flat(batches))
    && (forall r :: r in Flat(batches) ==> r in Expired(table, cutoff))
    && (forall r, x :: r in Flat(batches) && x in Expired(left, cutoff) ==> r.id < x.id)
  }

  lemma ProgressMoves(table: Log, cutoff: int, limit: nat, batches: seq<seq<Row>>, left: Log, rows: seq<Row>)
    requires Progress(table, cutoff, limit, batches, left) && IsBatch(left, cutoff, limit, rows) && rows != []
    ensures Progress(table, cutoff, limit, batches + [rows], left - RowSet(rows))
  {
    var batches' := batches + [rows];
    assert batches'[..|batches|] == batches;
    assert Flat(batches') == Flat(batches) + rows;
    var left' := left - RowSet(rows);
    assert left' == table - RowSet(Flat(batches'));
    forall r, x | r in Flat(batches') && x in Expired(left', cutoff) ensures r.id < x.id {
      assert x in Expired(left, cutoff) && x !in rows;
    }
  }

  lemma LimitedBatch(table: Log, cutoff: int, limit: nat, rows: seq<Row>, rest: Log)
    requires Ascending(rows) && |rows| <= limit && rest == Expired(table, cutoff) - RowSet(rows)
    requires (forall r :: r in rows ==> r in Expired(table, cutoff)) && (|rows| < limit ==> rest == {})
    requires forall r, x :: r in rows && x in rest ==> r.id < x.id
    ensures IsBatch(table, cutoff, limit, rows)
  {
    forall r, x | r in rows && x in Expired(table, cutoff) && x !in rows ensures r.id < x.id {
      assert x in rest;
    }
    forall x | |rows| < limit && x in Expired(table, cutoff) ensures x in rows {
      assert x !in rest;
    }
  }

  lemma {:induction false} OldestExists(s: Log) returns (m: Row)
    requires Valid(s) && s != {}
    ensures m in s && forall r :: r in s && r != m ==> m.id < r.id
  {
    m :| m in s;
    if s != {m} {
      var n := OldestExists(s - {m});
      if n.id < m.id { m := n; }
    }
  }

  method ArchiveBatch(table: Log, cutoff: int, limit: nat) returns (rows: seq<Row>)
    requires Valid(table)
    ensures IsBatch(table, cutoff, limit, rows)
  {
    rows := [];
    var rest := Expired(table, cutoff);
    while |rows| < limit && rest != {}
      invariant Ascending(rows) && |rows| <= limit && rest == Expired(table, cutoff) - RowSet(rows)
      invariant forall r :: r in rows ==> r in Expired(table, cutoff)
      invariant forall r, x :: r in rows && x in rest ==> r.id < x.id
      decreases limit - |rows|
    {
      ghost var oldest := OldestExists(rest);
      var m :| m in rest && forall r :: r in rest && r != m ==> m.id < r.id;
      rows := rows + [m];
      rest := rest - {m};
    }
    LimitedBatch(table, cutoff, limit, rows, rest);
  }

  class Archiver {
    var table: Log
    var files: Files

    constructor (log: Log)
      requires Valid(log)
      ensures table == log && files == map[]
    {
      table, files := log, map[];
    }

    /** write_archive: one publish under the batch's name, which may replace an earlier file of that name only. */
    method WriteArchive(rows: seq<Row>, cutoff: int)
      requires rows != []
      modifies this`files
      ensures files == old(files)[NameOf(rows, cutoff) := rows]
    {
      files := files[NameOf(rows, cutoff) := rows];
    }

    method DeleteArchived(rows: seq<Row>, cutoff: int) returns (deleted: Option<nat>)
      modifies this`table
      ensures deleted.Some? <==> AfterDelete(old(table), rows, cutoff).Some?
      ensures deleted.Some? ==> Some(table) == AfterDelete(old(table), rows, cutoff) && deleted.value == |rows|
      ensures deleted.None? ==> table == old(table)
      ensures deleted.Some? ==>
        forall r :: r in table <==> r in old(table) && !(r.at < cutoff && exists x :: x in rows && x.id == r.id)
    {
      if rows == [] {
        assert Matching(table, IdsOf(rows), cutoff) == {} && table - {} == table;
        return Some(0);
      }
      var before := table;
      var gone := Matching(table, IdsOf(rows), cutoff);
      table := table - gone;
      if |gone| != |rows| {
        table := before;
        return None;
      }
      return Some(|gone|);
    }

    /**
     One round: publish, then delete; with the batch still in the table the deletion cannot mismatch, and whatever
     leaves the table is in a published file.
     */
    method ArchiveOnce(rows: seq<Row>, cutoff: int) returns (deleted: nat)
      requires Valid(table) && rows != [] && InTable(table, cutoff, rows)
      modifies this
      ensures deleted == |rows| && files == old(files)[NameOf(rows, cutoff) := rows]
      ensures var name := FileName(rows[0].id, rows[|rows| - 1].id, cutoff / 1_000_000);
              name in files && files[name] == rows
      ensures Valid(table) && table == old(table) - RowSet(rows) && |table| < |old(table)|
      ensures forall r :: r in old(table) && r !in table ==> Archived(files, r)
    {
      BatchMatches(table, rows, cutoff);
      Smaller(table, rows);
      WriteArchive(rows, cutoff);
      PublishedRows(files, NameOf(rows, cutoff), rows);
      var outcome := DeleteArchived(rows, cutoff);
      return outcome.value;
    }

    /**
     The whole job, with nothing recorded meanwhile: it ends, its batches put together are exactly the expired
     rows in id order, the counter is their number, and only they have left the table.
     */
    method Archive(cutoff: int, batchSize: nat) returns (archived: nat, ghost batches: seq<seq<Row>>)
      requires Valid(table) && batchSize > 0
      modifies this
      ensures Ascending(Flat(batches)) && forall r :: r in Flat(batches) <==> r in Expired(old(table), cutoff)
      ensures archived == |Flat(batches)| == |Expired(old(table), cutoff)|
      ensures forall i :: 0 <= i < |batches| ==> 0 < |batches[i]| <= batchSize
      ensures files == Exported(old(files), batches, cutoff)
      ensures table == old(table) - Expired(old(table), cutoff)
      ensures forall r :: r in table <==> r in old(table) && r.at >= cutoff
      ensures forall r :: r in old(table) && r.at < cutoff ==> r in Flat(batches) && Archived(files, r)
    {
      archived, batches := 0, [];
      var rows := ArchiveBatch(table, cutoff, batchSize);
      while rows != []
        invariant Valid(table) && IsBatch(table, cutoff, batchSize, rows)
        invariant Standing(old(table), old(files), cutoff, batchSize, batches, archived, table, files)
        decreases |table|
      {
        StandingMoves(old(table), old(files), cutoff, batchSize, batches, archived, table, files, rows);
        var deleted := ArchiveOnce(rows, cutoff);
        batches := batches + [rows];
        archived := archived + deleted;
        rows := ArchiveBatch(table, cutoff, batchSize);
      }
      Finished(old(table), cutoff, batchSize, batches, table);
      forall r | r in Flat(batches) ensures Archived(files, r) {
        ExportedHolds(old(files), batches, cutoff, r);
      }
    }
  }

  lemma {:induction false} BatchInFlat(batches: seq<seq<Row>>, i: nat, r: Row)
    requires i < |batches| && r in batches[i]
    ensures r in Flat(batches)
    decreases |batches|
  {
    if i < |batches| - 1 { BatchInFlat(batches[..|batches| - 1], i, r); }
  }

  lemma AscendingParts(a: seq<Row>, b: seq<Row>)
    requires Ascending(a + b)
    ensures Ascending(a) && forall x, y :: x in a && y in b ==> x.id < y.id
  {
    forall i, j | 0 <= i < j < |a| ensures a[i].id < a[j].id {
      assert (a + b)[i] == a[i] && (a + b)[j] == a[j];
    }
    forall x, y | x in a && y in b ensures x.id < y.id {
      var i :| 0 <= i < |a| && a[i] == x;
      var j :| 0 <= j < |b| && b[j] == y;
      assert (a + b)[i] == x && (a + b)[|a| + j] == y;
    }
  }

  /** No batch of a job replaces the file of an earlier one: their first ids differ. */
  lemma {:induction false} ExportedBatch(files: Files, batches: seq<seq<Row>>, cutoff: int, i: nat)
    requires (forall k :: 0 <= k < |batches| ==> batches[k] != []) && i < |batches| && Ascending(Flat(batches))
    ensures var name := NameOf(batches[i], cutoff);
            name in Exported(files, batches, cutoff) && Exported(files, batches, cutoff)[name] == batches[i]
    decreases |batches|
  {
    var n := |batches| - 1;
    if i < n {
      AscendingParts(Flat(batches[..n]), batches[n]);
      ExportedBatch(files, batches[..n], cutoff, i);
      BatchInFlat(batches[..n], i, batches[i][0]);
      assert batches[i][0].id < batches[n][0].id;
    }
  }

  lemma {:induction false} InSomeBatch(batches: seq<seq<Row>>, r: Row) returns (i: nat)
    requires r in Flat(batches)
    ensures i < |batches| && r in batches[i]
    decreases |batches|
  {
    i := |batches| - 1;
    if r !in batches[i] { i := InSomeBatch(batches[..i], r); }
  }

  lemma ExportedHolds(files: Files, batches: seq<seq<Row>>, cutoff: int, r: Row)
    requires (forall k :: 0 <= k < |batches| ==> batches[k] != []) && Ascending(Flat(batches)) && r in Flat(batches)
    ensures Archived(Exported(files, batches, cutoff), r)
  {
    var i := InSomeBatch(batches, r);
    ExportedBatch(files, batches, cutoff, i);
  }

  /** What the job has counted, published and left after some batches. */
  ghost predicate Standing(table: Log, files: Files, cutoff: int, limit: nat, batches: seq<seq<Row>>, archived: nat,
      left: Log, files': Files) {
    Progress(table, cutoff, limit, batches, left) && archived == |Flat(batches)|
        && files' == Exported(files, batches, cutoff)
  }

  lemma StandingMoves(table: Log, files: Files, cutoff: int, limit: nat, batches: seq<seq<Row>>, archived: nat,
      left: Log, files': Files, rows: seq<Row>)
    requires Standing(table, files, cutoff, limit, batches, archived, left, files')
    requires IsBatch(left, cutoff, limit, rows) && rows != []
    ensures Standing(table, files, cutoff, limit, batches + [rows], archived + |rows|, left - RowSet(rows),
        files'[NameOf(rows, cutoff) := rows])
  {
    ProgressMoves(table, cutoff, limit, batches, left, rows);
    assert (batches + [rows])[..|batches|] == batches;
  }

  lemma PublishedRows(files: Files, name: FileName, rows: seq<Row>)
    requires name in files && files[name] == rows
    ensures forall r :: r in rows ==> Archived(files, r)
  {}

  lemma Smaller(table: Log, rows: seq<Row>)
    requires rows != [] && forall r :: r in rows ==> r in table
    ensures |table - RowSet(rows)| < |table|
  {
    var gone := RowSet(rows);
    assert rows[0] in gone;
    assert table == (table - gone) + gone;
  }

  lemma Finished(table: Log, cutoff: int, limit: nat, batches: seq<seq<Row>>, left: Log)
    requires limit > 0 && Progress(table, cutoff, limit, batches, left) && IsBatch(left, cutoff, limit, [])
    ensures forall r :: r in Flat(batches) <==> r in Expired(table, cutoff)
    ensures left == table - Expired(table, cutoff) && |Flat(batches)| == |Expired(table, cutoff)|
  {
    forall r | r in Expired(table, cutoff) ensures r in Flat(batches) {
      assert r !in Flat(batches) ==> r in Expired(left, cutoff);
    }
    AscendingSize(Flat(batches));
    assert RowSet(Flat(batches)) == Expired(table, cutoff);
  }

  // ---------------------------------------------------------------- overlapping jobs

  /** The first and last id of at most two rows are all of their ids. */
  ghost predicate Pinned(ever: Log, first: nat, last: nat, rows: seq<Row>) {
    && 1 <= |rows| <= 2 && Ascending(rows) && (forall r :: r in rows ==> r in ever)
    && rows[0].id == first && rows[|rows| - 1].id == last
  }

  lemma PinnedUnique(ever: Log, first: nat, last: nat, a: seq<Row>, b: seq<Row>)
    requires Valid(ever) && Pinned(ever, first, last, a) && Pinned(ever, first, last, b)
    ensures a == b
  {
    assert a[0] in ever && b[0] in ever && a[|a| - 1] in ever && b[|b| - 1] in ever;
    assert a[0] == b[0] && a[|a| - 1] == b[|b| - 1];
  }

  ghost predicate PinnedJob(s: State, job: Phase) {
    && job.rows != [] && Pinned(s.ever, job.rows[0].id, job.rows[|job.rows| - 1].id, job.rows)
    && (job.Published? ==> NameOf(job.rows, job.cutoff) in s.files && s.files[NameOf(job.rows, job.cutoff)] == job.rows)
  }

  /** Every file and every batch in hand has at most two rows, and nothing is lost, however jobs overlap. */
  ghost predicate PinnedInv(s: State) {
    && Valid(s.ever) && s.table <= s.ever && NothingLost(s)
    && (forall f :: f in s.files ==> Pinned(s.ever, f.first, f.last, s.files[f]))
    && (forall p :: p in s.jobs ==> PinnedJob(s, s.jobs[p]))
  }

  /** A file published again under its name has the rows it had. */
  lemma PublishAgrees(s: State, pid: Pid)
    requires PinnedInv(s) && Next(s, Publish(pid)).Some?
    ensures var s' := Next(s, Publish(pid)).value;
            forall f :: f in s.files ==> f in s'.files && s'.files[f] == s.files[f]
  {
    var job := s.jobs[pid];
    var name := NameOf(job.rows, job.cutoff);
    assert PinnedJob(s, job);
    if name in s.files {
      PinnedUnique(s.ever, name.first, name.last, s.files[name], job.rows);
    }
  }

  lemma PinnedPublish(s: State, pid: Pid)
    requires PinnedInv(s) && Next(s, Publish(pid)).Some?
    ensures PinnedInv(Next(s, Publish(pid)).value)
  {
    var s', job := Next(s, Publish(pid)).value, s.jobs[pid];
    PublishAgrees(s, pid);
    assert PinnedJob(s, job);
    forall p | p in s'.jobs ensures PinnedJob(s', s'.jobs[p]) {
      assert p != pid ==> PinnedJob(s, s.jobs[p]);
    }
    forall r | r in s'.ever && r !in s'.table ensures Archived(s'.files, r) {
      var f :| f in s.files && r in s.files[f];
      assert f in s'.files;
    }
  }

  lemma PinnedDelete(s: State, pid: Pid)
    requires PinnedInv(s) && Next(s, Delete(pid)).Some?
    ensures PinnedInv(Next(s, Delete(pid)).value)
  {
    var s', job := Next(s, Delete(pid)).value, s.jobs[pid];
    var name := NameOf(job.rows, job.cutoff);
    assert PinnedJob(s, job);
    forall r | r in s'.ever && r !in s'.table ensures Archived(s'.files, r) {
      if r in s.table {
        var x :| x in job.rows && x.id == r.id;
        assert r == x && name in s'.files;
      }
    }
    forall p | p in s'.jobs ensures PinnedJob(s', s'.jobs[p]) {
      assert PinnedJob(s, s.jobs[p]);
    }
  }

  lemma PinnedRecord(s: State, row: Row)
    requires PinnedInv(s) && Next(s, Record(row)).Some?
    ensures PinnedInv(Next(s, Record(row)).value)
  {
    var s' := Next(s, Record(row)).value;
    forall p | p in s'.jobs ensures PinnedJob(s', s'.jobs[p]) {
      assert PinnedJob(s, s.jobs[p]);
    }
    forall f | f in s'.files ensures Pinned(s'.ever, f.first, f.last, s'.files[f]) {
      assert Pinned(s.ever, f.first, f.last, s.files[f]);
    }
  }

  lemma PinnedStep(s: State, e: Event)
    requires PinnedInv(s) && Next(s, e).Some? && (e.Fetch? ==> e.limit <= 2)
    ensures PinnedInv(Next(s, e).value)
  {
    match e
    case Record(row) => PinnedRecord(s, row);
    case Publish(pid) => PinnedPublish(s, pid);
    case Delete(pid) => PinnedDelete(s, pid);
    case _ =>
      var s' := Next(s, e).value;
      forall p | p in s'.jobs ensures PinnedJob(s', s'.jobs[p]) {
        assert p in s.jobs ==> PinnedJob(s, s.jobs[p]);
      }
  }

  /** With batches of at most two rows nothing is lost, however many jobs overlap and wherever they stop. */
  lemma {:induction false} SmallBatchesLoseNothing(s: State, es: seq<Event>)
    requires PinnedInv(s) && Run(s, es).Some? && forall e :: e in es && e.Fetch? ==> e.limit <= 2
    ensures PinnedInv(Run(s, es).value)
    decreases |es|
  {
    if es != [] {
      PinnedStep(s, es[0]);
      SmallBatchesLoseNothing(Next(s, es[0]).value, es[1..]);
    }
  }

  const EMPTY := State({}, {}, map[], map[])

  /** Jobs with batch size n, started and stopped at will, from the empty log on. */
  ghost predicate OverlapIsSafe(n: nat) {
    forall es: seq<Event> ::
      (forall e :: e in es && e.Fetch? ==> e.limit == n) && Run(EMPTY, es).Some? ==> NothingLost(Run(EMPTY, es).value)
  }

  /**
   Two jobs of the same second, the earlier of which does not see the middle row as expired. Concurrent
   transactions draw ids in one order and take created_at in another, so ids need not follow created_at.
   */
  ghost predicate SameSecond(a: Row, mid: Row, b: Row, early: int, late: int) {
    && a.id < mid.id < b.id && a.at < early && b.at < early
    && early <= mid.at < late && early / MICROS == late / MICROS
  }

  function OverlapStates(a: Row, mid: Row, b: Row, early: int, late: int): seq<State> {
    var log, name := {a, mid, b}, NameOf([a, b], early);
    var second, first := Fetched([a, b], early), Fetched([a, mid, b], late);
    [EMPTY,
     State({a}, {a}, map[], map[]),
     State({a, mid}, {a, mid}, map[], map[]),
     State(log, log, map[], map[]),
     State(log, log, map[], map[2 := second]),
     State(log, log, map[], map[2 := second, 1 := first]),
     State(log, log, map[name := [a, mid, b]], map[2 := second, 1 := Published([a, mid, b], late)]),
     State({}, log, map[name := [a, mid, b]], map[2 := second]),
     State({}, log, map[name := [a, b]], map[2 := Published([a, b], early)])]
  }

  lemma AllRecorded(a: Row, mid: Row, b: Row, early: int, late: int)
    requires SameSecond(a, mid, b, early, late)
    ensures var ss := OverlapStates(a, mid, b, early, late);
            && Next(ss[0], Record(a)) == Some(ss[1]) && Next(ss[1], Record(mid)) == Some(ss[2])
            && Next(ss[2], Record(b)) == Some(ss[3])
  {
    var ss := OverlapStates(a, mid, b, early, late);
    assert ss[0].table + {a} == ss[1].table && ss[1].table + {mid} == ss[2].table && ss[2].table + {b} == ss[3].table;
  }

  lemma ShortBatch(a: Row, mid: Row, b: Row, early: int, late: int, n: nat)
    requires SameSecond(a, mid, b, early, late) && n >= 3
    ensures IsBatch({a, mid, b}, early, n, [a, b])
  {
    assert Expired({a, mid, b}, early) == {a, b};
  }

  lemma WholeBatch(a: Row, mid: Row, b: Row, early: int, late: int, n: nat)
    requires SameSecond(a, mid, b, early, late) && n >= 3
    ensures IsBatch({a, mid, b}, late, n, [a, mid, b])
  {
    assert Expired({a, mid, b}, late) == {a, mid, b};
  }

  lemma BothFetch(a: Row, mid: Row, b: Row, early: int, late: int, n: nat)
    requires SameSecond(a, mid, b, early, late) && n >= 3
    ensures var ss := OverlapStates(a, mid, b, early, late);
            && Next(ss[3], Fetch(2, early, n, [a, b])) == Some(ss[4])
            && Next(ss[4], Fetch(1, late, n, [a, mid, b])) == Some(ss[5])
  {
    var ss := OverlapStates(a, mid, b, early, late);
    ShortBatch(a, mid, b, early, late, n);
    WholeBatch(a, mid, b, early, late, n);
    assert ss[3].jobs[2 := Fetched([a, b], early)] == ss[4].jobs;
    assert ss[4].jobs[1 := Fetched([a, mid, b], late)] == ss[5].jobs;
  }

  lemma FirstFinishes(a: Row, mid: Row, b: Row, early: int, late: int)
    requires SameSecond(a, mid, b, early, late)
    ensures var ss := OverlapStates(a, mid, b, early, late);
            Next(ss[5], Publish(1)) == Some(ss[6]) && Next(ss[6], Delete(1)) == Some(ss[7])
  {
    var ss := OverlapStates(a, mid, b, early, late);
    assert ss[5].files[NameOf([a, mid, b], late) := [a, mid, b]] == ss[6].files;
    assert ss[5].jobs[1 := Published([a, mid, b], late)] == ss[6].jobs;
    BatchMatches(ss[6].table, [a, mid, b], late);
    assert ss[6].table - RowSet([a, mid, b]) == {};
    assert ss[6].jobs - {1} == ss[7].jobs;
  }

  lemma SecondReplaces(a: Row, mid: Row, b: Row, early: int, late: int)
    requires SameSecond(a, mid, b, early, late)
    ensures var ss := OverlapStates(a, mid, b, early, late);
            Next(ss[7], Publish(2)) == Some(ss[8]) && !NothingLost(ss[8])
  {
    var ss := OverlapStates(a, mid, b, early, late);
    assert ss[7].files[NameOf([a, b], early) := [a, b]] == ss[8].files;
    assert ss[7].jobs[2 := Published([a, b], early)] == ss[8].jobs;
    assert mid in ss[8].ever && mid !in ss[8].table && mid !in [a, b];
  }

  /**
   Two jobs at once with batches of three rows or more lose a row: the second has the same first and last id and
   the same cutoff second, and publishes its shorter batch after the first has deleted.
   */
  lemma OverlapLosesRow(a: Row, mid: Row, b: Row, early: int, late: int, n: nat) returns (es: seq<Event>)
    requires SameSecond(a, mid, b, early, late) && n >= 3
    ensures (forall e :: e in es && e.Fetch? ==> e.limit == n)
    ensures Run(EMPTY, es).Some? && !NothingLost(Run(EMPTY, es).value)
  {
    es := [Record(a), Record(mid), Record(b), Fetch(2, early, n, [a, b]), Fetch(1, late, n, [a, mid, b]),
           Publish(1), Delete(1), Publish(2)];
    AllRecorded(a, mid, b, early, late);
    BothFetch(a, mid, b, early, late, n);
    FirstFinishes(a, mid, b, early, late);
    SecondReplaces(a, mid, b, early, late);
    Chain(EMPTY, es, OverlapStates(a, mid, b, early, late));
  }

  /** Overlapping jobs with batch size n lose no row in any run if and only if n is at most two. */
  lemma OverlapIsSafeIff(n: nat)
    ensures OverlapIsSafe(n) <==> n <= 2
  {
    if n <= 2 {
      forall es: seq<Event> | (forall e :: e in es && e.Fetch? ==> e.limit == n) && Run(EMPTY, es).Some?
        ensures NothingLost(Run(EMPTY, es).value)
      {
        SmallBatchesLoseNothing(EMPTY, es);
      }
    } else {
      var es := OverlapLosesRow(Row(1, 0, ""), Row(2, 1, ""), Row(3, 0, ""), 1, 2, n);
    }
  }

  lemma {:induction false} Chain(s: State, es: seq<Event>, states: seq<State>)
    requires |states| == |es| + 1 && states[0] == s
    requires forall i :: 0 <= i < |es| ==> Next(states[i], es[i]) == Some(states[i + 1])
    ensures Run(s, es) == Some(states[|es|])
    decreases |es|
  {
    if es != [] { Chain(states[1], es[1..], states[1..]); }
  }
}
