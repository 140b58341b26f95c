/**
 * Dual-write stores: SQLite is written first and Postgres shadows it, under arbitrary losses of the
 * shadow writes and arbitrary interleaving of calls.
 *
 * One machine serves both stores of the program: corrections (integer ids, a status that is marked
 * processed, reads of pending rows) and cursor sessions (string ids, reads of recent rows). A row is
 * its id, its fields, the time it was written, and whether it is processed.
 */
module DualWrite {
  import opened Sequences

  datatype Row<K, F> = Row(id: K, fields: F, created: int, processed: bool)

  /** A shadow write that has been started and not yet awaited to its end. */
  datatype Job<K, F> = ShadowInsert(id: K, fields: F) | ShadowMark(id: K)

  datatype Stores<K, F> = Stores(sqlite: seq<Row<K, F>>, shadow: seq<Row<K, F>>, jobs: seq<Job<K, F>>)

  /** `Shadow` ends the `job`-th shadow write; `applied` says whether Postgres took it. */
  datatype Step<K, F> =
    | Insert(id: K, fields: F, now: int)
    | Mark(id: K)
    | Shadow(job: nat, now: int, applied: bool)

  predicate HasRow<K(==), F>(rows: seq<Row<K, F>>, id: K) {
    exists i :: 0 <= i < |rows| && rows[i].id == id
  }

  /** `UPDATE ... SET status = 'processed' WHERE id = ?` */
  function MarkRow<K(==), F>(rows: seq<Row<K, F>>, id: K): (r: seq<Row<K, F>>)
    ensures |r| == |rows|
    ensures forall i :: 0 <= i < |rows| ==> r[i] == if rows[i].id == id then rows[i].(processed := true) else rows[i]
  {
    seq(|rows|, i requires 0 <= i < |rows| => if rows[i].id == id then rows[i].(processed := true) else rows[i])
  }

  function DropJob<K, F>(jobs: seq<Job<K, F>>, k: nat): seq<Job<K, F>>
    requires k < |jobs|
  {
    jobs[..k] + jobs[k + 1..]
  }

  /** One atomic step; an insert under a key that SQLite already has raises before any shadow write. */
  function Next<K(==), F>(s: Stores<K, F>, step: Step<K, F>): Option<Stores<K, F>> {
    match step
    case Insert(id, fields, now) =>
      if HasRow(s.sqlite, id) then None
      else Some(s.(sqlite := s.sqlite + [Row(id, fields, now, false)], jobs := s.jobs + [ShadowInsert(id, fields)]))
    case Mark(id) =>
      Some(s.(sqlite := MarkRow(s.sqlite, id), jobs := s.jobs + [ShadowMark(id)]))
    case Shadow(k, now, applied) =>
      if k >= |s.jobs| then None
      else
        var job := s.jobs[k];
        var shadow :=
          if !applied then s.shadow
          else if job.ShadowInsert? then s.shadow + [Row(job.id, job.fields, now, false)]
          else MarkRow(s.shadow, job.id);
        Some(s.(shadow := shadow, jobs := DropJob(s.jobs, k)))
  }

  function Run<K(==), F>(s: Stores<K, F>, steps: seq<Step<K, F>>): Option<Stores<K, F>>
    decreases |steps|
  {
    if steps == [] then Some(s)
    else
      var t := Next(s, steps[0]);
      if t.None? then None else Run(t.value, steps[1..])
  }

  // ---- The replica invariant -----------------------------------------------------------------

  predicate DistinctRows<K(==), F>(rows: seq<Row<K, F>>) {
    forall i, j :: 0 <= i < j < |rows| ==> rows[i].id != rows[j].id
  }

  /** A SQLite row carries this id and these fields, and is processed if `p` asks for it. */
  predicate Backed<K(==), F(==)>(rows: seq<Row<K, F>>, id: K, fields: F, p: bool) {
    exists i :: 0 <= i < |rows| && rows[i].id == id && rows[i].fields == fields && (p ==> rows[i].processed)
  }

  /** The row is there and processed. */
  predicate Done<K(==), F>(rows: seq<Row<K, F>>, id: K) {
    exists i :: 0 <= i < |rows| && rows[i].id == id && rows[i].processed
  }

  /**
   * Every shadow row stands for a SQLite row with the same id and fields, and is processed only if
   * that row is; ids occur once on each side and once among the shadow writes still to come.
   */
  ghost predicate Replica<K, F>(s: Stores<K, F>) {
    && DistinctRows(s.sqlite) && DistinctRows(s.shadow)
    && (forall i :: 0 <= i < |s.shadow| ==>
          Backed(s.sqlite, s.shadow[i].id, s.shadow[i].fields, s.shadow[i].processed))
    && (forall k :: 0 <= k < |s.jobs| ==> JobBacked(s, s.jobs[k]))
    && (forall k, l :: 0 <= k < l < |s.jobs| && s.jobs[k].ShadowInsert? && s.jobs[l].ShadowInsert? ==>
          s.jobs[k].id != s.jobs[l].id)
  }

  ghost predicate JobBacked<K, F>(s: Stores<K, F>, job: Job<K, F>) {
    match job
    case ShadowInsert(id, fields) => Backed(s.sqlite, id, fields, false) && !HasRow(s.shadow, id)
    case ShadowMark(id) => Done(s.sqlite, id)
  }

  /** A mark of a row that SQLite has. */
  predicate Marks<K(==), F>(s: Stores<K, F>, step: Step<K, F>) {
    step.Mark? ==> HasRow(s.sqlite, step.id)
  }

  lemma BackedGrows<K, F>(rows: seq<Row<K, F>>, row: Row<K, F>)
    ensures forall id, fields, p :: Backed(rows, id, fields, p) ==> Backed(rows + [row], id, fields, p)
    ensures forall id :: Done(rows, id) ==> Done(rows + [row], id)
  {
    var more := rows + [row];
    assert forall i :: 0 <= i < |rows| ==> more[i] == rows[i];
  }

  lemma BackedMarked<K, F>(rows: seq<Row<K, F>>, id: K)
    ensures forall k, fields, p :: Backed(rows, k, fields, p) ==> Backed(MarkRow(rows, id), k, fields, p)
    ensures forall k :: Done(rows, k) ==> Done(MarkRow(rows, id), k)
    ensures HasRow(rows, id) ==> Done(MarkRow(rows, id), id)
  {
    var m := MarkRow(rows, id);
    assert forall i :: 0 <= i < |rows| ==> m[i].id == rows[i].id && m[i].fields == rows[i].fields;
  }

  lemma InsertKeeps<K, F>(s: Stores<K, F>, id: K, fields: F, now: int)
    requires Replica(s) && !HasRow(s.sqlite, id)
    ensures Replica(Next(s, Insert(id, fields, now)).value)
  {
    var t := Next(s, Insert(id, fields, now)).value;
    BackedGrows(s.sqlite, Row(id, fields, now, false));
    assert t.sqlite[|s.sqlite|] == Row(id, fields, now, false);
    assert Backed(t.sqlite, id, fields, false);
    assert !HasRow(s.shadow, id);
    forall k | 0 <= k < |s.jobs| && s.jobs[k].ShadowInsert?
      ensures s.jobs[k].id != id
    {
      assert JobBacked(s, s.jobs[k]);
    }
    forall k | 0 <= k < |t.jobs|
      ensures JobBacked(t, t.jobs[k])
    {
      if k < |s.jobs| {
        assert JobBacked(s, s.jobs[k]);
      }
    }
  }

  lemma MarkKeeps<K, F>(s: Stores<K, F>, id: K)
    requires Replica(s) && HasRow(s.sqlite, id)
    ensures Replica(Next<K, F>(s, Mark(id)).value)
  {
    var t := Next<K, F>(s, Mark(id)).value;
    BackedMarked(s.sqlite, id);
    forall k | 0 <= k < |t.jobs|
      ensures JobBacked(t, t.jobs[k])
    {
      if k < |s.jobs| {
        assert JobBacked(s, s.jobs[k]);
      }
    }
  }

  /** After a shadow write has ended, the others stand as before. */
  lemma DropKeeps<K, F>(s: Stores<K, F>, k: nat, shadow: seq<Row<K, F>>)
    requires Replica(s) && k < |s.jobs|
    requires DistinctRows(shadow)
    requires forall i :: 0 <= i < |shadow| ==>
      Backed(s.sqlite, shadow[i].id, shadow[i].fields, shadow[i].processed)
    requires forall id :: HasRow(shadow, id) ==> HasRow(s.shadow, id) || (s.jobs[k].ShadowInsert? && id == s.jobs[k].id)
    ensures Replica(s.(shadow := shadow, jobs := DropJob(s.jobs, k)))
  {
    var t := s.(shadow := shadow, jobs := DropJob(s.jobs, k));
    forall l | 0 <= l < |t.jobs|
      ensures JobBacked(t, t.jobs[l])
    {
      var m := if l < k then l else l + 1;
      assert t.jobs[l] == s.jobs[m] && JobBacked(s, s.jobs[m]) && m != k;
      assert s.jobs[m].ShadowInsert? && s.jobs[k].ShadowInsert? ==> s.jobs[m].id != s.jobs[k].id by {
        if m < k {
          assert s.jobs[m].ShadowInsert? && s.jobs[k].ShadowInsert? ==> s.jobs[m].id != s.jobs[k].id;
        }
      }
    }
    forall a, b | 0 <= a < b < |t.jobs| && t.jobs[a].ShadowInsert? && t.jobs[b].ShadowInsert?
      ensures t.jobs[a].id != t.jobs[b].id
    {
      var a', b' := if a < k then a else a + 1, if b < k then b else b + 1;
      assert t.jobs[a] == s.jobs[a'] && t.jobs[b] == s.jobs[b'];
    }
  }

  lemma ShadowInsertKeeps<K, F>(s: Stores<K, F>, k: nat, now: int)
    requires Replica(s) && k < |s.jobs| && s.jobs[k].ShadowInsert?
    ensures Replica(Next(s, Shadow(k, now, true)).value)
  {
    var row := Row(s.jobs[k].id, s.jobs[k].fields, now, false);
    var shadow := s.shadow + [row];
    assert JobBacked(s, s.jobs[k]);
    forall id | HasRow(shadow, id)
      ensures HasRow(s.shadow, id) || id == row.id
    {
      var i :| 0 <= i < |shadow| && shadow[i].id == id;
      if i < |s.shadow| {
        assert s.shadow[i].id == id;
      }
    }
    DropKeeps(s, k, shadow);
  }

  lemma ShadowMarkKeeps<K, F>(s: Stores<K, F>, k: nat, now: int)
    requires Replica(s) && k < |s.jobs| && s.jobs[k].ShadowMark?
    ensures Replica(Next(s, Shadow(k, now, true)).value)
  {
    var shadow := MarkRow(s.shadow, s.jobs[k].id);
    assert JobBacked(s, s.jobs[k]);
    forall i | 0 <= i < |shadow|
      ensures Backed(s.sqlite, shadow[i].id, shadow[i].fields, shadow[i].processed)
    {
      assert Backed(s.sqlite, s.shadow[i].id, s.shadow[i].fields, s.shadow[i].processed);
      if shadow[i].id == s.jobs[k].id {
        DoneIsBacked(s.sqlite, shadow[i].id, shadow[i].fields);
      }
    }
    forall id | HasRow(shadow, id)
      ensures HasRow(s.shadow, id)
    {
      var i :| 0 <= i < |shadow| && shadow[i].id == id;
      assert s.shadow[i].id == id;
    }
    DropKeeps(s, k, shadow);
  }

  lemma DoneIsBacked<K, F>(rows: seq<Row<K, F>>, id: K, fields: F)
    requires DistinctRows(rows) && Done(rows, id) && Backed(rows, id, fields, false)
    ensures Backed(rows, id, fields, true)
  {
    var i :| 0 <= i < |rows| && rows[i].id == id && rows[i].processed;
    var j :| 0 <= j < |rows| && rows[j].id == id && rows[j].fields == fields;
    assert i == j;
  }

  lemma StepKeeps<K, F>(s: Stores<K, F>, step: Step<K, F>)
    requires Replica(s) && Next(s, step).Some? && Marks(s, step)
    ensures Replica(Next(s, step).value)
  {
    match step
    case Insert(id, fields, now) => InsertKeeps(s, id, fields, now);
    case Mark(id) => MarkKeeps(s, id);
    case Shadow(k, now, applied) =>
      if !applied {
        DropKeeps(s, k, s.shadow);
      } else if s.jobs[k].ShadowInsert? {
        ShadowInsertKeeps(s, k, now);
      } else {
        ShadowMarkKeeps(s, k, now);
      }
  }

  /** Each mark of a run names a row that SQLite has when the call is made. */
  predicate MarksKnownRows<K(==), F>(s: Stores<K, F>, steps: seq<Step<K, F>>)
    decreases |steps|
  {
    steps == [] || (Marks(s, steps[0]) &&
      (Next(s, steps[0]).Some? ==> MarksKnownRows(Next(s, steps[0]).value, steps[1..])))
  }

  /**
   * The shadow is a replica in every interleaving and under every loss of shadow writes: its ids are
   * among SQLite's with the same fields, and processed in Postgres means processed in SQLite.
   */
  lemma {:induction false} ShadowIsReplica<K, F>(s: Stores<K, F>, steps: seq<Step<K, F>>)
    requires Replica(s) && MarksKnownRows(s, steps) && Run(s, steps).Some?
    ensures Replica(Run(s, steps).value)
    decreases |steps|
  {
    if steps != [] {
      StepKeeps(s, steps[0]);
      ShadowIsReplica(Next(s, steps[0]).value, steps[1..]);
    }
  }

  /** Every shadow row stands for a SQLite row, and is processed only if that row is. */
  ghost predicate ShadowBacked<K, F>(s: Stores<K, F>) {
    forall i :: 0 <= i < |s.shadow| ==> Backed(s.sqlite, s.shadow[i].id, s.shadow[i].fields, s.shadow[i].processed)
  }

  lemma RunOne<K, F>(s: Stores<K, F>, step: Step<K, F>, rest: seq<Step<K, F>>)
    requires Next(s, step).Some?
    ensures Run(s, [step] + rest) == Run(Next(s, step).value, rest)
    ensures MarksKnownRows(s, [step] + rest) <==> Marks(s, step) && MarksKnownRows(Next(s, step).value, rest)
  {
    assert ([step] + rest)[1..] == rest;
  }

  /** The insert that overtakes a mark: both shadow writes are taken, the mark's last. */
  lemma OvertakenMark<K, F>(s: Stores<K, F>, id: K, fields: F) returns (steps: seq<Step<K, F>>)
    requires Replica(s) && !HasRow(s.sqlite, id)
    ensures var t := Next<K, F>(s, Mark(id)).value;
            MarksKnownRows(t, steps) && Run(t, steps).Some? && !ShadowBacked(Run(t, steps).value)
  {
    var n := |s.jobs|;
    var t := Next<K, F>(s, Mark(id)).value;
    var row, late := Row(id, fields, 0, false), Row(id, fields, 0, true);
    var insert: Step<K, F> := Insert(id, fields, 0);
    forall i | 0 <= i < |t.sqlite|
      ensures t.sqlite[i].id != id
    {
      assert t.sqlite[i].id == s.sqlite[i].id;
    }
    var t1 := Next(t, insert).value;
    assert t1.jobs[n] == ShadowMark(id) && t1.jobs[n + 1] == ShadowInsert(id, fields);
    var t2 := Next(t1, Shadow(n + 1, 0, true)).value;
    assert t2.jobs[n] == ShadowMark(id) && t2.shadow[|s.shadow|] == row;
    var t3 := Next(t2, Shadow(n, 0, true)).value;
    assert Run(t3, []) == Some(t3);
    RunOne(t2, Shadow(n, 0, true), []);
    RunOne(t1, Shadow(n + 1, 0, true), [Shadow(n, 0, true)] + []);
    steps := [insert] + ([Shadow(n + 1, 0, true)] + ([Shadow(n, 0, true)] + []));
    RunOne(t, insert, [Shadow(n + 1, 0, true)] + ([Shadow(n, 0, true)] + []));
    assert t3.shadow[|s.shadow|] == late;
    assert !Backed(t3.sqlite, id, fields, true);
  }

  /**
   * A mark is safe exactly when SQLite has the row as the call is made. Otherwise some continuation,
   * itself without such a mark, leaves Postgres with a processed row that SQLite still has pending.
   */
  lemma MarkIsSafeIff<K(!new), F(!new)>(s: Stores<K, F>, id: K, fields: F)
    requires Replica(s)
    ensures var t := Next<K, F>(s, Mark(id)).value;
            (forall steps :: MarksKnownRows(t, steps) && Run(t, steps).Some? ==> ShadowBacked(Run(t, steps).value))
            <==> HasRow(s.sqlite, id)
  {
    var t := Next<K, F>(s, Mark(id)).value;
    if HasRow(s.sqlite, id) {
      MarkKeeps(s, id);
      forall steps | MarksKnownRows(t, steps) && Run(t, steps).Some?
        ensures ShadowBacked(Run(t, steps).value)
      {
        ShadowIsReplica(t, steps);
      }
    } else {
      var steps := OvertakenMark(s, id, fields);
    }
  }

  /** Rows stay where they are and, once processed, stay processed. */
  ghost predicate OnlyForward<K, F>(before: seq<Row<K, F>>, after: seq<Row<K, F>>) {
    && |before| <= |after|
    && forall i :: 0 <= i < |before| ==>
         && after[i].id == before[i].id && after[i].fields == before[i].fields
         && after[i].created == before[i].created && (before[i].processed ==> after[i].processed)
  }

  /** On neither side does a correction ever return to pending, or a row change or go away. */
  lemma {:induction false} NothingReturnsToPending<K, F>(s: Stores<K, F>, steps: seq<Step<K, F>>)
    requires Run(s, steps).Some?
    ensures OnlyForward(s.sqlite, Run(s, steps).value.sqlite) && OnlyForward(s.shadow, Run(s, steps).value.shadow)
    decreases |steps|
  {
    if steps != [] {
      NothingReturnsToPending(Next(s, steps[0]).value, steps[1..]);
    }
  }

  // ---- What SQLite holds, read off the steps ---------------------------------------------------

  function Inserts<K, F>(steps: seq<Step<K, F>>): nat {
    if steps == [] then 0 else (if steps[0].Insert? then 1 else 0) + Inserts(steps[1..])
  }

  lemma RunFirst<K, F>(s: Stores<K, F>, steps: seq<Step<K, F>>)
    requires steps != [] && Run(s, steps).Some?
    ensures Next(s, steps[0]).Some? && Run(s, steps) == Run(Next(s, steps[0]).value, steps[1..])
    ensures steps == [steps[0]] + steps[1..]
  {
  }

  lemma StepRows<K, F>(s: Stores<K, F>, step: Step<K, F>)
    requires Next(s, step).Some?
    ensures var t := Next(s, step).value;
            && |t.sqlite| == |s.sqlite| + (if step.Insert? then 1 else 0)
            && (forall i :: 0 <= i < |s.sqlite| ==>
                  t.sqlite[i] == s.sqlite[i].(processed := s.sqlite[i].processed || step == Mark(s.sqlite[i].id)))
            && (step.Insert? ==> t.sqlite[|s.sqlite|] == Row(step.id, step.fields, step.now, false))
  {
  }

  /** Rows that are there are marked when a mark of theirs comes, and not otherwise changed. */
  lemma {:induction false} RowStays<K, F>(s: Stores<K, F>, steps: seq<Step<K, F>>, i: nat)
    requires Run(s, steps).Some? && i < |s.sqlite|
    ensures var rows := Run(s, steps).value.sqlite;
            && |rows| == |s.sqlite| + Inserts(steps)
            && rows[i] == s.sqlite[i].(processed := s.sqlite[i].processed || Mark(s.sqlite[i].id) in steps)
    decreases |steps|
  {
    if steps != [] {
      RunFirst(s, steps);
      StepRows(s, steps[0]);
      RowStays(Next(s, steps[0]).value, steps[1..], i);
    }
  }

  /**
   * SQLite holds what was inserted: the row of every insert at the rank of that insert, with its
   * fields and time, and processed exactly when it was marked since.
   */
  lemma {:induction false} SqliteHoldsInserts<K, F>(s: Stores<K, F>, steps: seq<Step<K, F>>, j: nat)
    requires Run(s, steps).Some? && j < |steps| && steps[j].Insert?
    ensures var rows, c, at := Run(s, steps).value.sqlite, steps[j], |s.sqlite| + Inserts(steps[..j]);
            && |rows| == |s.sqlite| + Inserts(steps) && at < |rows|
            && rows[at] == Row(c.id, c.fields, c.now, Mark(c.id) in steps[j + 1..])
    decreases |steps|
  {
    RunFirst(s, steps);
    StepRows(s, steps[0]);
    var t := Next(s, steps[0]).value;
    if j == 0 {
      RowStays(t, steps[1..], |s.sqlite|);
      assert Inserts(steps[..0]) == 0;
    } else {
      SqliteHoldsInserts(t, steps[1..], j - 1);
      assert steps[..j][0] == steps[0] && steps[..j][1..] == steps[1..][..j - 1];
      assert steps[1..][j..] == steps[j + 1..];
    }
  }

  // ---- What Postgres gets ----------------------------------------------------------------------

  /** Postgres has the row, or a shadow write of it is still to come. */
  ghost predicate OnItsWay<K, F>(s: Stores<K, F>, id: K, fields: F) {
    Backed(s.shadow, id, fields, false) || ShadowInsert(id, fields) in s.jobs
  }

  ghost predicate AllOnTheirWay<K, F>(s: Stores<K, F>) {
    forall i :: 0 <= i < |s.sqlite| ==> OnItsWay(s, s.sqlite[i].id, s.sqlite[i].fields)
  }

  predicate NoLoss<K, F>(steps: seq<Step<K, F>>) {
    forall i :: 0 <= i < |steps| && steps[i].Shadow? ==> steps[i].applied
  }

  lemma StepLosesNothing<K, F>(s: Stores<K, F>, step: Step<K, F>, id: K, fields: F)
    requires OnItsWay(s, id, fields) && Next(s, step).Some? && (step.Shadow? ==> step.applied)
    ensures OnItsWay(Next(s, step).value, id, fields)
  {
    var t := Next(s, step).value;
    if Backed(s.shadow, id, fields, false) {
      var i :| 0 <= i < |s.shadow| && s.shadow[i].id == id && s.shadow[i].fields == fields;
      assert t.shadow[i].id == id && t.shadow[i].fields == fields;
    } else {
      var k :| 0 <= k < |s.jobs| && s.jobs[k] == ShadowInsert(id, fields);
      if !step.Shadow? {
        assert t.jobs[k] == s.jobs[k];
      } else if step.job == k {
        assert t.shadow[|s.shadow|].id == id && t.shadow[|s.shadow|].fields == fields;
      } else {
        assert t.jobs[if k < step.job then k else k - 1] == s.jobs[k];
      }
    }
  }

  lemma InsertIsOnItsWay<K, F>(s: Stores<K, F>, step: Step<K, F>)
    requires AllOnTheirWay(s) && Next(s, step).Some? && (step.Shadow? ==> step.applied)
    ensures AllOnTheirWay(Next(s, step).value)
  {
    var t := Next(s, step).value;
    StepRows(s, step);
    forall i | 0 <= i < |t.sqlite|
      ensures OnItsWay(t, t.sqlite[i].id, t.sqlite[i].fields)
    {
      if i < |s.sqlite| {
        StepLosesNothing(s, step, s.sqlite[i].id, s.sqlite[i].fields);
      } else {
        assert t.jobs[|s.jobs|] == ShadowInsert(step.id, step.fields);
      }
    }
  }

  lemma {:induction false} RunLosesNothing<K, F>(s: Stores<K, F>, steps: seq<Step<K, F>>)
    requires AllOnTheirWay(s) && NoLoss(steps) && Run(s, steps).Some?
    ensures AllOnTheirWay(Run(s, steps).value)
    decreases |steps|
  {
    if steps != [] {
      RunFirst(s, steps);
      InsertIsOnItsWay(s, steps[0]);
      assert forall i :: 0 <= i < |steps[1..]| ==> steps[1..][i] == steps[i + 1];
      RunLosesNothing(Next(s, steps[0]).value, steps[1..]);
    }
  }

  /**
   * The replica is complete when nothing is lost: after any interleaving in which Postgres took every
   * shadow write and none is left, it has a row with the fields of every row of SQLite.
   */
  lemma NoLossIsComplete<K, F>(steps: seq<Step<K, F>>, i: nat)
    requires Run(Stores<K, F>.Stores([], [], []), steps).Some? && NoLoss(steps)
    ensures var s := Run(Stores<K, F>.Stores([], [], []), steps).value;
            s.jobs == [] && i < |s.sqlite| ==> Backed(s.shadow, s.sqlite[i].id, s.sqlite[i].fields, false)
  {
    RunLosesNothing(Stores<K, F>.Stores([], [], []), steps);
  }

  // ---- Reads from either side ----------------------------------------------------------------

  /** Calls awaited one after the other; `later` is the second clock reading, made for Postgres. */
  datatype Call<K, F> = Add(id: K, fields: F, now: int, later: int) | Process(id: K)

  /** A call with its shadow write taken. */
  function Do<K(==), F>(s: Stores<K, F>, c: Call<K, F>): Option<Stores<K, F>> {
    match c
    case Add(id, fields, now, later) => Run(s, [Insert(id, fields, now), Shadow(0, later, true)])
    case Process(id) => Run(s, [Mark(id), Shadow(0, 0, true)])
  }

  function DoAll<K(==), F>(s: Stores<K, F>, calls: seq<Call<K, F>>): Option<Stores<K, F>>
    decreases |calls|
  {
    if calls == [] then Some(s)
    else
      var t := Do(s, calls[0]);
      if t.None? then None else DoAll(t.value, calls[1..])
  }

  /** The clock never repeats a reading. */
  predicate Timely<K, F>(clock: int, calls: seq<Call<K, F>>)
    decreases |calls|
  {
    calls == [] ||
    (if calls[0].Add? then clock < calls[0].now < calls[0].later && Timely(calls[0].later, calls[1..])
     else Timely(clock, calls[1..]))
  }

  predicate Increasing<K, F>(rows: seq<Row<K, F>>, clock: int) {
    && (forall i, j :: 0 <= i < j < |rows| ==> rows[i].created < rows[j].created)
    && (forall i :: 0 <= i < |rows| ==> rows[i].created <= clock)
  }

  /** Row by row the same, time stamps aside. */
  predicate Mirror<K(==), F(==)>(a: seq<Row<K, F>>, b: seq<Row<K, F>>) {
    && |a| == |b|
    && forall i :: 0 <= i < |a| ==> Same(a[i], b[i])
  }

  predicate Same<K(==), F(==)>(a: Row<K, F>, b: Row<K, F>) {
    a.id == b.id && a.fields == b.fields && a.processed == b.processed
  }

  ghost predicate InStep<K, F>(s: Stores<K, F>, clock: int) {
    s.jobs == [] && Mirror(s.sqlite, s.shadow) && Increasing(s.sqlite, clock) && Increasing(s.shadow, clock)
  }

  lemma AddKeepsInStep<K, F>(s: Stores<K, F>, clock: int, id: K, fields: F, now: int, later: int)
    requires InStep(s, clock) && clock < now < later && !HasRow(s.sqlite, id)
    ensures Do(s, Add(id, fields, now, later)) ==
      Some(s.(sqlite := s.sqlite + [Row(id, fields, now, false)], shadow := s.shadow + [Row(id, fields, later, false)]))
    ensures InStep(Do(s, Add(id, fields, now, later)).value, later)
  {
    AddDoes(s, id, fields, now, later);
    RowAdded(s, clock, Row(id, fields, now, false), Row(id, fields, later, false));
  }

  /** A newer row on both sides. */
  lemma RowAdded<K, F>(s: Stores<K, F>, clock: int, row: Row<K, F>, shadowRow: Row<K, F>)
    requires InStep(s, clock) && clock < row.created < shadowRow.created && Same(row, shadowRow)
    ensures InStep(s.(sqlite := s.sqlite + [row], shadow := s.shadow + [shadowRow]), shadowRow.created)
  {
  }

  lemma AddDoes<K, F>(s: Stores<K, F>, id: K, fields: F, now: int, later: int)
    requires s.jobs == [] && !HasRow(s.sqlite, id) && !HasRow(s.shadow, id)
    ensures Do(s, Add(id, fields, now, later)) ==
      Some(s.(sqlite := s.sqlite + [Row(id, fields, now, false)], shadow := s.shadow + [Row(id, fields, later, false)]))
  {
    var steps: seq<Step<K, F>> := [Insert(id, fields, now), Shadow(0, later, true)];
    var one := Next(s, steps[0]).value;
    assert one.jobs == [ShadowInsert(id, fields)] && DropJob(one.jobs, 0) == [];
    var two := Next(one, steps[1]).value;
    assert steps[1..] == [Shadow(0, later, true)] && steps[1..][1..] == [];
    assert Run(two, []) == Some(two);
    assert Run(one, steps[1..]) == Some(two);
  }

  lemma ProcessKeepsInStep<K, F>(s: Stores<K, F>, clock: int, id: K)
    requires InStep(s, clock)
    ensures Do<K, F>(s, Process(id)) == Some(s.(sqlite := MarkRow(s.sqlite, id), shadow := MarkRow(s.shadow, id)))
    ensures InStep(Do<K, F>(s, Process(id)).value, clock)
  {
    var steps: seq<Step<K, F>> := [Mark(id), Shadow(0, 0, true)];
    var one := Next(s, steps[0]).value;
    assert one.jobs == [ShadowMark(id)] && DropJob(one.jobs, 0) == [];
    var two := Next(one, steps[1]).value;
    assert steps[1..] == [Shadow(0, 0, true)] && steps[1..][1..] == [];
    assert Run(two, []) == Some(two);
    assert Run(one, steps[1..]) == Some(two);
  }

  lemma {:induction false} SequentialCallsMirror<K, F>(s: Stores<K, F>, clock: int, calls: seq<Call<K, F>>)
    returns (end: int)
    requires InStep(s, clock) && Timely(clock, calls) && DoAll(s, calls).Some?
    ensures InStep(DoAll(s, calls).value, end)
    decreases |calls|
  {
    if calls == [] {
      end := clock;
    } else {
      match calls[0]
      case Add(id, fields, now, later) =>
        if HasRow(s.sqlite, id) {
          InsertTwiceRaises(s, id, fields, now, later);
        }
        AddKeepsInStep(s, clock, id, fields, now, later);
        end := SequentialCallsMirror(Do(s, calls[0]).value, later, calls[1..]);
      case Process(id) =>
        ProcessKeepsInStep(s, clock, id);
        end := SequentialCallsMirror(Do(s, calls[0]).value, clock, calls[1..]);
    }
  }

  lemma InsertTwiceRaises<K, F>(s: Stores<K, F>, id: K, fields: F, now: int, later: int)
    requires HasRow(s.sqlite, id)
    ensures Do(s, Add(id, fields, now, later)).None?
  {
  }

  predicate Ordered<K, F>(rows: seq<Row<K, F>>, ascending: bool) {
    forall i, j :: 0 <= i < j < |rows| ==>
      if ascending then rows[i].created <= rows[j].created else rows[i].created >= rows[j].created
  }

  /**
   * What `SELECT ... WHERE keep ORDER BY created_at [DESC] LIMIT limit` may return: some ordering of
   * the kept rows by time, cut off. Nothing is said about the order of equal times.
   */
  ghost predicate Answers<K(!new), F(!new)>(table: seq<Row<K, F>>, keep: Row<K, F> -> bool, ascending: bool, limit: nat,
                                out: seq<Row<K, F>>) {
    exists all :: IsOrdering(all, Filter(table, keep), ascending) && out == First(all, limit)
  }

  ghost predicate IsOrdering<K, F>(all: seq<Row<K, F>>, rows: seq<Row<K, F>>, ascending: bool) {
    multiset(all) == multiset(rows) && Ordered(all, ascending)
  }

  function First<T>(s: seq<T>, n: nat): seq<T> {
    if |s| <= n then s else s[..n]
  }

  function Reverse<T>(s: seq<T>): (r: seq<T>)
    ensures |r| == |s| && forall i :: 0 <= i < |s| ==> r[i] == s[|s| - 1 - i]
  {
    seq(|s|, i requires 0 <= i < |s| => s[|s| - 1 - i])
  }

  lemma {:induction false} ReverseMultiset<T>(s: seq<T>)
    ensures multiset(Reverse(s)) == multiset(s)
  {
    if s != [] {
      assert Reverse(s) == Reverse(s[1..]) + [s[0]];
      assert s == [s[0]] + s[1..];
      ReverseMultiset(s[1..]);
    }
  }

  lemma SameHead<K, F>(all: seq<Row<K, F>>, rows: seq<Row<K, F>>, clock: int)
    requires IsOrdering(all, rows, true) && Increasing(rows, clock) && rows != [] && all != []
    ensures all[0] == rows[0]
  {
    assert all[0] in multiset(all) && rows[0] in multiset(rows);
    assert all[0] in multiset(rows) && rows[0] in multiset(all);
    var i :| 0 <= i < |rows| && rows[i] == all[0];
    var j :| 0 <= j < |all| && all[j] == rows[0];
    assert all[0].created <= all[j].created;
  }

  lemma TailMultiset<T>(a: seq<T>, b: seq<T>)
    requires a != [] && b != [] && a[0] == b[0] && multiset(a) == multiset(b)
    ensures multiset(a[1..]) == multiset(b[1..])
  {
    assert a == [a[0]] + a[1..] && b == [b[0]] + b[1..];
    assert multiset(a[1..]) == multiset(a) - multiset{a[0]};
    assert multiset(b[1..]) == multiset(b) - multiset{b[0]};
  }

  /** Rows with strictly growing times have one ordering by time: their own. */
  lemma {:induction false} OnlyOrdering<K, F>(all: seq<Row<K, F>>, rows: seq<Row<K, F>>, clock: int)
    requires IsOrdering(all, rows, true) && Increasing(rows, clock)
    ensures all == rows
    decreases |rows|
  {
    assert |all| == |multiset(all)| == |multiset(rows)| == |rows|;
    if rows != [] {
      SameHead(all, rows, clock);
      TailMultiset(all, rows);
      OnlyOrdering(all[1..], rows[1..], clock);
      assert all == [all[0]] + all[1..] && rows == [rows[0]] + rows[1..];
    }
  }

  lemma OnlyDescending<K, F>(all: seq<Row<K, F>>, rows: seq<Row<K, F>>, clock: int)
    requires IsOrdering(all, rows, false) && Increasing(rows, clock)
    ensures all == Reverse(rows)
  {
    ReverseMultiset(all);
    OnlyOrdering(Reverse(all), rows, clock);
    assert Reverse(Reverse(all)) == all;
  }

  /** The same rows are kept on both sides, when the condition looks at no time stamp. */
  lemma {:induction false} FilterMirror<K, F>(a: seq<Row<K, F>>, b: seq<Row<K, F>>, keep: Row<K, F> -> bool)
    requires Mirror(a, b) && forall x, y :: Same(x, y) ==> keep(x) == keep(y)
    ensures Mirror(Filter(a, keep), Filter(b, keep))
  {
    if a != [] {
      FilterMirror(a[1..], b[1..], keep);
    }
  }

  lemma {:induction false} FilterIncreasing<K, F>(rows: seq<Row<K, F>>, keep: Row<K, F> -> bool, clock: int)
    requires Increasing(rows, clock)
    ensures Increasing(Filter(rows, keep), clock)
    ensures forall i :: 0 <= i < |Filter(rows, keep)| ==> Filter(rows, keep)[i] in rows
  {
    if rows != [] {
      assert rows == [rows[0]] + rows[1..];
      FilterIncreasing(rows[1..], keep, clock);
      forall i | 0 <= i < |Filter(rows[1..], keep)|
        ensures rows[0].created < Filter(rows[1..], keep)[i].created
      {
        var j :| 0 <= j < |rows[1..]| && rows[1..][j] == Filter(rows[1..], keep)[i];
        assert rows[j + 1] == rows[1..][j];
      }
    }
  }

  /**
   * A read sees the same rows in the same order whichever side serves it. It holds for pending
   * corrections (ascending), an entity's corrections and recent sessions (descending), with any
   * limit, after any sequential calls whose shadow writes all went through under a clock that never
   * repeats.
   */
  lemma ReadsAgree<K(!new), F(!new)>(calls: seq<Call<K, F>>, keep: Row<K, F> -> bool, ascending: bool, limit: nat,
                         fromSqlite: seq<Row<K, F>>, fromShadow: seq<Row<K, F>>)
    requires Timely(0, calls) && DoAll(Stores([], [], []), calls).Some?
    requires forall x, y :: Same(x, y) ==> keep(x) == keep(y)
    requires var s := DoAll(Stores<K, F>.Stores([], [], []), calls).value;
             && Answers(s.sqlite, keep, ascending, limit, fromSqlite)
             && Answers(s.shadow, keep, ascending, limit, fromShadow)
    ensures Mirror(fromSqlite, fromShadow)
  {
    var end := SequentialCallsMirror(Stores<K, F>.Stores([], [], []), 0, calls);
    var s := DoAll(Stores<K, F>.Stores([], [], []), calls).value;
    OneAnswer(s.sqlite, keep, ascending, limit, fromSqlite, end);
    OneAnswer(s.shadow, keep, ascending, limit, fromShadow, end);
    FilterMirror(s.sqlite, s.shadow, keep);
    MirrorCut(Filter(s.sqlite, keep), Filter(s.shadow, keep), ascending, limit);
  }

  lemma MirrorFirst<K, F>(a: seq<Row<K, F>>, b: seq<Row<K, F>>, limit: nat)
    requires Mirror(a, b)
    ensures Mirror(First(a, limit), First(b, limit))
  {
  }

  lemma MirrorReverse<K, F>(a: seq<Row<K, F>>, b: seq<Row<K, F>>)
    requires Mirror(a, b)
    ensures Mirror(Reverse(a), Reverse(b))
  {
    var n := |a|;
    forall i | 0 <= i < n
      ensures Same(Reverse(a)[i], Reverse(b)[i])
    {
      assert Same(a[n - 1 - i], b[n - 1 - i]);
    }
  }

  lemma MirrorCut<K, F>(a: seq<Row<K, F>>, b: seq<Row<K, F>>, ascending: bool, limit: nat)
    requires Mirror(a, b)
    ensures Mirror(First(if ascending then a else Reverse(a), limit), First(if ascending then b else Reverse(b), limit))
  {
    MirrorReverse(a, b);
    MirrorFirst(if ascending then a else Reverse(a), if ascending then b else Reverse(b), limit);
  }

  lemma OneAnswer<K(!new), F(!new)>(table: seq<Row<K, F>>, keep: Row<K, F> -> bool, ascending: bool, limit: nat,
                        out: seq<Row<K, F>>, clock: int)
    requires Increasing(table, clock) && Answers(table, keep, ascending, limit, out)
    ensures var rows := Filter(table, keep);
            out == First(if ascending then rows else Reverse(rows), limit)
  {
    var rows := Filter(table, keep);
    var all :| IsOrdering(all, rows, ascending) && out == First(all, limit);
    FilterIncreasing(table, keep, clock);
    if ascending {
      OnlyOrdering(all, rows, clock);
    } else {
      OnlyDescending(all, rows, clock);
    }
  }

  // ---- The store objects ---------------------------------------------------------------------

  /** One SQL table, changed in place. */
  class Table<K(==), F> {
    var rows: seq<Row<K, F>>

    constructor ()
      ensures rows == []
    {
      rows := [];
    }

    method InsertRow(id: K, fields: F, now: int) returns (ok: bool)
      modifies this
      ensures ok == !HasRow(old(rows), id)
      ensures rows == if ok then old(rows) + [Row(id, fields, now, false)] else old(rows)
    {
      var i := 0;
      while i < |rows|
        invariant 0 <= i <= |rows| && forall j :: 0 <= j < i ==> rows[j].id != id
      {
        if rows[i].id == id {
          return false;
        }
        i := i + 1;
      }
      rows := rows + [Row(id, fields, now, false)];
      ok := true;
    }

    method MarkProcessed(id: K)
      modifies this
      ensures rows == MarkRow(old(rows), id)
    {
      rows := MarkRow(rows, id);
    }
  }

  /** The dual-write backend: SQLite's result counts, Postgres failures are logged and dropped. */
  class DualWriteStore<K(==), F> {
    const sqlite: Table<K, F>
    const shadow: Table<K, F>

    constructor ()
      ensures fresh(sqlite) && fresh(shadow) && sqlite != shadow
      ensures sqlite.rows == [] && shadow.rows == []
    {
      sqlite := new Table();
      shadow := new Table();
    }

    ghost function View(): Stores<K, F>
      reads sqlite, shadow
    {
      Stores(sqlite.rows, shadow.rows, [])
    }

    /** `add_correction` and `insert_session`; `pgFails` is a failure of the shadow write. */
    method AddRow(id: K, fields: F, now: int, later: int, pgFails: bool) returns (ok: bool)
      requires sqlite != shadow && Replica(View())
      modifies sqlite, shadow
      ensures Replica(View()) && ok == !HasRow(old(sqlite.rows), id)
      ensures !ok ==> View() == old(View())
      ensures ok ==> Run(old(View()), [Insert(id, fields, now), Shadow(0, later, !pgFails)]) == Some(View())
    {
      ShadowLacks(View(), id);
      ok := sqlite.InsertRow(id, fields, now);
      if ok {
        InsertKeeps(old(View()), id, fields, now);
        StepKeeps(Next(old(View()), Insert(id, fields, now)).value, Shadow(0, later, !pgFails));
        if !pgFails {
          var _ := shadow.InsertRow(id, fields, later);
        }
        RunTwo(old(View()), Insert(id, fields, now), Shadow(0, later, !pgFails));
        assert DropJob([Job<K, F>.ShadowInsert(id, fields)], 0) == [];
      }
    }

    method Process(id: K, pgFails: bool)
      requires sqlite != shadow && Replica(View())
      modifies sqlite, shadow
      ensures Replica(View())
      ensures Run(old(View()), [Mark(id), Shadow(0, 0, !pgFails)]) == Some(View())
    {
      AwaitedMarkKeeps(View(), id, !pgFails);
      sqlite.MarkProcessed(id);
      if !pgFails {
        shadow.MarkProcessed(id);
      }
      RunTwo(old(View()), Mark(id), Shadow(0, 0, !pgFails));
      assert DropJob([Job<K, F>.ShadowMark(id)], 0) == [];
    }
  }

  lemma ShadowLacks<K, F>(s: Stores<K, F>, id: K)
    requires Replica(s)
    ensures HasRow(s.shadow, id) ==> HasRow(s.sqlite, id)
  {
  }

  /** Awaited to its end, a mark keeps the replica even when no such row was written yet. */
  lemma AwaitedMarkKeeps<K, F>(s: Stores<K, F>, id: K, applied: bool)
    requires Replica(s) && s.jobs == []
    ensures var t := s.(sqlite := MarkRow(s.sqlite, id), shadow := if applied then MarkRow(s.shadow, id) else s.shadow);
            Replica(t)
  {
    if HasRow(s.sqlite, id) {
      MarkKeeps(s, id);
      var one := Next<K, F>(s, Mark(id)).value;
      assert DropJob(one.jobs, 0) == [];
      StepKeeps(one, Shadow(0, 0, applied));
    } else {
      ShadowLacks(s, id);
      assert MarkRow(s.sqlite, id) == s.sqlite && MarkRow(s.shadow, id) == s.shadow;
    }
  }

  lemma RunTwo<K, F>(s: Stores<K, F>, a: Step<K, F>, b: Step<K, F>)
    requires Next(s, a).Some? && Next(Next(s, a).value, b).Some?
    ensures Run(s, [a, b]) == Next(Next(s, a).value, b)
  {
    assert [a, b][1..] == [b] && [b][1..] == [];
    var u := Next(Next(s, a).value, b).value;
    assert Run(u, []) == Some(u);
    assert Run(Next(s, a).value, [b]) == Some(u);
  }
}
