/**
 * Pruning the SQLite embedding cache: three passes over one table (age, row cap, byte budget), all
 * deleting in order of `COALESCE(last_accessed, created_at)`.
 *
 * The table is a map from the primary key to the two time stamps. The size of the database file is
 * what the file system says at each probe, an arbitrary function: deleting rows need not shrink it,
 * and `VACUUM` may be off or fail. Which of several equally old rows a `LIMIT` takes is left open.
 */
module CachePruner {
  import opened Sequences

  type Key = string

  datatype Stamp = Stamp(created: int, accessed: Option<int>)

  type Table = map<Key, Stamp>

  /** `COALESCE(last_accessed, created_at)` */
  function Age(s: Stamp): int {
    if s.accessed.Some? then s.accessed.value else s.created
  }

  ghost predicate NoneOlder(age: int, t: Table) {
    forall k :: k in t ==> age <= Age(t[k])
  }

  /** Some rows of `before` are gone, and none that stayed is older than one that went. */
  ghost predicate EvictsOldest(before: Table, after: Table) {
    && (forall k :: k in after ==> k in before && after[k] == before[k])
    && (forall gone | gone in before && gone !in after :: NoneOlder(Age(before[gone]), after))
  }

  /** Evicting oldest rows twice is evicting oldest rows: the passes compose. */
  lemma EvictionsCompose(a: Table, b: Table, c: Table)
    requires EvictsOldest(a, b) && EvictsOldest(b, c)
    ensures EvictsOldest(a, c)
  {
    forall gone, kept | gone in a && gone !in c && kept in c
      ensures Age(a[gone]) <= Age(c[kept])
    {
      assert kept in b && b[kept] == c[kept];
      if gone in b {
        assert b[gone] == a[gone];
      }
    }
  }

  lemma SmallerSet(big: set<Key>, small: set<Key>)
    requires small <= big
    ensures |small| <= |big|
    ensures |small| == |big| ==> small == big
  {
    assert big == small + (big - small);
    assert |big| == |small| + |big - small|;
  }

  lemma SmallerTable(before: Table, after: Table)
    requires EvictsOldest(before, after)
    ensures |after| <= |before|
    ensures |after| == |before| ==> after == before
  {
    SmallerSet(before.Keys, after.Keys);
  }

  /** A table that is not empty has an oldest row. */
  lemma {:induction false} OldestExists(t: Table)
    requires t != map[]
    ensures exists k :: k in t && NoneOlder(Age(t[k]), t)
    decreases t.Keys
  {
    var k :| k in t;
    var rest := t - {k};
    assert t.Keys == rest.Keys + {k};
    if rest != map[] {
      OldestExists(rest);
      var m :| m in rest && NoneOlder(Age(rest[m]), rest);
      OlderOfTwo(t, k, m);
      assert m in t && (NoneOlder(Age(t[k]), t) || NoneOlder(Age(t[m]), t));
    } else {
      assert forall j :: j in t ==> j == k;
      assert NoneOlder(Age(t[k]), t);
    }
  }

  lemma OlderOfTwo(t: Table, k: Key, m: Key)
    requires k in t && m in t - {k} && NoneOlder(Age(t[m]), t - {k})
    ensures NoneOlder(Age(t[if Age(t[k]) <= Age(t[m]) then k else m]), t)
  {
    forall j | j in t && j != k
      ensures Age(t[m]) <= Age(t[j])
    {
      assert j in t - {k};
    }
  }

  /** A failed statement rolls its transaction back; at the commit the counter was already raised. */
  datatype Fault = NoFault | FailsBeforeDelete | FailsAtCommit

  datatype Status = Missing | Error | OkUnderBudget | OkPruned | OkStillOverBudget

  datatype Limits = Limits(maxBytes: int, maxRows: int, retentionDays: int, vacuum: bool)

  /** The world of one run: the clock, the file, and where SQLite fails. */
  datatype Disk = Disk(
    exists_: bool, now: int, size: nat -> nat,
    firstFault: Fault, batchFault: nat -> Fault, lastCountFails: bool)

  datatype Report = Report(
    status: Status, bytesBefore: nat, bytesAfter: nat, rowsBefore: nat, rowsAfter: nat,
    deletedRetention: nat, deletedRowCap: nat, deletedByteCap: nat, vacuumed: bool)

  const SECONDS_PER_DAY := 86400

  function Cutoff(d: Disk, l: Limits): int {
    d.now - l.retentionDays * SECONDS_PER_DAY
  }

  /** Rows of one byte-cap pass: five percent of what remains, at least one, at most 500. */
  function Batch(remaining: int): int {
    var share := if remaining / 20 != 0 then remaining / 20 else 1;
    var capped := if 500 < share then 500 else share;
    if 1 < capped then capped else 1
  }

  /**
   * The batch always removes something and never asks for more than there is: a twentieth of the
   * rows, rounded down, but at least one and at most 500.
   */
  lemma BatchFits(remaining: int)
    requires remaining > 0
    ensures 1 <= Batch(remaining) <= remaining
    ensures IsTwentieth(Batch(remaining), remaining)
  {
  }

  predicate IsTwentieth(n: int, of_: int) {
    1 <= n <= 500 && (20 * n <= of_ || n == 1) && (n == 500 || 20 * (n + 1) > of_)
  }

  predicate TakesTwentieth(before: int, after: int) {
    IsTwentieth(before - after, before)
  }

  /** The rows left at each probe of the byte-cap loop: each batch takes its twentieth. */
  predicate Shrinks(left: seq<nat>) {
    forall p :: 0 <= p < |left| - 1 ==> TakesTwentieth(left[p], left[p + 1])
  }

  /** From so many rows to so many, over so many probes. */
  predicate ShrinksTo(left: seq<nat>, from_: nat, to: nat, probes: nat) {
    Shrinks(left) && probes >= 1 && |left| == probes && left[0] == from_ && left[probes - 1] == to
  }

  lemma ShrinksMore(left: seq<nat>, from_: nat, to: nat, probes: nat, next: nat)
    requires ShrinksTo(left, from_, to, probes) && TakesTwentieth(to, next)
    ensures ShrinksTo(left + [next], from_, next, probes + 1)
  {
    var more := left + [next];
    forall p | 0 <= p < |more| - 1
      ensures TakesTwentieth(more[p], more[p + 1])
    {
      if p < |left| - 1 {
        assert TakesTwentieth(left[p], left[p + 1]);
      }
    }
  }

  function RowBound(l: Limits): nat {
    if l.maxRows < 0 then 0 else l.maxRows
  }

  /** Rows the age pass deletes: all that are older than the cutoff, when there is one. */
  function Expired(t: Table, l: Limits, d: Disk): set<Key> {
    if l.retentionDays > 0 then set k | k in t && Age(t[k]) < Cutoff(d, l) else {}
  }

  ghost predicate NoneExpired(t: Table, l: Limits, d: Disk) {
    l.retentionDays > 0 ==> forall k :: k in t ==> Age(t[k]) >= Cutoff(d, l)
  }

  /** Last accessed, or created if never accessed, longer ago than the retention days. */
  predicate Stale(s: Stamp, now: int, days: int) {
    match s.accessed
    case Some(accessed) => accessed < now - days * 86400
    case None => s.created < now - days * 86400
  }

  /** What the age pass is to leave. */
  function Unexpired(t: Table, l: Limits, d: Disk): Table {
    if l.retentionDays > 0 then map k | k in t && !Stale(t[k], d.now, l.retentionDays) :: t[k] else t
  }

  /** However old its creation, a row that was accessed within the retention days is not expired. */
  lemma ExpiredIffStale(t: Table, l: Limits, d: Disk, k: Key)
    requires k in t
    ensures k in Expired(t, l, d) <==> l.retentionDays > 0 && Stale(t[k], d.now, l.retentionDays)
    ensures k in Unexpired(t, l, d) <==> k !in Expired(t, l, d)
  {
  }

  lemma YoungRowsStay(before: Table, after: Table, l: Limits, d: Disk)
    requires NoneExpired(before, l, d) && EvictsOldest(before, after)
    ensures NoneExpired(after, l, d)
  {
  }

  class EmbeddingTable {
    var rows: Table

    /** `DELETE ... WHERE COALESCE(last_accessed, created_at) < cutoff` */
    method DeleteOlderThan(cutoff: int) returns (n: nat)
      modifies this
      ensures EvictsOldest(old(rows), rows) && n == |old(rows)| - |rows|
      ensures rows == map k | k in old(rows) && Age(old(rows)[k]) >= cutoff :: old(rows)[k]
      ensures n == |set k | k in old(rows) && Age(old(rows)[k]) < cutoff|
    {
      ghost var before := rows;
      n := |rows|;
      rows := map k | k in rows && Age(rows[k]) >= cutoff :: rows[k];
      SmallerTable(before, rows);
      n := n - |rows|;
      ghost var expired := set k | k in before && Age(before[k]) < cutoff;
      assert before.Keys == rows.Keys + expired && rows.Keys !! expired;
    }

    /** `DELETE` of the first `limit` rows in age order; ties may fall either way. */
    method DeleteOldest(limit: nat) returns (n: nat)
      modifies this
      ensures EvictsOldest(old(rows), rows)
      ensures n == (if limit <= |old(rows)| then limit else |old(rows)|)
      ensures |rows| == |old(rows)| - n
    {
      n := 0;
      while n < limit && rows != map[]
        invariant EvictsOldest(old(rows), rows)
        invariant n <= limit && |rows| == |old(rows)| - n
        decreases limit - n
      {
        OldestExists(rows);
        var k :| k in rows && forall j :: j in rows ==> Age(rows[k]) <= Age(rows[j]);
        ghost var before := rows;
        assert before.Keys == (before - {k}).Keys + {k};
        rows := rows - {k};
        EvictionsCompose(old(rows), before, rows);
        n := n + 1;
      }
    }

    /** The first transaction: retention, then the row cap. An error leaves the table as it was. */
    method AgeAndRowPasses(l: Limits, d: Disk) returns (ok: bool, aged: nat, capped: nat)
      modifies this
      ensures ok == d.firstFault.NoFault?
      ensures !ok ==> rows == old(rows)
      ensures ok ==> EvictsOldest(old(rows), rows) && |old(rows)| == |rows| + aged + capped
      ensures ok ==> NoneExpired(rows, l, d)
      ensures ok ==> |rows| <= RowBound(l)
      ensures ok ==> aged == |Expired(old(rows), l, d)|
      ensures ok && capped > 0 ==> |rows| == RowBound(l)
      ensures ok && capped == 0 ==> rows == Unexpired(old(rows), l, d)
    {
      var snapshot := rows;
      aged, capped := 0, 0;
      if d.firstFault.FailsBeforeDelete? {
        return false, 0, 0;
      }
      if l.retentionDays > 0 {
        aged := DeleteOlderThan(Cutoff(d, l));
      }
      ghost var mid := rows;
      assert mid == Unexpired(snapshot, l, d);
      if |rows| > l.maxRows {
        capped := DeleteOldest(|rows| - l.maxRows);
        EvictionsCompose(snapshot, mid, rows);
      }
      ok := d.firstFault.NoFault?;
      if !ok {
        rows := snapshot;
      }
    }

    /** One transaction of the byte-cap loop; at a fault in the commit the count stays raised. */
    method OneBatch(fault: Fault) returns (committed: bool, n: nat)
      requires rows != map[]
      modifies this
      ensures EvictsOldest(old(rows), rows) && committed == fault.NoFault?
      ensures committed ==> IsTwentieth(n, |old(rows)|) && |rows| == |old(rows)| - n
      ensures !committed ==> rows == old(rows)
    {
      if fault.FailsBeforeDelete? {
        return false, 0;
      }
      var snapshot := rows;
      BatchFits(|rows|);
      n := DeleteOldest(Batch(|rows|));
      committed := fault.NoFault?;
      if !committed {
        rows := snapshot;
      }
    }

    /**
     * The byte-cap loop. It ends whatever the file size does, because every pass deletes at least
     * one row; `probes` is how often the size was read.
     */
    method BytePass(l: Limits, d: Disk)
      returns (ok: bool, deleted: nat, vacuumed: bool, probes: nat, ghost left: seq<nat>)
      modifies this
      ensures EvictsOldest(old(rows), rows)
      ensures ok ==> |old(rows)| == |rows| + deleted
      ensures !ok ==> d.batchFault(probes) != NoFault
      ensures probes >= 1 && (ok ==> rows == map[] || d.size(probes) <= l.maxBytes)
      ensures ok ==> ShrinksTo(left, |old(rows)|, |rows|, probes)
      ensures forall p :: 1 <= p < probes ==> d.size(p) > l.maxBytes
      ensures vacuumed ==> l.vacuum
    {
      deleted, vacuumed, probes, left := 0, false, 1, [|rows|];
      while d.size(probes) > l.maxBytes
        invariant EvictsOldest(old(rows), rows) && |old(rows)| == |rows| + deleted
        invariant ShrinksTo(left, |old(rows)|, |rows|, probes)
        invariant forall p :: 1 <= p < probes ==> d.size(p) > l.maxBytes
        invariant vacuumed ==> l.vacuum
        decreases |rows|
      {
        if |rows| <= 0 {
          break;
        }
        ghost var before := rows;
        var committed, n := OneBatch(d.batchFault(probes));
        EvictionsCompose(old(rows), before, rows);
        deleted := deleted + n;
        if !committed {
          return false, deleted, vacuumed, probes, left;
        }
        vacuumed := l.vacuum;
        ShrinksMore(left, |old(rows)|, |before|, probes, |rows|);
        probes, left := probes + 1, left + [|rows|];
      }
      return true, deleted, vacuumed, probes, left;
    }

    /** The two transactions one after the other, counted. */
    method Passes(l: Limits, d: Disk) returns (r: Report, lastProbe: nat, ghost left: seq<nat>)
      requires d.exists_
      modifies this
      ensures EvictsOldest(old(rows), rows) && lastProbe >= 1
      ensures (r.status.Error? || r.status.OkPruned?) && r.bytesBefore == r.bytesAfter == d.size(0) && r.rowsAfter == 0
      ensures d.firstFault != NoFault ==> rows == old(rows) && r.status == Error
      ensures r.status.OkPruned? ==> Trimmed(old(rows), rows, l, d, r, left, lastProbe)
      ensures r.status.Error? ==> d.firstFault != NoFault || d.batchFault(lastProbe) != NoFault
      ensures r.vacuumed ==> l.vacuum
    {
      var before := d.size(0);
      lastProbe, left := 1, [];
      var ok, aged, capped := AgeAndRowPasses(l, d);
      if !ok {
        r := Report(Error, before, before, |rows|, 0, aged, capped, 0, false);
        return;
      }
      ghost var mid := rows;
      var total := |rows| + aged + capped;
      var done, trimmed, vacuumed, probes;
      done, trimmed, vacuumed, probes, left := BytePass(l, d);
      EvictionsCompose(old(rows), mid, rows);
      lastProbe := probes;
      r := Report(if done then OkPruned else Error, before, before, total, 0, aged, capped, trimmed, vacuumed);
      if done {
        YoungRowsStay(mid, rows, l, d);
        SmallerTable(mid, rows);
        PassesTogether(old(rows), mid, rows, l, d, r, left, probes);
      }
    }

    /** `prune_sqlite_cache`. */
    method Prune(l: Limits, d: Disk) returns (r: Report, lastProbe: nat, ghost left: seq<nat>)
      modifies this
      // no row that stays is older than a row that goes, across all three passes
      ensures EvictsOldest(old(rows), rows) && lastProbe >= 1
      ensures r.status.Missing? <==> !d.exists_
      ensures r.status.Missing? || d.firstFault != NoFault ==> rows == old(rows)
      ensures r.status.Error? ==> d.firstFault != NoFault || d.batchFault(lastProbe) != NoFault
      ensures Finished(r.status) ==> Trimmed(old(rows), rows, l, d, r, left, lastProbe)
      ensures r.bytesBefore == d.size(0)
      ensures Finished(r.status) ==>
        r.bytesAfter == d.size(lastProbe + 1) && r.rowsAfter == if d.lastCountFails then 0 else |rows|
      // the report balances exactly when the closing count was read or there was nothing to count
      ensures Finished(r.status) ==>
        (r.rowsBefore == r.rowsAfter + r.deletedRetention + r.deletedRowCap + r.deletedByteCap
         <==> !d.lastCountFails || rows == map[])
      // the classification
      ensures r.status.OkUnderBudget? ==> rows == old(rows) && r.bytesAfter <= l.maxBytes
      ensures r.status.OkPruned? ==> rows != old(rows) && r.bytesAfter <= l.maxBytes
      ensures r.status.OkStillOverBudget? ==>
        r.bytesAfter > l.maxBytes && (rows == map[] || r.bytesAfter > d.size(lastProbe))
      ensures Finished(r.status) && rows != old(rows) ==> r.vacuumed == l.vacuum
    {
      if !d.exists_ {
        return Report(Missing, d.size(0), d.size(0), 0, 0, 0, 0, 0, false), 1, [];
      }
      r, lastProbe, left := Passes(l, d);
      if r.status.Error? {
        return;
      }
      SmallerTable(old(rows), rows);
      r := Conclude(l, d, r, |rows|, lastProbe);
    }
  }

  /** What the three passes leave: bounds, exact counts, and conservation of rows. */
  ghost predicate Trimmed(before: Table, after: Table, l: Limits, d: Disk, r: Report, left: seq<nat>, lastProbe: nat)
    requires lastProbe >= 1
  {
    && NoneExpired(after, l, d)
    && |after| <= RowBound(l)
    // every row is accounted for once
    && r.rowsBefore == |before| == |after| + r.deletedRetention + r.deletedRowCap + r.deletedByteCap
    // no pass deletes more than it must: the age pass the expired rows, the row pass the overflow,
    // the byte pass one twentieth of the rows left for every probe that found the file too large
    && r.deletedRetention == |Expired(before, l, d)|
    && (r.deletedRowCap > 0 ==> |after| + r.deletedByteCap == RowBound(l))
    && (r.deletedRowCap == r.deletedByteCap == 0 ==> after == Unexpired(before, l, d))
    && ShrinksTo(left, |after| + r.deletedByteCap, |after|, lastProbe)
    && (forall p :: 1 <= p < lastProbe ==> d.size(p) > l.maxBytes)
    && (after == map[] || d.size(lastProbe) <= l.maxBytes)
  }

  /** The closing vacuum, row count, size probe and status. */
  function Conclude(l: Limits, d: Disk, r: Report, left: nat, lastProbe: nat): Report {
    var total := r.deletedRetention + r.deletedRowCap + r.deletedByteCap;
    var bytes := d.size(lastProbe + 1);
    r.(vacuumed := r.vacuumed || (total > 0 && l.vacuum),
       rowsAfter := if d.lastCountFails then 0 else left,
       bytesAfter := bytes,
       status := if total == 0 && bytes <= l.maxBytes then OkUnderBudget
                 else if bytes <= l.maxBytes then OkPruned
                 else OkStillOverBudget)
  }

  lemma PassesTogether(before: Table, mid: Table, after: Table, l: Limits, d: Disk, r: Report, left: seq<nat>, probes: nat)
    requires NoneExpired(after, l, d) && probes >= 1
    requires |before| == |mid| + r.deletedRetention + r.deletedRowCap == r.rowsBefore
    requires |mid| <= RowBound(l)
    requires r.deletedRetention == |Expired(before, l, d)|
    requires r.deletedRowCap > 0 ==> |mid| == RowBound(l)
    requires r.deletedRowCap == 0 ==> mid == Unexpired(before, l, d)
    requires |mid| == |after| ==> mid == after
    requires |mid| == |after| + r.deletedByteCap && ShrinksTo(left, |mid|, |after|, probes)
    requires forall p :: 1 <= p < probes ==> d.size(p) > l.maxBytes
    requires after == map[] || d.size(probes) <= l.maxBytes
    ensures Trimmed(before, after, l, d, r, left, probes)
  {
  }

  predicate Finished(s: Status) {
    s.OkUnderBudget? || s.OkPruned? || s.OkStillOverBudget?
  }
}
