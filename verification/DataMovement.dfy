/**
 Moving rows in batches: archival, which deletes what it has copied, and the copy between tables, which
 pages through a source that does not change. Each batch is one transaction; `fails` and `cancelled`
 say in which rounds the database or the caller stops the work, `delivered` how many rows the cursor of a
 round delivers at most before it ends, as if there were no more.
 */
module DataMovement {
  import opened Prelude

  datatype Row = Row(createdAt: int, data: string)

  datatype Ending = Finished | FailedAt(round: nat) | CancelledAt(round: nat)

  type Table = map<string, Row>

  function Old(t: Table, threshold: int): (r: set<string>)
    ensures r <= t.Keys
  {
    set id | id in t && t[id].createdAt < threshold
  }

  function Least(a: int, b: int): (r: int)
    ensures r <= a && r <= b && (r == a || r == b)
  {
    if a < b then a else b
  }

  /** The rows of some identifiers. */
  function Rows(t: Table, ids: set<string>): Table
    requires ids <= t.Keys
  {
    map id | id in ids :: t[id]
  }

  datatype Tables = Tables(source: Table, archive: Table)

  /** Some rows below the threshold moved, as they were; all others stayed. */
  ghost predicate Moved(start: Tables, threshold: int, moved: set<string>, now: Tables) {
    start.source.Keys !! start.archive.Keys && moved <= Old(start.source, threshold) && now == MoveRows(start, moved)
  }

  function MoveRows(t: Tables, ids: set<string>): Tables
    requires ids <= t.source.Keys
  {
    Tables(t.source - ids, t.archive + Rows(t.source, ids))
  }

  lemma MovedNone(start: Tables, threshold: int)
    requires start.source.Keys !! start.archive.Keys
    ensures Moved(start, threshold, {}, start)
  {
  }

  /** Row by row: what moved is below the threshold and as it was, and everything else is where it was. */
  lemma MovedMeans(start: Tables, threshold: int, moved: set<string>, now: Tables)
    requires Moved(start, threshold, moved, now)
    ensures forall id :: id in moved ==>
      id in start.source && start.source[id].createdAt < threshold &&
      id !in now.source && id in now.archive && now.archive[id] == start.source[id]
    ensures forall id :: id !in moved ==>
      (id in now.source <==> id in start.source) && (id in now.archive <==> id in start.archive)
    ensures forall id :: id !in moved && id in start.source ==> now.source[id] == start.source[id]
    ensures forall id :: id in start.archive ==> now.archive[id] == start.archive[id]
  {
  }

  /** When all of them have moved, no row below the threshold is left, and conversely. */
  lemma NoneLeft(start: Tables, threshold: int, moved: set<string>, now: Tables)
    requires Moved(start, threshold, moved, now)
    ensures moved == Old(start.source, threshold) <==>
      forall id :: id in now.source ==> now.source[id].createdAt >= threshold
  {
    OldSplits(start, threshold, moved, now);
    if moved != Old(start.source, threshold) {
      var id :| id in Old(start.source, threshold) && id !in moved;
      assert id in now.source;
    }
  }

  lemma RowsOfMore(source: Table, archive: Table, moved: set<string>, ids: set<string>)
    requires moved <= source.Keys && ids <= source.Keys && ids !! moved
    ensures source - moved - ids == source - (moved + ids)
    ensures archive + Rows(source, moved) + Rows(source - moved, ids) == archive + Rows(source, moved + ids)
  {
  }

  lemma MovedMore(start: Tables, threshold: int, moved: set<string>, now: Tables, ids: set<string>)
    requires Moved(start, threshold, moved, now) && ids <= Old(now.source, threshold)
    ensures ids !! moved && Moved(start, threshold, moved + ids, MoveRows(now, ids))
  {
    RowsOfMore(start.source, start.archive, moved, ids);
  }

  lemma MovedDisjoint(start: Tables, threshold: int, moved: set<string>, now: Tables)
    requires Moved(start, threshold, moved, now)
    ensures now.source.Keys !! now.archive.Keys
  {
  }

  lemma Sizes(whole: set<string>, a: set<string>, b: set<string>)
    requires whole == a + b && a !! b
    ensures |whole| == |a| + |b| && (a == whole <==> |a| == |whole|)
  {
    if |a| == |whole| { assert b == {}; }
  }

  lemma OldSplits(start: Tables, threshold: int, moved: set<string>, now: Tables)
    requires Moved(start, threshold, moved, now)
    ensures Old(start.source, threshold) == moved + Old(now.source, threshold)
    ensures moved !! Old(now.source, threshold)
  {
  }

  /** What is left to move. */
  lemma MovedLeaves(start: Tables, threshold: int, moved: set<string>, now: Tables)
    requires Moved(start, threshold, moved, now)
    ensures |Old(now.source, threshold)| == |Old(start.source, threshold)| - |moved|
    ensures moved == Old(start.source, threshold) <==> |moved| == |Old(start.source, threshold)|
  {
    OldSplits(start, threshold, moved, now);
    Sizes(Old(start.source, threshold), moved, Old(now.source, threshold));
  }

  // ---------- Rounds ----------

  /** A run of the archival: the tables it starts from, and what the database and the caller do in each round. */
  datatype Job = Job(
    start: Tables, threshold: int, limit: nat,
    delivered: nat -> nat, fails: nat -> bool, cancelled: nat -> bool)

  /** The rows of so many full batches. */
  function Batches(limit: nat, rounds: nat): nat { if rounds == 0 then 0 else Batches(limit, rounds - 1) + limit }

  /** What the query of a round selects when all rounds before it moved a full batch. */
  function Wanted(job: Job, round: nat): int {
    Least(job.limit, |Old(job.start.source, job.threshold)| - Batches(job.limit, round))
  }

  /** What a query with a limit yields when its cursor delivers no more than some number of rows. */
  ghost predicate Selected(t: Table, threshold: int, ids: set<string>, limit: nat, delivered: nat) {
    ids <= Old(t, threshold) && |ids| == Least(delivered, Least(limit, |Old(t, threshold)|))
  }

  /** In all rounds so far the cursor delivered a full batch, and nothing stopped the work. */
  ghost predicate FullSoFar(job: Job, rounds: nat) {
    rounds == 0 ||
    (FullSoFar(job, rounds - 1) &&
     job.delivered(rounds - 1) >= job.limit && !job.fails(rounds - 1) && !job.cancelled(rounds - 1))
  }

  /** So many full rounds, and nothing else yet. */
  ghost predicate Progress(job: Job, round: nat, moved: set<string>, now: Tables) {
    Moved(job.start, job.threshold, moved, now) && |moved| == Batches(job.limit, round) && FullSoFar(job, round)
  }

  /**
   How the work ends in a round, after full ones. When it finishes, all rows have moved exactly if the last cursor
   delivered all that was wanted of it: one that ends early passes for a short batch.
   */
  ghost predicate Ended(job: Job, ending: Ending, round: nat, moved: set<string>, now: Tables) {
    Moved(job.start, job.threshold, moved, now) && FullSoFar(job, round) &&
    match ending
    case Finished =>
      var processed := Least(job.delivered(round), Wanted(job, round));
      !job.fails(round) && processed < job.limit && |moved| == Batches(job.limit, round) + processed &&
      (moved == Old(job.start.source, job.threshold) <==> job.delivered(round) >= Wanted(job, round))
    case FailedAt(n) => n == round && job.fails(round) && |moved| == Batches(job.limit, round)
    case CancelledAt(n) =>
      n == round && !job.fails(round) && job.cancelled(round) && job.delivered(round) >= job.limit &&
      |moved| == Batches(job.limit, round + 1)
  }

  lemma StartsEmpty(job: Job)
    requires job.start.source.Keys !! job.start.archive.Keys
    ensures Progress(job, 0, {}, job.start)
  {
    MovedNone(job.start, job.threshold);
  }

  /** One more batch of a job in progress. */
  lemma BatchMoved(job: Job, round: nat, moved: set<string>, now: Tables, ids: set<string>)
    requires Progress(job, round, moved, now)
    requires Selected(now.source, job.threshold, ids, job.limit, job.delivered(round))
    ensures |ids| == Least(job.delivered(round), Wanted(job, round)) && |moved + ids| == |moved| + |ids|
    ensures Moved(job.start, job.threshold, moved + ids, MoveRows(now, ids))
    ensures |ids| < job.limit ==>
      (moved + ids == Old(job.start.source, job.threshold) <==> job.delivered(round) >= Wanted(job, round))
    ensures |moved + ids| <= |Old(job.start.source, job.threshold)|
  {
    MovedMore(job.start, job.threshold, moved, now, ids);
    MovedLeaves(job.start, job.threshold, moved, now);
    MovedLeaves(job.start, job.threshold, moved + ids, MoveRows(now, ids));
    assert |moved + ids| == |moved| + |ids|;
  }

  /** A round that does not fail: a short batch ends the work, and a full one if it is cancelled. */
  lemma RoundOutcome(job: Job, round: nat, moved: set<string>, now: Tables, ids: set<string>)
    requires Progress(job, round, moved, now) && !job.fails(round)
    requires Selected(now.source, job.threshold, ids, job.limit, job.delivered(round))
    ensures |ids| < job.limit ==> Ended(job, Finished, round, moved + ids, MoveRows(now, ids))
    ensures |ids| >= job.limit && job.cancelled(round) ==>
      Ended(job, CancelledAt(round), round, moved + ids, MoveRows(now, ids))
    ensures |ids| >= job.limit && !job.cancelled(round) ==> Progress(job, round + 1, moved + ids, MoveRows(now, ids))
    ensures |moved + ids| == |moved| + |ids| <= |Old(job.start.source, job.threshold)|
  {
    BatchMoved(job, round, moved, now, ids);
  }

  /** A set in two parts, and one element that changes sides. */
  ghost predicate Parts(all: set<string>, a: set<string>, b: set<string>) { all == a + b && a !! b }

  lemma PartsShift(all: set<string>, a: set<string>, b: set<string>, x: string)
    requires Parts(all, a, b) && x in b
    ensures Parts(all, a + {x}, b - {x}) && |a + {x}| == |a| + 1 && |b - {x}| == |b| - 1
  {
  }

  lemma PickedAll(t: Table, threshold: int, ids: set<string>, rest: set<string>, limit: nat, delivered: nat)
    requires Parts(Old(t, threshold), ids, rest) && |ids| <= limit && |ids| <= delivered && NoYounger(t, ids, rest)
    requires |ids| == limit || |ids| == delivered || rest == {}
    ensures Selected(t, threshold, ids, limit, delivered) && NoYounger(t, ids, Old(t, threshold) - ids)
  {
    Sizes(Old(t, threshold), ids, rest);
    assert Old(t, threshold) - ids == rest;
  }

  /** Rows of some identifiers are no younger than those of others. */
  ghost predicate NoYounger(t: Table, ids: set<string>, others: set<string>)
    requires ids <= t.Keys && others <= t.Keys
  {
    forall a, b :: a in ids && b in others ==> t[a].createdAt <= t[b].createdAt
  }

  lemma OldestJoins(t: Table, ids: set<string>, rest: set<string>, id: string)
    requires ids <= t.Keys && rest <= t.Keys && id in rest && NoYounger(t, ids, rest) && NoYounger(t, {id}, rest)
    ensures NoYounger(t, ids + {id}, rest - {id})
  {
  }

  /** Moving rows from one table to another loses, changes and doubles none. */
  lemma MovingKeepsRows(source: Table, archive: Table, ids: set<string>)
    requires source.Keys !! archive.Keys && ids <= source.Keys
    ensures (source - ids).Keys !! (archive + Rows(source, ids)).Keys
    ensures (source - ids) + (archive + Rows(source, ids)) == source + archive
  {
    var before, after := source + archive, (source - ids) + (archive + Rows(source, ids));
    assert after.Keys == before.Keys;
    forall id | id in before ensures after[id] == before[id] {
      if id in ids { assert id !in archive; }
    }
  }

  class DataLifecycleManager {
    var source: Table
    var archive: Table
    var recordsArchived: nat
    const batchSize: nat

    /** Identifiers are unique across both tables. */
    ghost predicate Valid()
      reads this
    {
      source.Keys !! archive.Keys && batchSize > 0
    }

    ghost function View(): Tables
      reads this
    {
      Tables(source, archive)
    }

    /** The oldest rows below the threshold, as many as the limit allows and the cursor delivers. */
    method SelectOldest(threshold: int, delivered: nat) returns (ids: set<string>)
      ensures Selected(source, threshold, ids, batchSize, delivered)
      ensures NoYounger(source, ids, Old(source, threshold) - ids)
    {
      ids := {};
      var all := Old(source, threshold);
      var rest := all;
      while |ids| < batchSize && |ids| < delivered && rest != {}
        invariant Parts(all, ids, rest) && |ids| <= batchSize && |ids| <= delivered
        invariant NoYounger(source, ids, rest)
        decreases |rest|
      {
        var id := Oldest(rest);
        OldestJoins(source, ids, rest, id);
        PartsShift(all, ids, rest, id);
        ids, rest := ids + {id}, rest - {id};
      }
      PickedAll(source, threshold, ids, rest, batchSize, delivered);
    }

    method Oldest(ids: set<string>) returns (id: string)
      requires ids != {} && ids <= source.Keys
      ensures id in ids && NoYounger(source, {id}, ids)
    {
      id :| id in ids;
      var rest := ids - {id};
      while rest != {}
        invariant rest <= ids && id in ids
        invariant forall b :: b in ids - rest ==> source[id].createdAt <= source[b].createdAt
        decreases rest
      {
        var b :| b in rest;
        rest := rest - {b};
        if source[b].createdAt < source[id].createdAt { id := b; }
      }
    }

    /** One transaction: the rows are inserted there and deleted here. */
    method ProcessBatch(ids: set<string>)
      requires ids <= source.Keys
      modifies this
      ensures View() == MoveRows(old(View()), ids) && recordsArchived == old(recordsArchived) + |ids|
    {
      archive := archive + Rows(source, ids);
      source := source - ids;
      recordsArchived := recordsArchived + |ids|;
    }

    /**
     One round after so many full ones: a query, and one transaction that inserts the rows there and deletes them
     here, or fails and changes nothing. It ends the work, or is one more full round.
     */
    method ArchiveRound(job: Job, round: nat, ghost moved: set<string>, ghost archived: nat)
      returns (ending: Option<Ending>, ghost moved': set<string>)
      requires job.limit == batchSize > 0
      requires Progress(job, round, moved, View()) && recordsArchived == archived + |moved|
      modifies this
      ensures ending.Some? ==> Ended(job, ending.value, round, moved', View())
      ensures ending.None? ==> Progress(job, round + 1, moved', View())
      ensures ending.None? ==> |moved| < |moved'| <= |Old(job.start.source, job.threshold)|
      ensures recordsArchived == archived + |moved'| && source.Keys !! archive.Keys
    {
      MovedDisjoint(job.start, job.threshold, moved, View());
      var ids := SelectOldest(job.threshold, job.delivered(round));
      moved' := moved;
      if job.fails(round) { return Some(FailedAt(round)), moved; }
      RoundOutcome(job, round, moved, View(), ids);
      moved' := moved + ids;
      ProcessBatch(ids);
      MovedDisjoint(job.start, job.threshold, moved', View());
      if |ids| < batchSize { return Some(Finished), moved'; }
      return if job.cancelled(round) then Some(CancelledAt(round)) else None, moved';
    }

    /**
     However it ends, some rows below the threshold have moved as they were and all others have stayed, and the
     counter has gone up by their number. It does end, because a full batch leaves fewer behind.
     */
    method PerformArchival(job: Job) returns (ending: Ending, round: nat, ghost moved: set<string>)
      requires Valid() && job.start == View() && job.limit == batchSize
      modifies this
      ensures Valid() && Ended(job, ending, round, moved, View())
      ensures recordsArchived == old(recordsArchived) + |moved|
    {
      round, moved := 0, {};
      ghost var archived, total := recordsArchived, |Old(job.start.source, job.threshold)|;
      StartsEmpty(job);
      while true
        invariant Progress(job, round, moved, View()) && recordsArchived == archived + |moved|
        decreases total - |moved|
      {
        var ended;
        ended, moved := ArchiveRound(job, round, moved, archived);
        if ended.Some? { return ended.value, round, moved; }
        round := round + 1;
      }
    }
  }

  /** Nothing stops the work in the first rounds. */
  ghost predicate Undisturbed(fails: nat -> bool, cancelled: nat -> bool, rounds: nat) {
    forall k: nat :: k < rounds ==> !fails(k) && !cancelled(k)
  }

  lemma PageFits(round: nat, batchSize: nat, total: nat)
    requires batchSize > 0 && round * batchSize <= total
    ensures round <= total / batchSize
  {
    var q := total / batchSize;
    assert total < q * batchSize + batchSize;
    if q < round { MorePages(q + 1, round, batchSize); }
  }

  lemma MorePages(few: nat, many: nat, batchSize: nat)
    requires few <= many
    ensures few * batchSize <= many * batchSize
  {
    assert (many - few) * batchSize >= 0;
  }

  /** Pages of a table in the order of its identifiers, appended one by one. */
  method CopyTableData<R>(rows: seq<R>, dest: seq<R>, batchSize: nat, fails: nat -> bool, cancelled: nat -> bool)
    returns (copy: seq<R>, processed: nat, ending: Ending)
    requires batchSize > 0
    ensures processed <= |rows| && copy == dest + rows[..processed]
    ensures ending.Finished? ==> processed == |rows|
    ensures !ending.Finished? ==> processed == ending.round * batchSize && Undisturbed(fails, cancelled, ending.round)
    ensures ending.CancelledAt? ==> cancelled(ending.round)
    ensures ending.FailedAt? ==> fails(ending.round) && !cancelled(ending.round)
    ensures Undisturbed(fails, cancelled, |rows| / batchSize + 1) ==> ending.Finished?
  {
    var offset, round := 0, 0;
    copy, processed := dest, 0;
    assert rows[..0] == [];
    while true
      invariant offset <= |rows| && processed == offset && copy == dest + rows[..offset]
      invariant offset == round * batchSize && Undisturbed(fails, cancelled, round) && round <= |rows| / batchSize
      decreases |rows| - offset
    {
      if cancelled(round) { return copy, processed, CancelledAt(round); }
      if fails(round) { return copy, processed, FailedAt(round); }
      var end := if offset + batchSize < |rows| then offset + batchSize else |rows|;
      var page := rows[offset..end];
      assert rows[..offset] + page == rows[..end];
      copy := copy + page;
      processed := processed + |page|;
      if |page| < batchSize { return copy, processed, Finished; }
      offset, round := offset + batchSize, round + 1;
      PageFits(round, batchSize, |rows|);
    }
  }
}
