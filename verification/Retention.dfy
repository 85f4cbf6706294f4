/**
 * `deleteInBatches`: what the batched clean-up removes, whatever the batch size and selection order,
 * while others write to the same table and until it is told to stop.
 */
module Retention {
  import opened Wrappers

  type RowId = nat

  /** `expired` stands for the predicate both the selection and the deletion repeat. */
  datatype Row = Row(expired: bool)

  /** What others commit between two statements of the loop. */
  datatype Change = Change(removed: set<RowId>, written: map<RowId, Row>)

  datatype Failure = NotAPositiveInteger | Aborted

  function Eligible(rows: map<RowId, Row>): set<RowId> {
    set id | id in rows && rows[id].expired
  }

  /** The table after the n-th change, if there is one. */
  function Changed(rows: map<RowId, Row>, others: seq<Change>, n: nat): map<RowId, Row> {
    if n < |others| then rows - others[n].removed + others[n].written else rows
  }

  /** The table after those of the rows that are still eligible have been deleted. */
  function Deleted(rows: map<RowId, Row>, ids: set<RowId>): map<RowId, Row> {
    rows - (ids * Eligible(rows))
  }

  predicate Touched(others: seq<Change>, id: RowId) {
    exists i :: 0 <= i < |others| && (id in others[i].removed || id in others[i].written)
  }

  /** Eligible rows that nobody else writes to. */
  function Abandoned(rows: map<RowId, Row>, others: seq<Change>): set<RowId> {
    set id | id in Eligible(rows) && !Touched(others, id)
  }

  /** As far as rows nobody else writes to go, the table is the one before without those in `gone`. */
  ghost predicate Cleaned(before: map<RowId, Row>, rows: map<RowId, Row>, others: seq<Change>, gone: set<RowId>) {
    forall id :: !Touched(others, id) ==>
      && (id in rows <==> id in before && id !in gone)
      && (id in rows ==> rows[id] == before[id])
      && (id in gone ==> id in Eligible(before))
  }

  lemma {:induction false} BatchExists(s: set<RowId>, n: nat)
    requires n <= |s|
    ensures exists batch :: batch <= s && |batch| == n
    decreases |s| - n
  {
    if n < |s| {
      BatchExists(s, n + 1);
      var larger :| larger <= s && |larger| == n + 1;
      var x :| x in larger;
      assert larger - {x} <= s && |larger - {x}| == n;
    }
  }

  lemma WholeBatch(ids: set<RowId>, eligible: set<RowId>)
    requires ids <= eligible && |ids| == |eligible|
    ensures ids == eligible
  {
    assert eligible == ids + (eligible - ids);
  }

  lemma UnionSize(a: set<RowId>, b: set<RowId>)
    ensures |a + b| <= |a| + |b|
    ensures a !! b ==> |a + b| == |a| + |b|
  {
    assert a + b == a + (b - a);
    SubsetSize(b - a, b);
  }

  /** Once no eligible row is left that nobody else writes to, all there were have been removed. */
  lemma AbandonedAreGone(before: map<RowId, Row>, rows: map<RowId, Row>, others: seq<Change>, gone: set<RowId>)
    requires Cleaned(before, rows, others, gone) && Abandoned(rows, others) == {}
    ensures Cleaned(before, rows, others, Abandoned(before, others)) && |Abandoned(before, others)| <= |gone|
    ensures others == [] ==> gone == Eligible(before) && rows == before - Eligible(before)
  {
    forall id | id in Abandoned(before, others)
      ensures id in gone
    {
      assert id !in Abandoned(rows, others);
    }
    SubsetSize(Abandoned(before, others), gone);
    if others == [] {
      assert forall id :: !Touched(others, id);
    }
  }

  lemma ChangesKeepCleaned(before: map<RowId, Row>, rows: map<RowId, Row>, others: seq<Change>, gone: set<RowId>, n: nat)
    requires Cleaned(before, rows, others, gone)
    ensures Cleaned(before, Changed(rows, others, n), others, gone)
  {
    if n < |others| {
      assert forall id :: !Touched(others, id) ==> id !in others[n].removed && id !in others[n].written;
    }
  }

  lemma DeletionKeepsCleaned(before: map<RowId, Row>, rows: map<RowId, Row>, others: seq<Change>,
                             gone: set<RowId>, ids: set<RowId>)
    requires Cleaned(before, rows, others, gone)
    ensures Cleaned(before, Deleted(rows, ids), others, gone + ids * Eligible(rows))
    ensures others == [] ==> gone !! ids * Eligible(rows)
  {
    if others == [] {
      assert forall id :: !Touched(others, id);
    }
  }

  lemma NothingCleaned(before: map<RowId, Row>, others: seq<Change>)
    ensures Cleaned(before, before, others, {})
  {
  }

  lemma NothingLeft(rows: map<RowId, Row>, others: seq<Change>)
    ensures Eligible(rows) == {} ==> Abandoned(rows, others) == {}
  {
  }

  lemma Unchanged(rows: map<RowId, Row>, others: seq<Change>, n: nat)
    requires n >= |others|
    ensures Changed(rows, others, n) == Changed(rows, others, n + 1) == rows
  {
  }

  /** A batch of all eligible rows leaves none that nobody else writes to. */
  lemma ShortBatchIsLast(rows: map<RowId, Row>, others: seq<Change>, n: nat)
    ensures Abandoned(Deleted(Changed(rows, others, n), Eligible(rows)), others) == {}
  {
    if n < |others| {
      assert forall id :: !Touched(others, id) ==> id !in others[n].removed && id !in others[n].written;
    }
  }

  /** With nobody else at work, every batch makes the rest smaller. */
  lemma BatchesShrink(rows: map<RowId, Row>, ids: set<RowId>)
    requires ids <= Eligible(rows) && ids != {}
    ensures |Eligible(Deleted(rows, ids))| < |Eligible(rows)|
  {
    assert Eligible(rows) == ids + Eligible(Deleted(rows, ids));
    UnionSize(ids, Eligible(Deleted(rows, ids)));
  }

  class Table {
    var rows: map<RowId, Row>

    constructor (initial: map<RowId, Row>)
      ensures rows == initial
    {
      rows := initial;
    }

    /** Others commit their next change, if they have one left. */
    method OthersCommit(others: seq<Change>, n: nat)
      modifies this
      ensures rows == Changed(old(rows), others, n)
    {
      if n < |others| {
        rows := rows - others[n].removed + others[n].written;
      }
    }

    /** At most `take` eligible rows, any of them. */
    method SelectBatch(take: nat) returns (ids: set<RowId>)
      ensures ids <= Eligible(rows) && |ids| == Min(take, |Eligible(rows)|)
    {
      BatchExists(Eligible(rows), Min(take, |Eligible(rows)|));
      ids :| ids <= Eligible(rows) && |ids| == Min(take, |Eligible(rows)|);
    }

    /** Deletes those of the rows that are still eligible. */
    method DeleteBatch(ids: set<RowId>) returns (count: nat)
      modifies this
      ensures rows == Deleted(old(rows), ids) && count == |ids * Eligible(old(rows))|
    {
      var still := ids * Eligible(rows);
      rows := rows - still;
      return |still|;
    }

    /**
     * The loop, with `others[n]` committed before its n-th statement and a signal that is aborted from
     * its n-th check on. Of the rows nobody else writes to it removes eligible ones only; when it ends by
     * itself it has removed all of those, and counted no fewer. With nobody else at work it leaves the
     * table without its eligible rows and returns their exact number.
     */
    method DeleteInBatches(batchSize: int, others: seq<Change>, abortedFrom: Option<nat>) returns (r: Result<nat, Failure>)
      modifies this
      ensures batchSize < 1 <==> r == Err(NotAPositiveInteger)
      ensures batchSize < 1 ==> rows == old(rows)
      ensures r == Err(Aborted) ==> abortedFrom.Some?
      ensures batchSize >= 1 && abortedFrom == Some(0) ==> r == Err(Aborted) && rows == old(rows)
      ensures batchSize >= 1 ==> exists gone :: Cleaned(old(rows), rows, others, gone)
      ensures r.Ok? ==> Cleaned(old(rows), rows, others, Abandoned(old(rows), others))
      ensures r.Ok? ==> r.value >= |Abandoned(old(rows), others)|
      ensures r.Ok? && others == [] ==> rows == old(rows) - Eligible(old(rows)) && r.value == |Eligible(old(rows))|
    {
      if batchSize < 1 {
        return Err(NotAPositiveInteger);
      }
      hide Cleaned, Touched, Abandoned, Eligible, Changed, Deleted;
      ghost var before, gone: set<RowId> := rows, {};
      var deleted, n := 0, 0;
      NothingCleaned(before, others);
      while true
        invariant Cleaned(before, rows, others, gone)
        invariant deleted >= |gone| && (others == [] ==> deleted == |gone|)
        invariant (n == 0 ==> rows == before) && (abortedFrom == Some(0) ==> n == 0)
        decreases if n < |others| then |others| - n else 0, |Eligible(rows)|
      {
        ChangesKeepCleaned(before, rows, others, gone, n);
        if abortedFrom.Some? && abortedFrom.value <= n {
          return Err(Aborted);
        }
        OthersCommit(others, n);
        ghost var selected := rows;
        var ids := SelectBatch(batchSize);
        if |ids| == |Eligible(rows)| {
          WholeBatch(ids, Eligible(rows));
          ShortBatchIsLast(rows, others, n + 1);
        }
        if ids == {} {
          NothingLeft(rows, others);
          AbandonedAreGone(before, rows, others, gone);
          return Ok(deleted);
        }
        if abortedFrom.Some? && abortedFrom.value <= n + 1 {
          return Err(Aborted);
        }
        OthersCommit(others, n + 1);
        ghost var found := rows;
        ChangesKeepCleaned(before, selected, others, gone, n + 1);
        DeletionKeepsCleaned(before, found, others, gone, ids);
        UnionSize(gone, ids * Eligible(found));
        var count := DeleteBatch(ids);
        gone := gone + ids * Eligible(found);
        deleted := deleted + count;
        if |ids| < batchSize {
          AbandonedAreGone(before, rows, others, gone);
          return Ok(deleted);
        }
        if n >= |others| {
          Unchanged(selected, others, n);
          BatchesShrink(selected, ids);
        }
        n := n + 2;
      }
    }
  }
}
