/** What one merge, one trim and the reading of a whole file make of the rows, said row by
    row: which stay, which goes, and whose columns they have. */
module HistoryRows {

  import opened HistoryLog

  /** A row is in flight while there is something to do for it, and durable after that. */
  lemma DurableExactly(status: Status)
    ensures IsDurable(status) <==> status !in {WAITING, QUEUED, EXTRACTING, EXTRACTED, DELETING}
  {
  }

  /** The id that a record is filed under: its own, or its path when it has none. */
  function Key(rec: Row): string {
    if rec.id != "" then rec.id else rec.path
  }

  // ---------------------------------------------------------------- one merge

  lemma SliceCons(list: seq<Row>, i: nat)
    requires 0 < i < |list|
    ensures [list[0]] + (list[1..][..i - 1] + list[1..][i..]) == list[..i] + list[i + 1..]
  {
  }

  lemma {:induction false} WithoutSplits(list: seq<Row>, id: string, i: nat)
    requires i == IndexOfId(list, id) < |list|
    ensures Without(list, id) == list[..i] + list[i + 1..]
  {
    if i > 0 {
      WithoutSplits(list[1..], id, i - 1);
      SliceCons(list, i);
    }
  }

  /** A record replaces the row with its id, and goes to the end; the others stay in order.
      It has its own columns, and the start time of the row that it replaces when it has
      none. */
  lemma MergeExactly(list: seq<Row>, rec: Row) returns (i: nat)
    ensures i <= |list| && (forall k :: 0 <= k < i ==> list[k].id != Key(rec))
    ensures i < |list| ==> list[i].id == Key(rec)
    ensures Merge(list, rec)
         == if i < |list| then
              list[..i] + list[i + 1..]
              + [rec.(id := Key(rec), started := if rec.started != 0 then rec.started else list[i].started)]
            else list + [rec.(id := Key(rec))]
  {
    i := IndexOfId(list, Key(rec));
    IndexFound(list, Key(rec));
    if i < |list| {
      WithoutSplits(list, Key(rec), i);
    } else {
      WithoutAbsent(list, Key(rec));
    }
  }

  // ---------------------------------------------------------------- one trim

  lemma {:induction false} DropSplit(a: seq<Row>, b: seq<Row>, k: nat)
    ensures DropDurable(a + b, k)
         == DropDurable(a, k) + DropDurable(b, if k > Durables(a) then k - Durables(a) else 0)
  {
    if a == [] {
      assert a + b == b;
    } else {
      assert (a + b)[1..] == a[1..] + b;
      DropSplit(a[1..], b, if k > 0 && IsDurable(a[0].status) then k - 1 else k);
    }
  }

  lemma {:induction false} DurablesConcat(a: seq<Row>, b: seq<Row>)
    ensures Durables(a + b) == Durables(a) + Durables(b)
  {
    if a == [] {
      assert a + b == b;
    } else {
      assert (a + b)[1..] == a[1..] + b;
      DurablesConcat(a[1..], b);
    }
  }

  lemma DropOne(row: Row, after: seq<Row>, k: nat)
    ensures DropDurable([row] + after, k)
         == if k > 0 && IsDurable(row.status) then DropDurable(after, k - 1) else [row] + DropDurable(after, k)
    ensures Durables([row] + after) == Durables(after) + if IsDurable(row.status) then 1 else 0
  {
    assert ([row] + after)[1..] == after;
  }

  /** The row and what comes after it, when k durable rows are to go from there. */
  lemma RowGoes(row: Row, after: seq<Row>, keep: nat, k: nat)
    requires keep > 0
    requires k == var d := Durables(after) + (if IsDurable(row.status) then 1 else 0); if d > keep then d - keep else 0
    ensures DropDurable([row] + after, k)
         == (if IsDurable(row.status) && Durables(after) >= keep then [] else [row]) + Cap(after, keep)
  {
    DropOne(row, after, k);
    DropNothing(after);
    if IsDurable(row.status) && k > 0 {
      assert [] + Cap(after, keep) == Cap(after, keep);
    }
  }

  lemma Regroup(a: seq<Row>, b: seq<Row>, c: seq<Row>)
    ensures a + (b + c) == a + b + c
  {
  }

  /** A row goes exactly when it is durable and at least `keep` durable rows come after it;
      what comes after is trimmed as if nothing came before. */
  lemma CapExactly(list: seq<Row>, i: nat, keep: nat)
    requires i < |list| && keep > 0
    ensures var row, after := list[i], list[i + 1..];
            Cap(list, keep)
            == DropDurable(list[..i], if Durables(list) > keep then Durables(list) - keep else 0)
               + (if IsDurable(row.status) && Durables(after) >= keep then [] else [row]) + Cap(after, keep)
  {
    var before, row, after := list[..i], list[i], list[i + 1..];
    var excess := Excess(list, keep);
    var left := if excess > Durables(before) then excess - Durables(before) else 0;
    assert list == before + ([row] + after);
    DropSplit(before, [row] + after, excess);
    DurablesConcat(before, [row] + after);
    DropOne(row, after, 0);
    RowGoes(row, after, keep, left);
    Regroup(DropDurable(before, excess), if IsDurable(row.status) && Durables(after) >= keep then [] else [row],
            Cap(after, keep));
  }

  lemma {:induction false} DropNothing(list: seq<Row>)
    ensures DropDurable(list, 0) == list
  {
    if list != [] {
      DropNothing(list[1..]);
    }
  }

  /** Without a limit nothing is trimmed, and the file is never written again. */
  lemma NoLimit(log: Log, rec: Row)
    ensures Cap(log.mem, 0) == log.mem
    ensures var row := Stored(log.mem, rec);
            Upserted(log, rec, 0) == Log(Merge(log.mem, rec), log.file + [Good(row)], Upserted(log, rec, 0).trimmed)
  {
  }

  // ---------------------------------------------------------------- what is noted, and what the user deletes

  /** Noted as trimmed is exactly what an upsert or a reload takes out of memory. */
  lemma TrimmedExactly(log: Log, rec: Row, keep: nat, row: Row)
    requires keep > 0
    ensures row in Upserted(log, rec, keep).trimmed
       <==> row in log.trimmed || (row in Merge(log.mem, rec) && row !in Upserted(log, rec, keep).mem)
    ensures var next := Loaded(log.file, keep, log.trimmed);
            row in next.trimmed <==> row in log.trimmed || (row in Replay(log.file) && row !in next.mem)
  {
  }

  /** The user deletes exactly a durable row, from memory and file; a row in flight and an
      id without a row are refused, and nothing changes. */
  lemma DeletedExactly(log: Log, id: string)
    requires UniqueIds(log.mem)
    ensures var next := Deleted(log, id);
            if exists row :: row in log.mem && row.id == id && IsDurable(row.status) then
              && next == Log(Without(log.mem, id), Lines(Without(log.mem, id)), log.trimmed)
              && forall row :: row in next.mem <==> row in log.mem && row.id != id
            else next == log
  {
    IndexFound(log.mem, id);
    WithoutFacts(log.mem, id);
    var i := IndexOfId(log.mem, id);
    if i < |log.mem| {
      forall row | row in log.mem && row.id == id ensures row == log.mem[i] {
        UniqueRow(log.mem, row, log.mem[i]);
      }
    }
  }

  // ---------------------------------------------------------------- a whole file

  /** The last record under an id is the i-th. */
  predicate LastUnder(recs: seq<Row>, id: string, i: nat) {
    i < |recs| && Key(recs[i]) == id && forall k :: i < k < |recs| ==> Key(recs[k]) != id
  }

  /** The columns that a record sets. */
  predicate FromRecord(row: Row, rec: Row) {
    && row.path == rec.path && row.status == rec.status && row.forgotten == rec.forgotten && row.body == rec.body
    && (rec.started != 0 ==> row.started == rec.started)
  }

  lemma MergedRow(list: seq<Row>, rec: Row, id: string)
    requires UniqueIds(list)
    ensures HasId(Merge(list, rec), id) <==> Key(rec) == id || HasId(list, id)
    ensures forall row :: row in Merge(list, rec) && row.id == id ==>
              if Key(rec) == id then FromRecord(row, rec) else row in list
  {
    WithoutFacts(list, Key(rec));
    IndexFound(list, Key(rec));
    assert Named(rec).id == Key(rec);
    assert Stored(list, rec) in Merge(list, rec);
    assert forall row :: row in Without(list, Key(rec)) ==> row in Merge(list, rec);
  }

  lemma LastSnoc(init: seq<Row>, last: Row, id: string, i: nat)
    ensures LastUnder(init + [last], id, i) <==> if Key(last) == id then i == |init| else LastUnder(init, id, i)
  {
    var recs := init + [last];
    assert forall k :: 0 <= k < |init| ==> recs[k] == init[k];
    assert recs[|init|] == last;
  }

  lemma {:induction false} RowsOfRecords(recs: seq<Row>, id: string)
    ensures HasId(MergeAll([], recs), id) <==> exists rec :: rec in recs && Key(rec) == id
  {
    if recs != [] {
      var init, last := recs[..|recs| - 1], recs[|recs| - 1];
      RowsOfRecords(init, id);
      MergeAllFacts(init);
      MergedRow(MergeAll([], init), last, id);
      assert recs == init + [last];
    }
  }

  /** After reading any records there is a row under an id exactly when some record had it
      (RowsOfRecords), and it has the columns of the last one that did. */
  lemma {:induction false} LastWriteWins(recs: seq<Row>, id: string, row: Row, i: nat)
    requires row in MergeAll([], recs) && row.id == id && LastUnder(recs, id, i)
    ensures FromRecord(row, recs[i])
  {
    var init, last := recs[..|recs| - 1], recs[|recs| - 1];
    MergeAllFacts(init);
    MergedRow(MergeAll([], init), last, id);
    assert recs == init + [last];
    LastSnoc(init, last, id, i);
    if Key(last) != id {
      LastWriteWins(init, id, row, i);
    }
  }
}
