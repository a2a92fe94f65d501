/** Two short histories in which memory and a reload differ: why the theorems of HistoryLog
    allow trimmed rows to come back, and why they ask for stamped records. */
module HistoryExamples {

  import opened HistoryLog

  function Sample(id: string, status: Status, started: nat): Row {
    Row(id, id, status, started, false, 0)
  }

  lemma MergeFresh(list: seq<Row>, rec: Row)
    requires !HasId(list, rec.id) && rec.id != ""
    ensures Merge(list, rec) == list + [rec]
  {
    IndexFound(list, rec.id);
    WithoutAbsent(list, rec.id);
  }

  lemma PairFacts(a: Row, b: Row)
    requires a.id != b.id
    ensures UniqueIds([a]) && UniqueIds([b]) && UniqueIds([a, b])
    ensures Without([b], b.id) == [] && Without([a, b], b.id) == [a] && Without([a, b], a.id) == [b]
    ensures Durables([a, b]) == (if IsDurable(a.status) then 1 else 0) + (if IsDurable(b.status) then 1 else 0)
    ensures IsDurable(a.status) ==> DropDurable([a, b], 1) == [b]
  {
    assert [a, b][1..] == [b] && [b][1..] == [];
    DropFacts([b], 0);
  }

  lemma TrioFacts(a: Row, b: Row, c: Row)
    requires a.id != b.id && a.id != c.id && b.id != c.id
    ensures UniqueIds([a, b, c]) && Without([a, b, c], c.id) == [a, b]
    ensures Durables([a, b, c]) == (if IsDurable(a.status) then 1 else 0) + Durables([b, c])
    ensures IsDurable(a.status) ==> DropDurable([a, b, c], 1) == [b, c]
  {
    PairFacts(b, c);
    assert [a, b, c][1..] == [b, c];
    DropFacts([b, c], 0);
  }

  lemma LoadedAppend(rows: seq<Row>, row: Row, keep: nat)
    requires UniqueIds(rows) && AllNamed(rows) && keep > 0 && Durables(Merge(rows, row)) <= keep
    ensures Loaded(Lines(rows) + [Good(row)], keep, {}).mem == Merge(rows, row)
  {
    ReplayLines(rows);
    ReplayAppend(Lines(rows), row);
    DropFacts(Merge(rows, row), 0);
  }

  lemma MergeOverLast(init: seq<Row>, last: Row, rec: Row)
    requires UniqueIds(init + [last]) && rec.id == last.id && rec.id != "" && rec.started != 0
    ensures Merge(init + [last], rec) == init + [rec]
  {
    UniqueInit(init, last);
    WithoutLast(init, last);
  }

  lemma {:induction false} WithoutLast(init: seq<Row>, last: Row)
    requires !HasId(init, last.id)
    ensures Without(init + [last], last.id) == init
  {
    if init != [] {
      InCons(init);
      assert (init + [last])[1..] == init[1..] + [last];
      WithoutLast(init[1..], last);
    }
  }

  lemma RewriteLast(log: Log, init: seq<Row>, last: Row, rec: Row, keep: nat)
    requires log.mem == init + [last] && UniqueIds(log.mem) && |log.file| < 2 * keep
    requires rec.id == last.id && rec.id != "" && rec.started != 0 && Durables(init + [rec]) <= keep
    ensures Upserted(log, rec, keep).mem == init + [rec]
    ensures Upserted(log, rec, keep).file == log.file + [Good(rec)]
  {
    MergeOverLast(init, last, rec);
    DropFacts(init + [rec], 0);
  }

  /** Three durable rows were written and keep = 2 trimmed the first. */
  lemma ThreeWritten(a: Row, b: Row, c: Row)
    requires a.id != b.id && a.id != c.id && b.id != c.id && AllNamed([a, b, c])
    requires IsDurable(a.status) && IsDurable(b.status) && IsDurable(c.status)
    ensures Inv(Log([b, c], Lines([a, b, c]), {a}), 2) && Replay(Lines([a, b, c])) == [a, b, c]
    ensures UniqueIds([b, c]) && UniqueIds([a, b, c]) && Durables([b, c]) == 2
  {
    PairFacts(b, c);
    TrioFacts(a, b, c);
    ReplayLines([a, b, c]);
    TrimIs([a, b, c], 1);
  }

  lemma LastReopened(log: Log, a: Row, b: Row, c: Row, c2: Row)
    requires a.id != b.id && a.id != c.id && b.id != c.id && AllNamed([a, b, c])
    requires IsDurable(a.status) && IsDurable(b.status) && !IsDurable(c2.status)
    requires c2.id == c.id && c2.id != "" && c2.started != 0
    requires log.mem == [b, c] && log.file == Lines([a, b, c]) && UniqueIds([b, c]) && UniqueIds([a, b, c])
    ensures Upserted(log, c2, 2).mem == [b, c2]
    ensures Loaded(Upserted(log, c2, 2).file, 2, {}).mem == [a, b, c2]
  {
    PairFacts(b, c2);
    TrioFacts(a, b, c2);
    assert [b] + [c] == [b, c] && [b] + [c2] == [b, c2];
    RewriteLast(log, [b], c, c2, 2);
    assert [a, b] + [c] == [a, b, c] && [a, b] + [c2] == [a, b, c2];
    MergeOverLast([a, b], c, c2);
    LoadedAppend([a, b, c], c2, 2);
  }

  /** With keep = 2: a was trimmed when c finished; c goes back to in-flight; a crash now
      brings a back. So reload and memory differ, though every record was stamped. */
  lemma ReloadCanResurrect()
    ensures var a, b, c, c2 := Sample("a", IMPORTED, 1), Sample("b", IMPORTED, 2),
                               Sample("c", IMPORTED, 3), Sample("c", EXTRACTING, 3);
            var log := Log([b, c], Lines([a, b, c]), {a});
            && Inv(log, 2)
            && Upserted(log, c2, 2).mem == [b, c2]
            && Loaded(Upserted(log, c2, 2).file, 2, {}).mem == [a, b, c2]
  {
    var a, b, c, c2 := Sample("a", IMPORTED, 1), Sample("b", IMPORTED, 2),
                       Sample("c", IMPORTED, 3), Sample("c", EXTRACTING, 3);
    ThreeWritten(a, b, c);
    LastReopened(Log([b, c], Lines([a, b, c]), {a}), a, b, c, c2);
  }

  lemma MergeOverFirst(list: seq<Row>, rec: Row)
    requires list != [] && rec.id == list[0].id && rec.id != "" && rec.started == 0
    ensures Merge(list, rec) == list[1..] + [rec.(started := list[0].started)]
  {
  }

  /** Without a start time the file can disagree even on an in-flight row: a is trimmed,
      then written again unstamped, and the reload copies the old row's start time. */
  lemma UnstampedDiverges()
    ensures var a, b, c, a2 := Sample("a", IMPORTED, 1), Sample("b", IMPORTED, 2),
                               Sample("c", IMPORTED, 3), Sample("a", QUEUED, 0);
            var log := Log([b, c], Lines([a, b, c]), {a});
            && Inv(log, 2)
            && Upserted(log, a2, 2).mem == [b, c, a2]
            && Loaded(Upserted(log, a2, 2).file, 2, {}).mem == [b, c, a2.(started := 1)]
  {
    var a, b, c, a2 := Sample("a", IMPORTED, 1), Sample("b", IMPORTED, 2),
                       Sample("c", IMPORTED, 3), Sample("a", QUEUED, 0);
    ThreeWritten(a, b, c);
    var log, back := Log([b, c], Lines([a, b, c]), {a}), a2.(started := 1);
    UnstampedMemory(b, c, a2, log);
    MergeOverFirst([a, b, c], a2);
    assert [a, b, c][1..] + [back] == [b, c, back];
    DurablesSnoc([b, c], back);
    assert [b, c] + [back] == [b, c, back];
    LoadedAppend([a, b, c], a2, 2);
  }

  lemma UnstampedMemory(b: Row, c: Row, rec: Row, log: Log)
    requires log.mem == [b, c] && |log.file| == 3 && Durables([b, c]) == 2
    requires rec.id != "" && b.id != rec.id && c.id != rec.id && !IsDurable(rec.status)
    ensures Upserted(log, rec, 2).mem == [b, c, rec] && Upserted(log, rec, 2).file == log.file + [Good(rec)]
  {
    MergeFresh([b, c], rec);
    assert [b, c] + [rec] == [b, c, rec];
    DurablesSnoc([b, c], rec);
    DropFacts([b, c, rec], 0);
  }

  // ---------------------------------------------------------------- a forgotten row that returns

  lemma QuartetFacts(a: Row, b: Row, c: Row, d: Row)
    requires a.id != b.id && a.id != c.id && a.id != d.id && b.id != c.id && b.id != d.id && c.id != d.id
    ensures UniqueIds([a, b, c, d])
    ensures Durables([a, b, c, d]) == (if IsDurable(a.status) then 1 else 0) + Durables([b, c, d])
    ensures IsDurable(a.status) ==> DropDurable([a, b, c, d], 1) == [b, c, d]
  {
    TrioFacts(b, c, d);
    assert [a, b, c, d][1..] == [b, c, d];
    DropFacts([b, c, d], 0);
  }

  lemma ReplaceLast(init: seq<Row>, last: Row, rec: Row, keep: nat)
    requires UniqueIds(init + [last]) && rec.id == last.id && rec.id != "" && rec.started != 0
    requires keep > 0 && Durables(init + [rec]) <= keep
    ensures Merge(init + [last], rec) == Cap(Merge(init + [last], rec), keep) == init + [rec]
  {
    MergeOverLast(init, last, rec);
    DropFacts(init + [rec], 0);
  }

  /** keep = 3: the last of four becomes durable, so the first is trimmed; marking the first
      as forgotten then changes nothing. */
  lemma TrimmedUnmarked(a: Row, b: Row, d: Row, c: Row, failed: Row)
    requires a.id != b.id && a.id != d.id && a.id != c.id && b.id != d.id && b.id != c.id && d.id != c.id
    requires IsDurable(a.status) && IsDurable(b.status) && IsDurable(d.status) && IsDurable(failed.status)
    requires failed.id == c.id && c.id != "" && failed.started != 0
    ensures var log := Upserted(Log([a, b, d, c], Lines([a, b, d, c]), {}), failed, 3);
            && log.mem == [b, d, failed] && log.file == Lines([a, b, d, c]) + [Good(failed)]
            && Marked(log, a.id, 3) == log
  {
    QuartetFacts(a, b, d, c);
    QuartetFacts(a, b, d, failed);
    TrioFacts(b, d, failed);
    PairFacts(d, failed);
    assert [a, b, d] + [c] == [a, b, d, c] && [a, b, d] + [failed] == [a, b, d, failed];
    MergeOverLast([a, b, d], c, failed);
    assert Excess([a, b, d, failed], 3) == 1;
  }

  /** Three rows in memory, the last of which is written again as in-flight. */
  lemma QueuedAgain(b: Row, d: Row, failed: Row, queued: Row, log: Log)
    requires b.id != d.id && b.id != failed.id && d.id != failed.id && IsDurable(b.status) && IsDurable(d.status)
    requires queued.id == failed.id && queued.id != "" && queued.started != 0 && !IsDurable(queued.status)
    requires log.mem == [b, d, failed] && |log.file| == 5
    ensures Upserted(log, queued, 3).mem == [b, d, queued]
    ensures Upserted(log, queued, 3).file == log.file + [Good(queued)]
  {
    TrioFacts(b, d, failed);
    TrioFacts(b, d, queued);
    PairFacts(d, queued);
    assert [b, d] + [failed] == [b, d, failed] && [b, d] + [queued] == [b, d, queued];
    ReplaceLast([b, d], failed, queued, 3);
  }

  /** The file of four rows, with two more lines for the last of them. */
  lemma ReadAgain(first: seq<Row>, c: Row, failed: Row, queued: Row)
    requires UniqueIds(first + [c]) && AllNamed(first + [c]) && failed.id == queued.id == c.id && c.id != ""
    requires failed.started != 0 && queued.started != 0 && UniqueIds(first + [failed])
    requires Durables(first + [queued]) <= 3
    ensures Loaded((Lines(first + [c]) + [Good(failed)]) + [Good(queued)], 3, {}).mem == first + [queued]
  {
    ReplayLines(first + [c]);
    ReplayAppend(Lines(first + [c]), failed);
    MergeOverLast(first, c, failed);
    ReplayAppend(Lines(first + [c]) + [Good(failed)], queued);
    ReplaceLast(first, failed, queued, 3);
  }

  lemma QueuedReturns(a: Row, b: Row, d: Row, c: Row, failed: Row, queued: Row, log: Log)
    requires a.id != b.id && a.id != d.id && a.id != c.id && b.id != d.id && b.id != c.id && d.id != c.id
    requires AllNamed([a, b, d, c]) && IsDurable(a.status) && IsDurable(b.status) && IsDurable(d.status)
    requires failed.id == queued.id == c.id && c.id != "" && failed.started != 0 && queued.started != 0
    requires !IsDurable(queued.status)
    requires log.mem == [b, d, failed] && log.file == Lines([a, b, d, c]) + [Good(failed)]
    ensures Upserted(log, queued, 3).mem == [b, d, queued]
    ensures Loaded(Upserted(log, queued, 3).file, 3, {}).mem == [a, b, d, queued]
  {
    QueuedAgain(b, d, failed, queued, log);
    QuartetFacts(a, b, d, c);
    QuartetFacts(a, b, d, failed);
    QuartetFacts(a, b, d, queued);
    TrioFacts(b, d, queued);
    PairFacts(d, queued);
    assert [a, b, d] + [c] == [a, b, d, c] && [a, b, d] + [failed] == [a, b, d, failed];
    assert [a, b, d] + [queued] == [a, b, d, queued];
    ReadAgain([a, b, d], c, failed, queued);
  }

  /** So the user's "forget" is lost: the file still holds the row as imported, and once the
      last one goes back to in-flight a crash brings it back, not forgotten. */
  lemma ForgottenRowReturns()
    ensures var a, b, d, c := Sample("a", IMPORTED, 1), Sample("b", EXTRACTFAILED, 2),
                              Sample("d", EXTRACTFAILED, 3), Sample("c", EXTRACTING, 4);
            var failed, queued := Sample("c", EXTRACTFAILED, 4), Sample("c", QUEUED, 5);
            var log := Upserted(Log([a, b, d, c], Lines([a, b, d, c]), {}), failed, 3);
            && Inv(Log([a, b, d, c], Lines([a, b, d, c]), {}), 3)
            && Marked(log, "a", 3) == log && log.mem == [b, d, failed]
            && Loaded(Upserted(log, queued, 3).file, 3, {}).mem == [a, b, d, queued] && !a.forgotten
  {
    var a, b, d, c := Sample("a", IMPORTED, 1), Sample("b", EXTRACTFAILED, 2),
                      Sample("d", EXTRACTFAILED, 3), Sample("c", EXTRACTING, 4);
    var failed, queued := Sample("c", EXTRACTFAILED, 4), Sample("c", QUEUED, 5);
    TrimmedUnmarked(a, b, d, c, failed);
    QueuedReturns(a, b, d, c, failed, queued, Upserted(Log([a, b, d, c], Lines([a, b, d, c]), {}), failed, 3));
    QuartetFacts(a, b, d, c);
    TrioFacts(b, d, c);
    PairFacts(d, c);
    ReplayLines([a, b, d, c]);
    DropFacts([a, b, d, c], 0);
    TrimIs([a, b, d, c], 0);
  }
}
