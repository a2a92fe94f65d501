/** Lifecycle with the history file of HistoryLog in place of its own notes: every run of
    the two together is a run of Lifecycle, in which the history trims rows one by one and a
    restart loads what the file gives back. So what is proved of the runs of Lifecycle holds
    with the file. */
module LifecycleHistory {

  import opened HistoryLog
  import opened Lifecycle
  import opened LifecycleRuns
  import opened LifecycleSafety

  // ---------------------------------------------------------------- the rows of the log

  function Ids(list: seq<Row>): set<string> {
    set row | row in list :: row.id
  }

  function DurableIds(list: seq<Row>): set<string> {
    set row | row in list && IsDurable(row.status) :: row.id
  }

  lemma {:induction false} IdsCons(list: seq<Row>)
    requires list != [] && UniqueIds(list)
    ensures Ids(list) == {list[0].id} + Ids(list[1..]) && list[0].id !in Ids(list[1..])
    ensures DurableIds(list) == DurableIds(list[1..]) + if IsDurable(list[0].status) then {list[0].id} else {}
  {
    InCons(list);
  }

  lemma {:induction false} DurablesAreIds(list: seq<Row>)
    requires UniqueIds(list)
    ensures |DurableIds(list)| == Durables(list) && DurableIds(list) <= Ids(list)
  {
    if list != [] {
      DurablesAreIds(list[1..]);
      IdsCons(list);
    }
  }

  lemma {:induction false} WithoutOne(list: seq<Row>, id: string)
    requires UniqueIds(list)
    ensures Durables(list) <= Durables(Without(list, id)) + 1
  {
    if list != [] {
      WithoutOne(list[1..], id);
      var rest := Without(list[1..], id);
      assert ([list[0]] + rest)[1..] == rest;
    }
  }

  // ---------------------------------------------------------------- one upsert

  /** An upsert files the stored row last, and trims rows only from a memory that stays full
      of durable ones. */
  lemma UpsertMem(log: Log, rec: Row, keep: nat)
    requires Inv(log, keep) && Named(rec) == rec
    ensures var next, row := Upserted(log, rec, keep).mem, Stored(log.mem, rec);
            && (forall r :: r in next ==> r == row || (r in log.mem && r.id != rec.id)) && row in next
            && (forall r :: r in log.mem && r !in next && r.id != rec.id ==>
                  IsDurable(r.status) && Durables(next) == keep)
            && (IsDurable(rec.status) && Durables(log.mem) == keep ==> Durables(next) == keep)
            && (!IsDurable(rec.status) ==> forall r :: r in log.mem && r.id != rec.id ==> r in next)
  {
    MemFacts(log, keep);
    UpsertShape(log.mem, rec, keep);
    var rest, row := Without(log.mem, rec.id), Stored(log.mem, rec);
    var excess := Excess(Merge(log.mem, rec), keep);
    WithoutFacts(log.mem, rec.id);
    WithoutLength(log.mem, rec.id);
    WithoutOne(log.mem, rec.id);
    DurablesSnoc(rest, row);
    DropFacts(rest, excess);
    DurablesSnoc(DropDurable(rest, excess), row);
  }

  /** What the file gives back after it. */
  lemma UpsertReplay(log: Log, rec: Row, keep: nat)
    requires Inv(log, keep) && Named(rec) == rec && Stamped(log, rec)
    ensures forall r :: r in Replay(Upserted(log, rec, keep).file) ==>
              r == Stored(log.mem, rec) || (r in Replay(log.file) && r.id != rec.id)
  {
    MemFacts(log, keep);
    UpsertShape(log.mem, rec, keep);
    UpsertMem(log, rec, keep);
    var next := Upserted(log, rec, keep);
    if |log.file| >= 2 * keep {
      ReplayLines(next.mem);
    } else {
      ReplayAppend(log.file, Stored(log.mem, rec));
      StoredAgrees(log, rec, keep);
      ReplayFacts(log.file);
      WithoutFacts(Replay(log.file), rec.id);
    }
  }

  // ---------------------------------------------------------------- the log and the notes

  /** What a history row says of an item: its status and flag are read by the history, and
      its columns, whatever they are, only copied. */
  predicate Says(code: Extract -> int, row: Row, r: HistoryRow) {
    row.status == r.item.status && row.forgotten == r.forgotten && row.body == code(r.item)
  }

  /** Every row that the file gives back is the last one written under its title. */
  ghost predicate RowsAgree(code: Extract -> int, rows: map<string, HistoryRow>, log: Log) {
    "" !in rows && forall row :: row in Replay(log.file) ==> row.id in rows && Says(code, row, rows[row.id])
  }

  /** The titles in memory are noted, and what is noted besides them was trimmed: durable
      rows, from a memory that is full of them. */
  ghost predicate Behind(code: Extract -> int, keep: nat, rows: map<string, HistoryRow>, kept: set<string>, log: Log) {
    && Inv(log, keep) && RowsAgree(code, rows, log)
    && Ids(log.mem) <= kept <= rows.Keys
    && forall t :: t in kept && t !in Ids(log.mem) ==> IsDurable(rows[t].item.status) && Durables(log.mem) == keep
  }

  /** Exactly the titles in memory are noted. */
  ghost predicate Matches(code: Extract -> int, keep: nat, s: State, log: Log) {
    Behind(code, keep, s.rows, s.kept, log) && s.kept == Ids(log.mem)
  }

  /** A record of a title, as maybeRecordHistory makes it. */
  predicate IsRecord(code: Extract -> int, rec: Row, t: string, r: HistoryRow) {
    rec.id == t != "" && Says(code, rec, r)
  }

  lemma UpsertAgrees(code: Extract -> int, keep: nat, rows: map<string, HistoryRow>, log: Log, rec: Row, t: string,
                     r: HistoryRow)
    requires Inv(log, keep) && RowsAgree(code, rows, log) && IsRecord(code, rec, t, r) && Stamped(log, rec)
    ensures Inv(Upserted(log, rec, keep), keep) && RowsAgree(code, rows[t := r], Upserted(log, rec, keep))
  {
    UpsertedInv(log, rec, keep);
    UpsertReplay(log, rec, keep);
  }

  lemma StillMissing(code: Extract -> int, keep: nat, rows: map<string, HistoryRow>, kept: set<string>, log: Log,
                     rec: Row, u: string)
    requires Behind(code, keep, rows, kept, log) && Named(rec) == rec
    requires IsDurable(rec.status) || kept == Ids(log.mem)
    requires u in kept && u != rec.id && u !in Ids(Upserted(log, rec, keep).mem)
    ensures IsDurable(rows[u].item.status) && Durables(Upserted(log, rec, keep).mem) == keep
  {
    UpsertMem(log, rec, keep);
    if u in Ids(log.mem) {
      MemFacts(log, keep);
      var row :| row in log.mem && row.id == u;
      assert row !in Upserted(log, rec, keep).mem;
    }
  }

  lemma UpsertIds(log: Log, rec: Row, keep: nat)
    requires Inv(log, keep) && Named(rec) == rec
    ensures rec.id in Ids(Upserted(log, rec, keep).mem)
    ensures Ids(Upserted(log, rec, keep).mem) <= Ids(log.mem) + {rec.id}
  {
    UpsertMem(log, rec, keep);
    IndexFound(log.mem, rec.id);
  }

  lemma UpsertBehind(code: Extract -> int, keep: nat, rows: map<string, HistoryRow>, kept: set<string>, log: Log,
                     rec: Row, t: string, r: HistoryRow)
    requires Behind(code, keep, rows, kept, log) && IsRecord(code, rec, t, r) && Stamped(log, rec)
    requires IsDurable(rec.status) || kept == Ids(log.mem)
    ensures Behind(code, keep, rows[t := r], kept + {t}, Upserted(log, rec, keep))
  {
    UpsertAgrees(code, keep, rows, log, rec, t, r);
    UpsertIds(log, rec, keep);
    forall u | u in kept + {t} && u !in Ids(Upserted(log, rec, keep).mem)
      ensures IsDurable(rows[t := r][u].item.status) && Durables(Upserted(log, rec, keep).mem) == keep {
      StillMissing(code, keep, rows, kept, log, rec, u);
    }
  }

  // ---------------------------------------------------------------- many upserts

  function UpsertedAll(log: Log, recs: seq<Row>, keep: nat): Log {
    if recs == [] then log else Upserted(UpsertedAll(log, recs[..|recs| - 1], keep), recs[|recs| - 1], keep)
  }

  /** The record of a row that is written, with its start time, as historyFromExtract makes
      it. */
  predicate RecordIn(code: Extract -> int, rec: Row, written: map<string, HistoryRow>) {
    rec.id in written && IsRecord(code, rec, rec.id, written[rec.id]) && rec.started != 0
  }

  function Titles(recs: seq<Row>): set<string> {
    set rec | rec in recs :: rec.id
  }

  /** The records of all the rows that are written, one for each title in some order. */
  ghost predicate Records(code: Extract -> int, recs: seq<Row>, written: map<string, HistoryRow>) {
    && |recs| == |written| && Titles(recs) == written.Keys
    && forall i :: 0 <= i < |recs| ==> RecordIn(code, recs[i], written)
  }

  /** The rows when those of some records are written. */
  function Noted(rows: map<string, HistoryRow>, written: map<string, HistoryRow>, recs: seq<Row>)
    : map<string, HistoryRow>
  {
    rows + map t | t in written && t in Titles(recs) :: written[t]
  }

  lemma OneMoreRecord(rows: map<string, HistoryRow>, written: map<string, HistoryRow>, init: seq<Row>, rec: Row)
    requires rec.id in written
    ensures Titles(init + [rec]) == Titles(init) + {rec.id}
    ensures Noted(rows, written, init + [rec]) == Noted(rows, written, init)[rec.id := written[rec.id]]
  {
    assert forall r :: r in init + [rec] <==> r in init || r == rec;
    assert rec in init + [rec];
    forall t ensures t in Titles(init + [rec]) <==> t in Titles(init) || t == rec.id {
    }
  }

  lemma OneMoreBehind(code: Extract -> int, keep: nat, rows: map<string, HistoryRow>, kept: set<string>, log: Log,
                      init: seq<Row>, rec: Row, written: map<string, HistoryRow>, before: Log, after: Log)
    requires before == UpsertedAll(log, init, keep) && after == Upserted(before, rec, keep)
    requires Behind(code, keep, Noted(rows, written, init), kept + Titles(init), before)
    requires RecordIn(code, rec, written) && IsDurable(rec.status)
    ensures Behind(code, keep, Noted(rows, written, init + [rec]), kept + Titles(init + [rec]), after)
  {
    UpsertBehind(code, keep, Noted(rows, written, init), kept + Titles(init), before, rec, rec.id, written[rec.id]);
    OneMoreRecord(rows, written, init, rec);
    assert kept + Titles(init + [rec]) == kept + Titles(init) + {rec.id};
  }

  predicate AllDurable(code: Extract -> int, recs: seq<Row>, written: map<string, HistoryRow>) {
    forall i :: 0 <= i < |recs| ==> RecordIn(code, recs[i], written) && IsDurable(recs[i].status)
  }

  lemma LastRecord(code: Extract -> int, recs: seq<Row>, written: map<string, HistoryRow>, init: seq<Row>, rec: Row)
    requires recs != [] && AllDurable(code, recs, written) && init == recs[..|recs| - 1] && rec == recs[|recs| - 1]
    ensures AllDurable(code, init, written) && RecordIn(code, rec, written) && IsDurable(rec.status)
    ensures recs == init + [rec]
  {
  }

  lemma NothingNoted(rows: map<string, HistoryRow>, kept: set<string>, written: map<string, HistoryRow>)
    ensures Noted(rows, written, []) == rows && kept + Titles([]) == kept
  {
  }

  lemma {:induction false} AllBehind(code: Extract -> int, keep: nat, rows: map<string, HistoryRow>, kept: set<string>,
                                     log: Log, recs: seq<Row>, written: map<string, HistoryRow>)
    requires Behind(code, keep, rows, kept, log)
    requires AllDurable(code, recs, written)
    ensures Behind(code, keep, Noted(rows, written, recs), kept + Titles(recs), UpsertedAll(log, recs, keep))
  {
    if recs == [] {
      NothingNoted(rows, kept, written);
    } else {
      var init, rec := recs[..|recs| - 1], recs[|recs| - 1];
      LastRecord(code, recs, written, init, rec);
      AllBehind(code, keep, rows, kept, log, init, written);
      OneMoreBehind(code, keep, rows, kept, log, init, rec, written, UpsertedAll(log, init, keep),
                    UpsertedAll(log, recs, keep));
    }
  }

  // ---------------------------------------------------------------- trimming, step by step

  /** Rows that are noted too many are trimmed by steps that are enabled. */
  lemma {:induction false} TrimsReach(cfg: Settings, s: State, gone: set<string>) returns (trims: seq<Event>)
    requires gone <= DurableTitles(s, s.kept)
    requires gone != {} ==> |DurableTitles(s, s.kept)| - |gone| >= cfg.keepHistory
    ensures forall i :: 0 <= i < |trims| ==> trims[i].Trim?
    ensures From(cfg, s, trims) == s.(kept := s.kept - gone)
    decreases gone
  {
    if gone == {} {
      trims := [];
      assert s.kept - gone == s.kept;
    } else {
      var t :| t in gone;
      var next := s.(kept := s.kept - {t});
      assert DurableTitles(next, next.kept) == DurableTitles(s, s.kept) - {t};
      var rest := TrimsReach(cfg, next, gone - {t});
      assert Next(cfg, s, Trim(t)) == next;
      FromOne(cfg, s, Trim(t));
      FromAppend(cfg, s, [Trim(t)], rest);
      trims := [Trim(t)] + rest;
      assert s.kept - {t} - (gone - {t}) == s.kept - gone;
    }
  }

  /** Rows of distinct titles that the file gives back. */
  ghost predicate FromFile(list: seq<Row>, log: Log) {
    UniqueIds(list) && forall row :: row in list ==> row in Replay(log.file)
  }

  lemma DurableInBoth(code: Extract -> int, rows: map<string, HistoryRow>, log: Log, list: seq<Row>, t: string)
    requires RowsAgree(code, rows, log) && FromFile(list, log) && t in Ids(list)
    ensures t in rows && (IsDurable(rows[t].item.status) <==> t in DurableIds(list))
  {
    var row :| row in list && row.id == t;
    if t in DurableIds(list) {
      var other :| other in list && IsDurable(other.status) && other.id == t;
      UniqueRow(list, row, other);
    }
  }

  lemma ListDurables(code: Extract -> int, s: State, log: Log, list: seq<Row>)
    requires RowsAgree(code, s.rows, log) && FromFile(list, log)
    ensures DurableTitles(s, Ids(list)) == DurableIds(list) && |DurableIds(list)| == Durables(list)
  {
    DurablesAreIds(list);
    forall t | t in Ids(list) ensures RowIsDurable(s, t) <==> t in DurableIds(list) {
      DurableInBoth(code, s.rows, log, list, t);
    }
  }

  lemma SizeOfJoin(a: set<string>, b: set<string>)
    requires a !! b
    ensures |a + b| - |b| == |a|
  {
  }

  lemma Overfull(code: Extract -> int, keep: nat, s: State, log: Log, gone: set<string>)
    requires Behind(code, keep, s.rows, s.kept, log) && gone == s.kept - Ids(log.mem)
    ensures gone <= DurableTitles(s, s.kept)
    ensures gone != {} ==> |DurableTitles(s, s.kept)| - |gone| == keep
  {
    var there := DurableTitles(s, Ids(log.mem));
    MemFacts(log, keep);
    ListDurables(code, s, log, log.mem);
    assert DurableTitles(s, s.kept) == there + gone;
    SizeOfJoin(there, gone);
  }

  lemma CatchesUp(cfg: Settings, code: Extract -> int, s: State, log: Log) returns (trims: seq<Event>)
    requires Behind(code, cfg.keepHistory, s.rows, s.kept, log)
    ensures forall i :: 0 <= i < |trims| ==> trims[i].Trim?
    ensures From(cfg, s, trims) == s.(kept := Ids(log.mem))
  {
    var gone := s.kept - Ids(log.mem);
    Overfull(code, cfg.keepHistory, s, log, gone);
    trims := TrimsReach(cfg, s, gone);
    assert s.kept - gone == Ids(log.mem);
  }

  // ---------------------------------------------------------------- what a step writes

  function RowOf(t: string, fate: Fate): map<string, HistoryRow> {
    if Writes(fate) then map[t := NewRow(fate.item)] else map[]
  }

  /** The rows that a step records. */
  function Written(cfg: Settings, s: State, e: Event): map<string, HistoryRow> {
    match e
    case QueueChanges(now) => RowsFrom(QueueFates(s, now))
    case Cleaner(now) => RowsFrom(CleanerFates(cfg, s, now))
    case StartExtract(t, now) => if t in s.items then RowOf(t, Recorded(s.items[t], QUEUED, now)) else map[]
    case Callback(t, report, now) => if t in s.items then RowOf(t, AfterCallback(s.items[t], report, now)) else map[]
    case OldRow(t, item) => map[t := NewRow(item)]
    case _ => map[]
  }

  predicate OnlyRecords(e: Event) {
    !e.Forget? && !e.DeleteRow? && !e.ClearHistory? && !e.Restart? && !e.Trim?
  }

  lemma StepWrites(cfg: Settings, s: State, e: Event)
    requires Enabled(cfg, s, e) && OnlyRecords(e)
    ensures Step(cfg, s, e).rows == s.rows + Written(cfg, s, e)
    ensures Step(cfg, s, e).kept == s.kept + Written(cfg, s, e).Keys
  {
  }

  predicate AllEnded(written: map<string, HistoryRow>) {
    forall t :: t in written ==> IsDurable(written[t].item.status)
  }

  lemma CheckWritesEnded(instances: seq<Instance>, t: string, item: Extract, now: int)
    ensures Writes(AfterQueueChange(instances, t, item, now)) ==>
              IsDurable(AfterQueueChange(instances, t, item, now).item.status)
  {
  }

  lemma CleanerWritesEnded(cfg: Settings, instances: seq<Instance>, t: string, item: Extract, now: int)
    ensures Writes(AfterCleaner(cfg, instances, t, item, now)) ==>
              IsDurable(AfterCleaner(cfg, instances, t, item, now).item.status)
  {
  }

  predicate EndedFates(fates: map<string, Fate>) {
    forall t :: t in fates && Writes(fates[t]) ==> IsDurable(fates[t].item.status)
  }

  lemma ChecksWriteEnded(cfg: Settings, s: State, now: int)
    ensures EndedFates(QueueFates(s, now)) && EndedFates(CleanerFates(cfg, s, now))
  {
    forall t | t in s.items ensures var f := QueueFates(s, now)[t]; Writes(f) ==> IsDurable(f.item.status) {
      CheckWritesEnded(s.instances, t, s.items[t], now);
    }
    forall t | t in s.items ensures var f := CleanerFates(cfg, s, now)[t]; Writes(f) ==> IsDurable(f.item.status) {
      CleanerWritesEnded(cfg, s.instances, t, s.items[t], now);
    }
  }

  /** A check records durable rows only, and any other step at most one row. */
  lemma WrittenShape(cfg: Settings, s: State, e: Event)
    ensures |Written(cfg, s, e)| <= 1 || AllEnded(Written(cfg, s, e))
  {
    match e {
      case QueueChanges(now) => ChecksWriteEnded(cfg, s, now);
      case Cleaner(now) => ChecksWriteEnded(cfg, s, now);
      case _ =>
    }
  }

  lemma SingleRecord(code: Extract -> int, recs: seq<Row>, written: map<string, HistoryRow>)
    requires Records(code, recs, written) && |written| <= 1 && recs != []
    ensures recs == [recs[0]] && RecordIn(code, recs[0], written) && written.Keys == {recs[0].id}
  {
    assert recs[0] in recs;
    assert Titles(recs) == {recs[0].id};
  }

  lemma UpsertedOne(log: Log, rec: Row, keep: nat)
    ensures UpsertedAll(log, [rec], keep) == Upserted(log, rec, keep)
  {
    assert [rec][..0] == [];
  }

  lemma JoinOne(rows: map<string, HistoryRow>, written: map<string, HistoryRow>, t: string)
    requires written.Keys == {t}
    ensures rows + written == rows[t := written[t]]
  {
  }

  lemma SingleBehind(code: Extract -> int, keep: nat, rows: map<string, HistoryRow>, log: Log, rec: Row,
                     written: map<string, HistoryRow>, after: Log)
    requires Behind(code, keep, rows, Ids(log.mem), log) && RecordIn(code, rec, written) && written.Keys == {rec.id}
    requires after == Upserted(log, rec, keep)
    ensures Behind(code, keep, rows + written, Ids(log.mem) + written.Keys, after)
  {
    UpsertBehind(code, keep, rows, Ids(log.mem), log, rec, rec.id, written[rec.id]);
    JoinOne(rows, written, rec.id);
  }

  lemma BatchBehind(code: Extract -> int, keep: nat, rows: map<string, HistoryRow>, log: Log, recs: seq<Row>,
                    written: map<string, HistoryRow>)
    requires Behind(code, keep, rows, Ids(log.mem), log) && Records(code, recs, written)
    requires |written| <= 1 || AllEnded(written)
    ensures Behind(code, keep, rows + written, Ids(log.mem) + written.Keys, UpsertedAll(log, recs, keep))
  {
    if |written| <= 1 && recs != [] {
      SingleRecord(code, recs, written);
      UpsertedOne(log, recs[0], keep);
      SingleBehind(code, keep, rows, log, recs[0], written, UpsertedAll(log, recs, keep));
    } else {
      assert Noted(rows, written, recs) == rows + written;
      AllBehind(code, keep, rows, Ids(log.mem), log, recs, written);
    }
  }

  // ---------------------------------------------------------------- the other steps

  /** The rows of some titles alone. */
  function OnlyRows(rows: map<string, HistoryRow>, titles: set<string>): map<string, HistoryRow> {
    map t | t in rows && t in titles :: rows[t]
  }

  /** The file is written again, or was just read, and holds the rows in memory only. */
  lemma RewrittenBehind(code: Extract -> int, keep: nat, rows: map<string, HistoryRow>, log: Log, next: Log)
    requires RowsAgree(code, rows, log) && FromFile(next.mem, log) && Inv(next, keep) && Replay(next.file) == next.mem
    ensures Behind(code, keep, OnlyRows(rows, Ids(next.mem)), Ids(next.mem), next)
  {
    var left := OnlyRows(rows, Ids(next.mem));
    forall row | row in next.mem ensures row.id in left && Says(code, row, left[row.id]) {
      assert row in Replay(log.file);
    }
  }

  lemma DeletesDurable(log: Log, t: string, keep: nat)
    requires Inv(log, keep) && t in DurableIds(log.mem)
    ensures Deleted(log, t) == log.(mem := Without(log.mem, t), file := Lines(Without(log.mem, t)))
  {
    MemFacts(log, keep);
    var row :| row in log.mem && IsDurable(row.status) && row.id == t;
    IndexFound(log.mem, t);
    UniqueRow(log.mem, row, log.mem[IndexOfId(log.mem, t)]);
  }

  lemma WithoutIds(list: seq<Row>, t: string)
    requires UniqueIds(list)
    ensures UniqueIds(Without(list, t)) && Ids(Without(list, t)) == Ids(list) - {t}
  {
    WithoutFacts(list, t);
  }

  lemma DeletedRow(log: Log, t: string, keep: nat, next: Log)
    requires Inv(log, keep) && t in DurableIds(log.mem) && next == Deleted(log, t)
    ensures FromFile(next.mem, log) && Inv(next, keep) && Replay(next.file) == next.mem
    ensures Ids(next.mem) == Ids(log.mem) - {t}
  {
    DeletedInv(log, t, keep);
    DeletesDurable(log, t, keep);
    MemFacts(log, keep);
    WithoutFacts(log.mem, t);
    WithoutIds(log.mem, t);
    ReplayLines(next.mem);
  }

  lemma ClearedRows(log: Log, keep: nat, next: Log)
    requires Inv(log, keep) && next == Cleared(log)
    ensures FromFile(next.mem, log) && Inv(next, keep) && Replay(next.file) == next.mem
    ensures Ids(next.mem) == Ids(log.mem) - DurableIds(log.mem)
  {
    MemFacts(log, keep);
    InFlightFacts(log.mem);
    ReplayLines(next.mem);
    CompactedInv(next, keep);
    InFlightIds(log.mem);
  }

  lemma InFlightIds(list: seq<Row>)
    requires UniqueIds(list)
    ensures Ids(InFlightRows(list)) == Ids(list) - DurableIds(list)
  {
    InFlightFacts(list);
    forall t | t in DurableIds(list) ensures t !in Ids(InFlightRows(list)) {
      var row :| row in list && IsDurable(row.status) && row.id == t;
      forall other | other in list && other.id == t ensures other == row {
        UniqueRow(list, row, other);
      }
    }
  }

  lemma WithoutIsOnly(s: State, titles: set<string>, kept: set<string>)
    requires kept == s.kept - titles
    ensures WithoutRows(s, titles) == s.(rows := OnlyRows(s.rows, kept), kept := kept)
  {
  }

  lemma DeleteBehind(cfg: Settings, code: Extract -> int, s: State, log: Log, t: string, next: Log)
    requires Matches(code, cfg.keepHistory, s, log) && t in s.kept && RowIsDurable(s, t) && next == Deleted(log, t)
    ensures var n := WithoutRows(s, {t}); Behind(code, cfg.keepHistory, n.rows, n.kept, next)
  {
    MemFacts(log, cfg.keepHistory);
    DurableInBoth(code, s.rows, log, log.mem, t);
    DeletedRow(log, t, cfg.keepHistory, next);
    RewrittenBehind(code, cfg.keepHistory, s.rows, log, next);
    WithoutIsOnly(s, {t}, Ids(next.mem));
  }

  lemma DurableNotes(code: Extract -> int, keep: nat, s: State, log: Log, durable: set<string>)
    requires Matches(code, keep, s, log) && durable == set t | t in s.rows && RowIsDurable(s, t)
    ensures s.kept - durable == Ids(log.mem) - DurableIds(log.mem)
  {
    MemFacts(log, keep);
    ListDurables(code, s, log, log.mem);
    assert DurableTitles(s, s.kept) == s.kept * durable;
  }

  lemma ClearBehind(cfg: Settings, code: Extract -> int, s: State, log: Log, next: Log)
    requires Matches(code, cfg.keepHistory, s, log) && next == Cleared(log)
    ensures var n := WithoutRows(s, set t | t in s.rows && RowIsDurable(s, t));
            Behind(code, cfg.keepHistory, n.rows, n.kept, next)
  {
    var durable := set t | t in s.rows && RowIsDurable(s, t);
    ClearedRows(log, cfg.keepHistory, next);
    DurableNotes(code, cfg.keepHistory, s, log, durable);
    RewrittenBehind(code, cfg.keepHistory, s.rows, log, next);
    WithoutIsOnly(s, durable, Ids(next.mem));
  }

  lemma ForgetBehind(cfg: Settings, code: Extract -> int, s: State, log: Log, t: string)
    requires Matches(code, cfg.keepHistory, s, log)
    ensures var n := Forgotten(s, t); Behind(code, cfg.keepHistory, n.rows, n.kept, Marked(log, t, cfg.keepHistory))
  {
    var keep := cfg.keepHistory;
    IndexFound(log.mem, t);
    MemFacts(log, keep);
    if t in s.kept {
      var row := log.mem[IndexOfId(log.mem, t)];
      assert row in log.mem;
      UpsertBehind(code, keep, s.rows, s.kept, log, row.(forgotten := true), t, s.rows[t].(forgotten := true));
      assert s.kept + {t} == s.kept;
    }
  }

  // ---------------------------------------------------------------- restarts

  lemma LoadedReplay(log: Log, keep: nat)
    requires keep > 0
    ensures var next := Loaded(log.file, keep, log.trimmed);
            && FromFile(next.mem, log) && Inv(next, keep) && Replay(next.file) == next.mem
  {
    ReplayFacts(log.file);
    CapFacts(Replay(log.file), keep);
    DropFacts(Replay(log.file), Excess(Replay(log.file), keep));
    LoadedInv(log.file, keep, log.trimmed);
    var next := Loaded(log.file, keep, log.trimmed);
    MemFacts(next, keep);
    if |log.file| != |next.mem| {
      ReplayLines(next.mem);
    }
  }

  lemma ReloadedRows(log: Log, keep: nat, back: seq<Row>)
    requires Inv(log, keep) && back == Loaded(log.file, keep, log.trimmed).mem
    ensures Durables(back) <= keep
    ensures forall row :: row in log.mem ==> row in back
    ensures forall row :: row in back && row !in log.mem ==> IsDurable(row.status)
  {
    ReloadFacts(log, keep);
    assert back == Loaded(log.file, keep, {}).mem;
    DropFacts(back, Durables(back) - Durables(log.mem));
  }

  lemma MoreIds(mem: seq<Row>, back: seq<Row>)
    requires forall row :: row in mem ==> row in back
    requires forall row :: row in back && row !in mem ==> IsDurable(row.status)
    ensures Ids(mem) <= Ids(back)
    ensures forall t :: t in Ids(back) && t !in Ids(mem) ==> t in DurableIds(back)
  {
    forall t | t in Ids(back) && t !in Ids(mem) ensures t in DurableIds(back) {
      var row :| row in back && row.id == t;
    }
  }

  lemma ReloadEnabled(cfg: Settings, code: Extract -> int, s: State, log: Log, back: seq<Row>, insts: seq<Instance>,
                      now: int)
    requires Matches(code, cfg.keepHistory, s, log)
    requires back == Loaded(log.file, cfg.keepHistory, log.trimmed).mem
    ensures Enabled(cfg, s, Restart(Ids(back), insts, now))
  {
    LoadedReplay(log, cfg.keepHistory);
    ReloadedRows(log, cfg.keepHistory, back);
    MoreIds(log.mem, back);
    ListDurables(code, s, log, back);
  }

  lemma RestartedRows(cfg: Settings, s: State, loaded: set<string>, insts: seq<Instance>, now: int)
    requires loaded <= s.rows.Keys
    ensures Restarted(cfg, s, loaded, insts, now).rows == OnlyRows(s.rows, loaded)
    ensures Restarted(cfg, s, loaded, insts, now).kept == loaded
  {
  }

  lemma ReloadBehind(cfg: Settings, code: Extract -> int, s: State, log: Log, next: Log, insts: seq<Instance>, now: int)
    requires Matches(code, cfg.keepHistory, s, log)
    requires next == Loaded(log.file, cfg.keepHistory, log.trimmed)
    ensures var n := Restarted(cfg, s, Ids(next.mem), insts, now); Behind(code, cfg.keepHistory, n.rows, n.kept, next)
  {
    LoadedReplay(log, cfg.keepHistory);
    RewrittenBehind(code, cfg.keepHistory, s.rows, log, next);
    RestartedRows(cfg, s, Ids(next.mem), insts, now);
  }

  // ---------------------------------------------------------------- one step of both

  /** The history after a step: what the step records is upserted in some order, and the
      user's actions and a restart go to the history itself. */
  ghost predicate LogStep(cfg: Settings, code: Extract -> int, s: State, e: Event, log: Log, next: Log) {
    match e
    case Forget(t) => next == Marked(log, t, cfg.keepHistory)
    case DeleteRow(t) => next == Deleted(log, t)
    case ClearHistory => next == Cleared(log)
    case Restart(_, _, _) => next == Loaded(log.file, cfg.keepHistory, log.trimmed)
    case Trim(_) => false
    case _ => exists recs :: Records(code, recs, Written(cfg, s, e)) && next == UpsertedAll(log, recs, cfg.keepHistory)
  }

  function Outcome(cfg: Settings, s: State, e: Event): State
    requires !e.Restart? ==> Enabled(cfg, s, e)
  {
    if e.Restart? then Restarted(cfg, s, e.loaded, e.next, e.now) else Step(cfg, s, e)
  }

  /** A step of the program with its history file. Which rows are in memory after it is what
      the history says; a restart loads just those. */
  ghost predicate SystemStep(cfg: Settings, code: Extract -> int, s: State, log: Log, e: Event, n: State, next: Log) {
    && LogStep(cfg, code, s, e, log, next)
    && (if e.Restart? then e.loaded == Ids(next.mem) else Enabled(cfg, s, e))
    && n == Outcome(cfg, s, e).(kept := Ids(next.mem))
  }

  lemma RecordingBehind(cfg: Settings, code: Extract -> int, s: State, log: Log, e: Event, next: Log)
    requires Matches(code, cfg.keepHistory, s, log) && LogStep(cfg, code, s, e, log, next)
    requires Enabled(cfg, s, e) && OnlyRecords(e)
    ensures var n := Step(cfg, s, e); Behind(code, cfg.keepHistory, n.rows, n.kept, next)
  {
    var recs :| Records(code, recs, Written(cfg, s, e)) && next == UpsertedAll(log, recs, cfg.keepHistory);
    WrittenShape(cfg, s, e);
    BatchBehind(code, cfg.keepHistory, s.rows, log, recs, Written(cfg, s, e));
    StepWrites(cfg, s, e);
  }

  lemma OutcomeBehind(cfg: Settings, code: Extract -> int, s: State, log: Log, e: Event, next: Log)
    requires Matches(code, cfg.keepHistory, s, log) && LogStep(cfg, code, s, e, log, next)
    requires if e.Restart? then e.loaded == Ids(next.mem) else Enabled(cfg, s, e)
    ensures Enabled(cfg, s, e)
    ensures var n := Step(cfg, s, e); Behind(code, cfg.keepHistory, n.rows, n.kept, next)
  {
    if e.Restart? {
      ReloadEnabled(cfg, code, s, log, next.mem, e.next, e.now);
      ReloadBehind(cfg, code, s, log, next, e.next, e.now);
    } else if e.Forget? {
      ForgetBehind(cfg, code, s, log, e.title);
    } else if e.DeleteRow? {
      DeleteBehind(cfg, code, s, log, e.title, next);
    } else if e.ClearHistory? {
      ClearBehind(cfg, code, s, log, next);
    } else {
      RecordingBehind(cfg, code, s, log, e, next);
    }
  }

  /** Every step with the file is a step of Lifecycle and the trims that follow it. */
  lemma StepRefines(cfg: Settings, code: Extract -> int, s: State, log: Log, e: Event, n: State, next: Log)
    returns (trims: seq<Event>)
    requires Matches(code, cfg.keepHistory, s, log) && SystemStep(cfg, code, s, log, e, n, next)
    ensures Enabled(cfg, s, e) && forall i :: 0 <= i < |trims| ==> trims[i].Trim?
    ensures From(cfg, Next(cfg, s, e), trims) == n && Matches(code, cfg.keepHistory, n, next)
  {
    OutcomeBehind(cfg, code, s, log, e, next);
    trims := CatchesUp(cfg, code, Step(cfg, s, e), next);
  }

  // ---------------------------------------------------------------- every run of both

  /** A run of the program with its history file, from an empty file. */
  ghost predicate SystemRun(cfg: Settings, code: Extract -> int, events: seq<Event>, states: seq<State>, logs: seq<Log>)
  {
    && |states| == |logs| == |events| + 1
    && states[0] == Start() && logs[0] == Log([], [], {})
    && forall i, j :: 0 <= i < |events| && j == i + 1 ==>
         SystemStep(cfg, code, states[i], logs[i], events[i], states[j], logs[j])
  }

  lemma StartMatches(code: Extract -> int, keep: nat)
    requires keep > 0
    ensures Matches(code, keep, Start(), Log([], [], {}))
  {
  }

  /** Every state of such a run is reached by a run of Lifecycle, and what Lifecycle notes of
      the history is what the file gives back. */
  lemma {:induction false} RunRefines(cfg: Settings, code: Extract -> int, events: seq<Event>, states: seq<State>,
                                      logs: seq<Log>, n: nat) returns (run: seq<Event>)
    requires cfg.keepHistory > 0 && SystemRun(cfg, code, events, states, logs) && n <= |events|
    ensures After(cfg, run) == states[n] && Matches(code, cfg.keepHistory, states[n], logs[n])
  {
    if n == 0 {
      run := [];
      StartMatches(code, cfg.keepHistory);
    } else {
      var m := n - 1;
      var before := RunRefines(cfg, code, events, states, logs, m);
      var trims := StepRefines(cfg, code, states[m], logs[m], events[m], states[n], logs[n]);
      run := before + [events[m]] + trims;
      FromOne(cfg, states[m], events[m]);
      FromAppend(cfg, Start(), before, [events[m]]);
      FromAppend(cfg, Start(), before + [events[m]], trims);
    }
  }

  /** So every such state has what every run of Lifecycle keeps: no deletion without good
      reason, bounded retries, forgotten titles out of the map. */
  lemma SystemSound(cfg: Settings, code: Extract -> int, events: seq<Event>, states: seq<State>, logs: seq<Log>, n: nat)
    requires cfg.keepHistory > 0 && SystemRun(cfg, code, events, states, logs) && n <= |events|
    ensures Sound(cfg, states[n])
  {
    var run := RunRefines(cfg, code, events, states, logs, n);
    EveryRunKeeps(cfg, run);
  }
}
