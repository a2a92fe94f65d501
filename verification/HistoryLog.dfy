/** The history log of pkg/unpackerr/historyfile.go.

    Rows live in memory as a list keyed by id: the last write wins, a rewritten row
    moves to the end, and durable rows are trimmed to `keep`. The same rows live in an
    append-only file that is compacted now and then. `Log` is the value of both; the
    object that the program updates step by step is in HistoryStore. */
module HistoryLog {

  datatype Status =
    | WAITING | QUEUED | EXTRACTING | EXTRACTFAILED | EXTRACTED
    | IMPORTED | DELETING | DELETEFAILED | DELETED | EXTRACTEDNOTHING

  /** A row. `started` is a clock reading, 0 when it was never set. `body` stands for
      every column this file only copies. */
  datatype Row = Row(id: string, path: string, status: Status, started: nat, forgotten: bool, body: int)

  /** One non-blank line of the file: a row, or text that does not parse. */
  datatype Line = Good(row: Row) | Bad

  datatype Outcome = Ok | NotFound | InFlight

  predicate IsDurable(status: Status) {
    status in {EXTRACTFAILED, EXTRACTEDNOTHING, IMPORTED, DELETED, DELETEFAILED}
  }

  // ---------------------------------------------------------------- lists keyed by id

  /** A row without an id is filed under its path. */
  function Named(rec: Row): Row {
    if rec.id == "" then rec.(id := rec.path) else rec
  }

  predicate HasId(list: seq<Row>, id: string) {
    exists row :: row in list && row.id == id
  }

  predicate UniqueIds(list: seq<Row>) {
    list == [] || (!HasId(list[1..], list[0].id) && UniqueIds(list[1..]))
  }

  function IndexOfId(list: seq<Row>, id: string): (i: nat)
    ensures i <= |list|
    ensures i < |list| ==> list[i].id == id
    ensures forall j :: 0 <= j < i ==> list[j].id != id
  {
    if list == [] then 0 else if list[0].id == id then 0 else 1 + IndexOfId(list[1..], id)
  }

  function Without(list: seq<Row>, id: string): seq<Row> {
    if list == [] then [] else if list[0].id == id then list[1..] else [list[0]] + Without(list[1..], id)
  }

  /** The row as it is stored: named, and with the start time of the row it replaces
      when it has none. */
  function Stored(list: seq<Row>, rec: Row): Row {
    var named := Named(rec);
    var i := IndexOfId(list, named.id);
    if i < |list| && named.started == 0 then named.(started := list[i].started) else named
  }

  function Merge(list: seq<Row>, rec: Row): seq<Row> {
    Without(list, Named(rec).id) + [Stored(list, rec)]
  }

  function MergeAll(list: seq<Row>, recs: seq<Row>): seq<Row> {
    if recs == [] then list else Merge(MergeAll(list, recs[..|recs| - 1]), recs[|recs| - 1])
  }

  function Durables(list: seq<Row>): nat {
    if list == [] then 0 else (if IsDurable(list[0].status) then 1 else 0) + Durables(list[1..])
  }

  /** `list` without its first k durable rows. */
  function DropDurable(list: seq<Row>, k: nat): seq<Row> {
    if list == [] then []
    else if k > 0 && IsDurable(list[0].status) then DropDurable(list[1..], k - 1)
    else [list[0]] + DropDurable(list[1..], k)
  }

  function Excess(list: seq<Row>, keep: nat): nat {
    if Durables(list) > keep then Durables(list) - keep else 0
  }

  function Cap(list: seq<Row>, keep: nat): seq<Row> {
    if keep == 0 then list else DropDurable(list, Excess(list, keep))
  }

  function InFlightRows(list: seq<Row>): seq<Row> {
    if list == [] then []
    else (if IsDurable(list[0].status) then [] else [list[0]]) + InFlightRows(list[1..])
  }

  function DurableRows(list: seq<Row>): seq<Row> {
    if list == [] then []
    else (if IsDurable(list[0].status) then [list[0]] else []) + DurableRows(list[1..])
  }

  // ---------------------------------------------------------------- the log as a value

  /** Memory, file, and (for the record only) every row ever trimmed out of memory. */
  datatype Log = Log(mem: seq<Row>, file: seq<Line>, trimmed: set<Row>)

  function RowsOf(file: seq<Line>): seq<Row> {
    if file == [] then []
    else RowsOf(file[..|file| - 1]) + (match file[|file| - 1] case Good(row) => [row] case Bad => [])
  }

  /** Every row of the file merged in file order, before any trimming. */
  function Replay(file: seq<Line>): seq<Row> {
    MergeAll([], RowsOf(file))
  }

  function Lines(list: seq<Row>): seq<Line> {
    seq(|list|, i requires 0 <= i < |list| => Good(list[i]))
  }

  function Dropped(list: seq<Row>, k: nat): set<Row> {
    set row | row in list && row !in DropDurable(list, k)
  }

  function Loaded(file: seq<Line>, keep: nat, trimmed: set<Row>): Log {
    var mem := Cap(Replay(file), keep);
    Log(mem, if |file| != |mem| then Lines(mem) else file, trimmed + Dropped(Replay(file), Excess(Replay(file), keep)))
  }

  function Upserted(log: Log, rec: Row, keep: nat): Log {
    var merged := Merge(log.mem, rec);
    var mem := Cap(merged, keep);
    var trimmed := log.trimmed + Dropped(merged, Excess(merged, keep));
    if mem == [] then Log(mem, log.file, trimmed)
    else if keep > 0 && |log.file| >= 2 * keep then Log(mem, Lines(mem), trimmed)
    else Log(mem, log.file + [Good(mem[|mem| - 1])], trimmed)
  }

  function Deleted(log: Log, id: string): Log {
    var i := IndexOfId(log.mem, id);
    if i < |log.mem| && IsDurable(log.mem[i].status)
    then var mem := Without(log.mem, id); log.(mem := mem, file := Lines(mem))
    else log
  }

  function Cleared(log: Log): Log {
    log.(mem := InFlightRows(log.mem), file := Lines(InFlightRows(log.mem)))
  }

  function Compacted(log: Log): Log {
    log.(file := Lines(log.mem))
  }

  // ---------------------------------------------------------------- lists: small facts

  lemma InCons(list: seq<Row>)
    requires list != []
    ensures forall row :: row in list <==> row == list[0] || row in list[1..]
  {
    assert list == [list[0]] + list[1..];
  }

  lemma {:induction false} IndexFound(list: seq<Row>, id: string)
    ensures HasId(list, id) <==> IndexOfId(list, id) < |list|
  {
    if list != [] {
      InCons(list);
      IndexFound(list[1..], id);
    }
  }

  lemma {:induction false} WithoutFacts(list: seq<Row>, id: string)
    requires UniqueIds(list)
    ensures UniqueIds(Without(list, id))
    ensures forall row :: row in Without(list, id) <==> row in list && row.id != id
  {
    if list != [] {
      InCons(list);
      WithoutFacts(list[1..], id);
      var rest := Without(list[1..], id);
      assert ([list[0]] + rest)[1..] == rest;
    }
  }

  lemma {:induction false} WithoutAbsent(list: seq<Row>, id: string)
    requires !HasId(list, id)
    ensures Without(list, id) == list
  {
    if list != [] {
      InCons(list);
      WithoutAbsent(list[1..], id);
    }
  }

  lemma {:induction false} UniqueSnoc(list: seq<Row>, row: Row)
    requires UniqueIds(list) && !HasId(list, row.id)
    ensures UniqueIds(list + [row])
  {
    if list != [] {
      InCons(list);
      UniqueSnoc(list[1..], row);
      assert (list + [row])[1..] == list[1..] + [row];
    }
  }

  lemma {:induction false} DurablesSnoc(list: seq<Row>, row: Row)
    ensures Durables(list + [row]) == Durables(list) + if IsDurable(row.status) then 1 else 0
  {
    if list != [] {
      assert (list + [row])[1..] == list[1..] + [row];
      DurablesSnoc(list[1..], row);
    }
  }

  lemma {:induction false} DropFacts(list: seq<Row>, k: nat)
    requires k <= Durables(list)
    ensures Durables(DropDurable(list, k)) == Durables(list) - k
    ensures |DropDurable(list, k)| == |list| - k
    ensures InFlightRows(DropDurable(list, k)) == InFlightRows(list)
    ensures forall row :: row in DropDurable(list, k) ==> row in list
    ensures forall row :: row in list && row !in DropDurable(list, k) ==> IsDurable(row.status)
    ensures k == 0 ==> DropDurable(list, k) == list
  {
    if list != [] {
      assert list == [list[0]] + list[1..];
      if k > 0 && IsDurable(list[0].status) {
        DropFacts(list[1..], k - 1);
      } else {
        DropFacts(list[1..], k);
        var rest := DropDurable(list[1..], k);
        assert ([list[0]] + rest)[1..] == rest;
      }
    }
  }

  lemma {:induction false} DropUnique(list: seq<Row>, k: nat)
    requires UniqueIds(list) && k <= Durables(list)
    ensures UniqueIds(DropDurable(list, k))
  {
    if list != [] {
      if k > 0 && IsDurable(list[0].status) {
        DropUnique(list[1..], k - 1);
      } else {
        DropUnique(list[1..], k);
        DropFacts(list[1..], k);
        var rest := DropDurable(list[1..], k);
        assert ([list[0]] + rest)[1..] == rest;
      }
    }
  }

  lemma {:induction false} DropSnoc(list: seq<Row>, row: Row, k: nat)
    requires k <= Durables(list)
    ensures DropDurable(list + [row], k) == DropDurable(list, k) + [row]
  {
    if list != [] {
      assert (list + [row])[1..] == list[1..] + [row];
      if k > 0 && IsDurable(list[0].status) {
        DropSnoc(list[1..], row, k - 1);
      } else {
        DropSnoc(list[1..], row, k);
      }
    }
  }

  lemma {:induction false} DropDrop(list: seq<Row>, k: nat, m: nat)
    requires k + m <= Durables(list)
    ensures DropDurable(DropDurable(list, k), m) == DropDurable(list, k + m)
  {
    if list != [] {
      if k > 0 && IsDurable(list[0].status) {
        DropDrop(list[1..], k - 1, m);
      } else {
        var rest := DropDurable(list[1..], k);
        assert DropDurable(list, k) == [list[0]] + rest;
        assert ([list[0]] + rest)[1..] == rest;
        if m > 0 && IsDurable(list[0].status) {
          assert k == 0;
          DropDrop(list[1..], 0, m - 1);
        } else {
          DropDrop(list[1..], k, m);
        }
      }
    }
  }

  /** Removing an id and trimming commute, up to how many rows are left to trim. */
  lemma {:induction false} WithoutDrop(list: seq<Row>, k: nat, id: string) returns (left: nat)
    requires UniqueIds(list) && k <= Durables(list)
    decreases list, 0
    ensures left <= Durables(Without(list, id))
    ensures Without(DropDurable(list, k), id) == DropDurable(Without(list, id), left)
  {
    if list == [] {
      left := 0;
    } else {
      var head, tail := list[0], list[1..];
      if k > 0 && IsDurable(head.status) {
        if head.id == id {
          left := k - 1;
          DropFacts(tail, k - 1);
          WithoutAbsent(DropDurable(tail, k - 1), id);
        } else {
          left := WithoutDrop(tail, k - 1, id);
          left := left + 1;
          assert ([head] + Without(tail, id))[1..] == Without(tail, id);
        }
      } else {
        assert ([head] + DropDurable(tail, k))[1..] == DropDurable(tail, k);
        if head.id == id {
          left := k;
        } else {
          assert ([head] + Without(tail, id))[1..] == Without(tail, id);
          left := WithoutDropKept(head, tail, k, id);
        }
      }
    }
  }

  lemma {:induction false} WithoutDropKept(head: Row, tail: seq<Row>, k: nat, id: string) returns (left: nat)
    requires UniqueIds(tail) && k <= Durables(tail)
    requires k > 0 ==> !IsDurable(head.status)
    ensures left > 0 ==> !IsDurable(head.status)
    ensures left <= Durables(Without(tail, id))
    ensures Without(DropDurable(tail, k), id) == DropDurable(Without(tail, id), left)
    decreases tail, 1
  {
    if k == 0 {
      left := 0;
      DropFacts(tail, 0);
      DropFacts(Without(tail, id), 0);
    } else {
      left := WithoutDrop(tail, k, id);
    }
  }

  lemma {:induction false} MergeFacts(list: seq<Row>, rec: Row)
    requires UniqueIds(list)
    ensures UniqueIds(Merge(list, rec))
    ensures Stored(list, rec).id == Named(rec).id
    ensures |Merge(list, rec)| <= |list| + 1
  {
    IndexFound(list, Named(rec).id);
    WithoutFacts(list, Named(rec).id);
    WithoutLength(list, Named(rec).id);
    UniqueSnoc(Without(list, Named(rec).id), Stored(list, rec));
  }

  lemma {:induction false} WithoutLength(list: seq<Row>, id: string)
    ensures |Without(list, id)| <= |list| && Durables(Without(list, id)) <= Durables(list)
  {
    if list != [] {
      WithoutLength(list[1..], id);
      var rest := Without(list[1..], id);
      assert ([list[0]] + rest)[1..] == rest;
    }
  }

  lemma {:induction false} MergeAllFacts(recs: seq<Row>)
    ensures UniqueIds(MergeAll([], recs)) && |MergeAll([], recs)| <= |recs|
    ensures AllNamed(MergeAll([], recs))
  {
    if recs != [] {
      MergeAllFacts(recs[..|recs| - 1]);
      var before, rec := MergeAll([], recs[..|recs| - 1]), recs[|recs| - 1];
      MergeFacts(before, rec);
      WithoutFacts(before, Named(rec).id);
    }
  }

  /** Rows in a list are already named, so merging them again does not rename them. */
  predicate AllNamed(list: seq<Row>) {
    forall row :: row in list ==> Named(row) == row
  }

  lemma {:induction false} MergeAllUnique(recs: seq<Row>)
    requires UniqueIds(recs) && AllNamed(recs)
    ensures MergeAll([], recs) == recs
  {
    if recs != [] {
      var init, last := recs[..|recs| - 1], recs[|recs| - 1];
      assert recs == init + [last];
      UniqueInit(init, last);
      MergeAllUnique(init);
      IndexFound(init, last.id);
      WithoutAbsent(init, last.id);
    }
  }

  lemma {:induction false} UniqueInit(init: seq<Row>, last: Row)
    requires UniqueIds(init + [last])
    ensures UniqueIds(init) && !HasId(init, last.id)
  {
    if init != [] {
      assert (init + [last])[1..] == init[1..] + [last];
      UniqueInit(init[1..], last);
      InCons(init);
      assert last in init[1..] + [last];
      assert forall row :: row in init[1..] ==> row in init[1..] + [last];
    }
  }

  lemma {:induction false} RowsOfLines(list: seq<Row>)
    ensures RowsOf(Lines(list)) == list
  {
    if list != [] {
      var init := list[..|list| - 1];
      RowsOfLines(init);
      assert Lines(list)[..|list| - 1] == Lines(init);
    }
  }

  lemma {:induction false} RowsOfLength(file: seq<Line>)
    ensures |RowsOf(file)| <= |file|
  {
    if file != [] {
      RowsOfLength(file[..|file| - 1]);
    }
  }

  /** Reading a file is reading its parts. */
  lemma {:induction false} RowsOfConcat(a: seq<Line>, b: seq<Line>)
    ensures RowsOf(a + b) == RowsOf(a) + RowsOf(b)
  {
    if b == [] {
      assert a + b == a;
    } else {
      var init := b[..|b| - 1];
      RowsOfConcat(a, init);
      assert (a + b)[..|a + b| - 1] == a + init;
    }
  }

  predicate Rising(places: seq<nat>, bound: nat) {
    && (forall i, j :: 0 <= i < j < |places| ==> places[i] < places[j])
    && (forall i :: 0 <= i < |places| ==> places[i] < bound)
  }

  lemma RisingSnoc(places: seq<nat>, bound: nat)
    requires Rising(places, bound)
    ensures Rising(places, bound + 1) && Rising(places + [bound], bound + 1)
  {
  }

  /** The rows read are those of the lines that parse, each one once and in file order. */
  lemma {:induction false} RowsAreGoodLines(file: seq<Line>) returns (at: seq<nat>)
    ensures |at| == |RowsOf(file)| && Rising(at, |file|)
    ensures forall i :: 0 <= i < |at| ==> file[at[i]] == Good(RowsOf(file)[i])
    ensures forall k :: 0 <= k < |file| && file[k].Good? ==> k in at
  {
    if file == [] {
      at := [];
    } else {
      var init := file[..|file| - 1];
      at := RowsAreGoodLines(init);
      RisingSnoc(at, |init|);
      assert forall k :: 0 <= k < |init| ==> init[k] == file[k];
      if file[|init|].Good? {
        at := at + [|init|];
        assert |init| in at;
        assert RowsOf(file) == RowsOf(init) + [file[|init|].row];
      }
    }
  }

  /** A line that does not parse costs nothing, wherever it is: rows and memory are those
      of the file without it. */
  lemma BadLineSkipped(a: seq<Line>, b: seq<Line>, keep: nat, trimmed: set<Row>)
    ensures RowsOf(a + [Bad] + b) == RowsOf(a + b)
    ensures Loaded(a + [Bad] + b, keep, trimmed).mem == Loaded(a + b, keep, trimmed).mem
  {
    RowsOfConcat(a + [Bad], b);
    RowsOfConcat(a, [Bad]);
    RowsOfConcat(a, b);
    assert RowsOf([Bad]) == [] by {
      assert [Bad][..0] == [];
    }
  }

  lemma ReplayLines(list: seq<Row>)
    requires UniqueIds(list) && AllNamed(list)
    ensures Replay(Lines(list)) == list
  {
    RowsOfLines(list);
    MergeAllUnique(list);
  }

  lemma ReplayAppend(file: seq<Line>, row: Row)
    ensures Replay(file + [Good(row)]) == Merge(Replay(file), row)
  {
    assert (file + [Good(row)])[..|file|] == file;
    var rows := RowsOf(file + [Good(row)]);
    assert rows == RowsOf(file) + [row];
    assert rows[..|rows| - 1] == RowsOf(file);
  }

  lemma ReplayFacts(file: seq<Line>)
    ensures UniqueIds(Replay(file)) && AllNamed(Replay(file)) && |Replay(file)| <= |file|
  {
    MergeAllFacts(RowsOf(file));
    RowsOfLength(file);
  }

  // ---------------------------------------------------------------- the invariant

  function Larger(a: nat, b: nat): nat {
    if a > b then a else b
  }

  /** Memory is the replayed file without its first k durable rows. */
  predicate TrimOf(mem: seq<Row>, replay: seq<Row>) {
    && Durables(mem) <= Durables(replay)
    && mem == DropDurable(replay, Durables(replay) - Durables(mem))
  }

  predicate Inv(log: Log, keep: nat) {
    && keep > 0
    && TrimOf(log.mem, Replay(log.file))
    && Durables(log.mem) <= keep
    && |log.file| <= Larger(2 * keep, |log.mem|)
    && (forall row :: row in Replay(log.file) && row !in log.mem ==> row in log.trimmed)
  }

  lemma MemFacts(log: Log, keep: nat)
    requires Inv(log, keep)
    ensures UniqueIds(log.mem) && AllNamed(log.mem)
    ensures forall row :: row in log.mem ==> row in Replay(log.file)
  {
    ReplayFacts(log.file);
    var k := Durables(Replay(log.file)) - Durables(log.mem);
    DropUnique(Replay(log.file), k);
    DropFacts(Replay(log.file), k);
  }

  /** Rewriting the file from memory re-establishes the invariant from any list of
      distinct, named rows that is within the cap. */
  lemma CompactedInv(log: Log, keep: nat)
    requires keep > 0 && UniqueIds(log.mem) && AllNamed(log.mem) && Durables(log.mem) <= keep
    ensures Inv(Compacted(log), keep)
  {
    ReplayLines(log.mem);
    DropFacts(log.mem, 0);
  }

  lemma LoadedInv(file: seq<Line>, keep: nat, trimmed: set<Row>)
    requires keep > 0
    ensures Inv(Loaded(file, keep, trimmed), keep)
  {
    ReplayFacts(file);
    var replay := Replay(file);
    var k := Excess(replay, keep);
    DropUnique(replay, k);
    DropFacts(replay, k);
    var log := Loaded(file, keep, trimmed);
    if |file| != |log.mem| {
      CompactedInv(log, keep);
    }
  }

  /** The start time that a merge would copy is the same from memory and from the file:
      the record brings its own, or memory still holds the row it replaces, or the file
      has no start time for that id either. */
  predicate Stamped(log: Log, rec: Row) {
    || rec.started != 0
    || HasId(log.mem, Named(rec).id)
    || forall row | row in Replay(log.file) && row.id == Named(rec).id :: row.started == 0
  }

  lemma {:induction false} UniqueRow(list: seq<Row>, a: Row, b: Row)
    requires UniqueIds(list) && a in list && b in list && a.id == b.id
    ensures a == b
  {
    InCons(list);
    if a != list[0] && b != list[0] {
      UniqueRow(list[1..], a, b);
    }
  }

  /** Merging the stored row into the replayed file stores the same row exactly when
      the record is stamped. */
  lemma StoredAgrees(log: Log, rec: Row, keep: nat)
    requires Inv(log, keep)
    ensures Stored(Replay(log.file), Stored(log.mem, rec)) == Stored(log.mem, rec) <==> Stamped(log, rec)
  {
    MemFacts(log, keep);
    ReplayFacts(log.file);
    var replay, id := Replay(log.file), Named(rec).id;
    IndexFound(log.mem, id);
    IndexFound(replay, id);
    if rec.started == 0 && HasId(replay, id) {
      var inFile := replay[IndexOfId(replay, id)];
      forall row | row in replay && row.id == id ensures row == inFile {
        UniqueRow(replay, row, inFile);
      }
    }
  }

  /** An upsert that starts within the cap ends within it, with the stored row last. */
  lemma UpsertShape(mem: seq<Row>, rec: Row, keep: nat)
    requires UniqueIds(mem) && AllNamed(mem) && keep > 0 && Durables(mem) <= keep
    ensures var merged := Merge(mem, rec);
            && Excess(merged, keep) <= Durables(Without(mem, Named(rec).id))
            && Cap(merged, keep) == DropDurable(Without(mem, Named(rec).id), Excess(merged, keep)) + [Stored(mem, rec)]
            && Durables(merged) <= keep + 1 && Durables(Cap(merged, keep)) <= keep
            && UniqueIds(Cap(merged, keep)) && AllNamed(Cap(merged, keep))
  {
    var rest, row, merged := Without(mem, Named(rec).id), Stored(mem, rec), Merge(mem, rec);
    MergeFacts(mem, rec);
    WithoutFacts(mem, Named(rec).id);
    WithoutLength(mem, Named(rec).id);
    DurablesSnoc(rest, row);
    DropSnoc(rest, row, Excess(merged, keep));
    DropFacts(merged, Excess(merged, keep));
    DropUnique(merged, Excess(merged, keep));
  }

  /** Memory after an upsert is a trim of the replayed file merged with the stored row. */
  lemma UpsertTrims(mem: seq<Row>, replay: seq<Row>, rec: Row, keep: nat)
    requires TrimOf(mem, replay) && UniqueIds(replay) && UniqueIds(mem) && AllNamed(mem)
    requires keep > 0 && Durables(mem) <= keep
    ensures TrimOf(Cap(Merge(mem, rec), keep), Without(replay, Named(rec).id) + [Stored(mem, rec)])
  {
    UpsertShape(mem, rec, keep);
    var left := WithoutDrop(replay, Durables(replay) - Durables(mem), Named(rec).id);
    TrimSnoc(Without(replay, Named(rec).id), Stored(mem, rec), left, Excess(Merge(mem, rec), keep));
  }

  lemma TrimSnoc(rest: seq<Row>, row: Row, left: nat, excess: nat)
    requires left <= Durables(rest) && excess <= Durables(DropDurable(rest, left))
    ensures TrimOf(DropDurable(DropDurable(rest, left), excess) + [row], rest + [row])
  {
    DropCount(rest, left);
    DropDrop(rest, left, excess);
    DropSnoc(rest, row, left + excess);
    DurablesSnoc(rest, row);
    TrimIs(rest + [row], left + excess);
  }

  lemma DropCount(list: seq<Row>, k: nat)
    requires k <= Durables(list)
    ensures Durables(DropDurable(list, k)) == Durables(list) - k
  {
    DropFacts(list, k);
  }

  lemma TrimIs(list: seq<Row>, k: nat)
    requires k <= Durables(list)
    ensures TrimOf(DropDurable(list, k), list)
  {
    DropCount(list, k);
  }

  /** An upsert keeps the invariant exactly when the record is stamped or the file is
      rewritten from memory anyway. */
  lemma UpsertedInv(log: Log, rec: Row, keep: nat)
    requires Inv(log, keep)
    ensures Inv(Upserted(log, rec, keep), keep) <==> Stamped(log, rec) || |log.file| >= 2 * keep
  {
    MemFacts(log, keep);
    UpsertShape(log.mem, rec, keep);
    var row := Stored(log.mem, rec);
    var next := Upserted(log, rec, keep);
    if |log.file| >= 2 * keep {
      CompactedInv(next, keep);
    } else {
      ReplayFacts(log.file);
      UpsertTrims(log.mem, Replay(log.file), rec, keep);
      StoredAgrees(log, rec, keep);
      ReplayAppend(log.file, row);
      UpsertLosses(log, rec, keep);
      if Inv(next, keep) {
        MemFacts(next, keep);
        ReplayFacts(log.file);
        MergeFacts(Replay(log.file), row);
        UniqueRow(Replay(next.file), row, Stored(Replay(log.file), row));
      }
    }
  }

  /** A row missing from memory after an upsert was missing before, or was trimmed now. */
  lemma UpsertLosses(log: Log, rec: Row, keep: nat)
    requires Inv(log, keep)
    ensures forall row | row in Without(Replay(log.file), Named(rec).id) + [Stored(log.mem, rec)] ::
              row in Upserted(log, rec, keep).mem || row in Upserted(log, rec, keep).trimmed
  {
    MemFacts(log, keep);
    ReplayFacts(log.file);
    WithoutFacts(log.mem, Named(rec).id);
    WithoutFacts(Replay(log.file), Named(rec).id);
    UpsertShape(log.mem, rec, keep);
  }

  // ---------------------------------------------------------------- every run

  /** `a` can be had by leaving rows out of `b`. */
  predicate Subsequence(a: seq<Row>, b: seq<Row>) {
    if a == [] then true
    else b != [] && if a[0] == b[0] then Subsequence(a[1..], b[1..]) else Subsequence(a, b[1..])
  }

  lemma {:induction false} DropSubsequence(list: seq<Row>, k: nat)
    requires UniqueIds(list)
    ensures Subsequence(DropDurable(list, k), list)
  {
    if list != [] {
      var head, tail := list[0], list[1..];
      if k > 0 && IsDurable(head.status) {
        DropSubsequence(tail, k - 1);
        DropMembers(tail, k - 1);
      } else {
        DropSubsequence(tail, k);
        assert ([head] + DropDurable(tail, k))[1..] == DropDurable(tail, k);
      }
    }
  }

  lemma {:induction false} DropMembers(list: seq<Row>, k: nat)
    ensures forall row :: row in DropDurable(list, k) ==> row in list
  {
    if list != [] {
      InCons(list);
      DropMembers(list[1..], if k > 0 && IsDurable(list[0].status) then k - 1 else k);
    }
  }

  datatype Op =
    | Upsert(rec: Row)
    | MarkForgotten(id: string)
    | SaveIds(id: string, body: int)
    | Delete(id: string)
    | Clear
    | Compact
    | Crash

  function Marked(log: Log, id: string, keep: nat): Log {
    var i := IndexOfId(log.mem, id);
    if id == "" || i == |log.mem| then log else Upserted(log, log.mem[i].(forgotten := true), keep)
  }

  /** bumpHistoryHookMessage: the row with this id gets other columns. */
  function Bumped(log: Log, id: string, body: int, keep: nat): Log {
    var i := IndexOfId(log.mem, id);
    if i == |log.mem| then log else Upserted(log, log.mem[i].(body := body), keep)
  }

  function Apply(log: Log, op: Op, keep: nat): Log {
    match op
    case Upsert(rec) => Upserted(log, rec, keep)
    case MarkForgotten(id) => Marked(log, id, keep)
    case SaveIds(id, body) => Bumped(log, id, body, keep)
    case Delete(id) => Deleted(log, id)
    case Clear => Cleared(log)
    case Compact => Compacted(log)
    case Crash => Loaded(log.file, keep, log.trimmed)
  }

  function Run(log: Log, ops: seq<Op>, keep: nat): Log {
    if ops == [] then log else Apply(Run(log, ops[..|ops| - 1], keep), ops[|ops| - 1], keep)
  }

  /** Every upsert of the run is stamped when its turn comes. */
  predicate StampedRun(log: Log, ops: seq<Op>, keep: nat) {
    forall i | 0 <= i < |ops| && ops[i].Upsert? :: Stamped(Run(log, ops[..i], keep), ops[i].rec)
  }

  lemma DeletedInv(log: Log, id: string, keep: nat)
    requires Inv(log, keep)
    ensures Inv(Deleted(log, id), keep)
  {
    MemFacts(log, keep);
    WithoutFacts(log.mem, id);
    WithoutLength(log.mem, id);
    if Deleted(log, id) != log {
      CompactedInv(Deleted(log, id), keep);
    }
  }

  lemma {:induction false} InFlightFacts(list: seq<Row>)
    requires UniqueIds(list)
    ensures UniqueIds(InFlightRows(list)) && Durables(InFlightRows(list)) == 0
    ensures forall row :: row in InFlightRows(list) <==> row in list && !IsDurable(row.status)
  {
    if list != [] {
      InCons(list);
      InFlightFacts(list[1..]);
      var rest := InFlightRows(list[1..]);
      assert ([list[0]] + rest)[1..] == rest;
      assert [] + rest == rest;
    }
  }

  lemma MarkedInv(log: Log, id: string, keep: nat)
    requires Inv(log, keep)
    ensures Inv(Marked(log, id, keep), keep)
  {
    MemFacts(log, keep);
    var i := IndexOfId(log.mem, id);
    if id != "" && i < |log.mem| {
      assert log.mem[i] in log.mem;
      UpsertedInv(log, log.mem[i].(forgotten := true), keep);
    }
  }

  /** Ids saved for an item that has left the map go into its own row, in memory and in the
      file: all other rows stay, nothing is trimmed, and without a row nothing changes. */
  lemma BumpedRow(log: Log, id: string, body: int, keep: nat)
    requires Inv(log, keep)
    ensures var next := Bumped(log, id, body, keep);
            && Inv(next, keep)
            && (if HasId(log.mem, id) then
                  var row := log.mem[IndexOfId(log.mem, id)].(body := body);
                  next.mem == Without(log.mem, id) + [row] && row in Replay(next.file)
                else next == log)
            && forall r: Row :: r.id != id ==> (r in next.mem <==> r in log.mem)
  {
    MemFacts(log, keep);
    IndexFound(log.mem, id);
    var i := IndexOfId(log.mem, id);
    if i < |log.mem| {
      assert log.mem[i] in log.mem;
      var rec := log.mem[i].(body := body);
      UpsertedInv(log, rec, keep);
      ReplacedShape(log.mem, i, rec, keep);
      WithoutFacts(log.mem, id);
      MemFacts(Bumped(log, id, body, keep), keep);
    }
  }

  /** A row that is replaced by one of the same status trims nothing. */
  lemma ReplacedShape(mem: seq<Row>, i: nat, rec: Row, keep: nat)
    requires UniqueIds(mem) && AllNamed(mem) && keep > 0 && Durables(mem) <= keep
    requires i < |mem| && IndexOfId(mem, rec.id) == i && Named(rec) == rec
    requires rec.status == mem[i].status && rec.started == mem[i].started
    ensures Cap(Merge(mem, rec), keep) == Without(mem, rec.id) + [rec]
  {
    UpsertShape(mem, rec, keep);
    DurablesSnoc(Without(mem, rec.id), rec);
    ReplacedDurables(mem, rec.id);
    DropFacts(Without(mem, rec.id), 0);
  }

  lemma {:induction false} ReplacedDurables(list: seq<Row>, id: string)
    requires HasId(list, id)
    ensures var row := list[IndexOfId(list, id)];
            Durables(list) == Durables(Without(list, id)) + if IsDurable(row.status) then 1 else 0
  {
    InCons(list);
    if list[0].id != id {
      ReplacedDurables(list[1..], id);
      var rest := Without(list[1..], id);
      assert ([list[0]] + rest)[1..] == rest;
    }
  }

  lemma ApplyInv(log: Log, op: Op, keep: nat)
    requires Inv(log, keep) && (op.Upsert? ==> Stamped(log, op.rec))
    ensures Inv(Apply(log, op, keep), keep)
  {
    MemFacts(log, keep);
    match op {
      case Upsert(rec) => UpsertedInv(log, rec, keep);
      case MarkForgotten(id) => MarkedInv(log, id, keep);
      case SaveIds(id, body) => BumpedRow(log, id, body, keep);
      case Delete(id) => DeletedInv(log, id, keep);
      case Clear => InFlightFacts(log.mem); CompactedInv(Cleared(log), keep);
      case Compact => CompactedInv(log, keep);
      case Crash => LoadedInv(log.file, keep, log.trimmed);
    }
  }

  /** From any file, well formed or not, every stamped run keeps the invariant. */
  lemma {:induction false} RunInv(file: seq<Line>, ops: seq<Op>, keep: nat)
    requires keep > 0 && StampedRun(Loaded(file, keep, {}), ops, keep)
    ensures Inv(Run(Loaded(file, keep, {}), ops, keep), keep)
  {
    var start := Loaded(file, keep, {});
    if ops == [] {
      LoadedInv(file, keep, {});
    } else {
      var init := ops[..|ops| - 1];
      forall i | 0 <= i < |init| && init[i].Upsert? ensures Stamped(Run(start, init[..i], keep), init[i].rec) {
        assert init[..i] == ops[..i];
      }
      RunInv(file, init, keep);
      ApplyInv(Run(start, init, keep), ops[|ops| - 1], keep);
    }
  }

  /** A crash after any stamped run loses nothing: what comes back is memory plus, in
      front of their turn, durable rows that memory had trimmed. */
  lemma CrashLosesNothing(file: seq<Line>, ops: seq<Op>, keep: nat)
    requires keep > 0 && StampedRun(Loaded(file, keep, {}), ops, keep)
    ensures var log := Run(Loaded(file, keep, {}), ops, keep);
            var back := Loaded(log.file, keep, {}).mem;
            && Subsequence(log.mem, back)
            && InFlightRows(back) == InFlightRows(log.mem)
            && Durables(back) <= keep
            && TrimOf(log.mem, back)
            && (forall row :: row in back && row !in log.mem ==> IsDurable(row.status) && row in log.trimmed)
            && |log.file| <= Larger(2 * keep, |log.mem|)
  {
    RunInv(file, ops, keep);
    ReloadFacts(Run(Loaded(file, keep, {}), ops, keep), keep);
  }

  lemma TrimChain(list: seq<Row>, j: nat, k: nat)
    requires j <= k <= Durables(list)
    ensures TrimOf(DropDurable(list, k), DropDurable(list, j))
  {
    DropFacts(list, j);
    DropDrop(list, j, k - j);
    TrimIs(DropDurable(list, j), k - j);
  }

  lemma CapFacts(list: seq<Row>, keep: nat)
    requires keep > 0 && UniqueIds(list)
    ensures Durables(Cap(list, keep)) <= keep && UniqueIds(Cap(list, keep))
    ensures Excess(list, keep) <= Durables(list)
    ensures forall row :: row in Cap(list, keep) ==> row in list
  {
    DropFacts(list, Excess(list, keep));
    DropUnique(list, Excess(list, keep));
  }

  /** Trimming the replayed file to the cap leaves at least what memory has. */
  lemma ReloadTrims(mem: seq<Row>, replay: seq<Row>, keep: nat)
    requires keep > 0 && TrimOf(mem, replay) && Durables(mem) <= keep
    ensures TrimOf(mem, Cap(replay, keep))
  {
    TrimChain(replay, Excess(replay, keep), Durables(replay) - Durables(mem));
  }

  /** What a trim is, seen from the list that was trimmed. */
  lemma TrimFacts(mem: seq<Row>, back: seq<Row>)
    requires TrimOf(mem, back) && UniqueIds(back)
    ensures Subsequence(mem, back) && InFlightRows(back) == InFlightRows(mem)
    ensures forall row :: row in back && row !in mem ==> IsDurable(row.status)
  {
    DropFacts(back, Durables(back) - Durables(mem));
    DropSubsequence(back, Durables(back) - Durables(mem));
  }

  lemma ReloadFacts(log: Log, keep: nat)
    requires Inv(log, keep)
    ensures var back := Loaded(log.file, keep, {}).mem;
            && Subsequence(log.mem, back)
            && InFlightRows(back) == InFlightRows(log.mem)
            && Durables(back) <= keep
            && TrimOf(log.mem, back)
            && (forall row :: row in back && row !in log.mem ==> IsDurable(row.status) && row in log.trimmed)
  {
    ReplayFacts(log.file);
    CapFacts(Replay(log.file), keep);
    ReloadTrims(log.mem, Replay(log.file), keep);
    TrimFacts(log.mem, Cap(Replay(log.file), keep));
  }

  /** A crash and reload gives memory back unchanged exactly when memory is full of
      durable rows, or the file holds no durable row that memory lacks. */
  lemma ReloadExact(log: Log, keep: nat)
    requires Inv(log, keep)
    ensures Loaded(log.file, keep, {}).mem == log.mem
       <==> Durables(log.mem) == keep || Durables(Replay(log.file)) == Durables(log.mem)
  {
    var replay := Replay(log.file);
    var j, k := Excess(replay, keep), Durables(replay) - Durables(log.mem);
    DropFacts(replay, j);
    DropFacts(replay, k);
  }
}
