/** The history of pkg/unpackerr/historyfile.go as the object that the program updates;
    each method is tied to its function in HistoryLog. */
module HistoryStore {

  import opened HistoryLog

  lemma {:induction false} WithoutIndex(list: seq<Row>, id: string)
    requires IndexOfId(list, id) < |list|
    ensures Without(list, id) == list[..IndexOfId(list, id)] + list[IndexOfId(list, id) + 1..]
  {
    if list[0].id != id {
      WithoutIndex(list[1..], id);
      SpliceCons(list, IndexOfId(list[1..], id));
    }
  }

  lemma SpliceCons(list: seq<Row>, i: nat)
    requires i < |list| - 1
    ensures [list[0]] + (list[1..][..i] + list[1..][i + 1..]) == list[..i + 1] + list[i + 2..]
  {
  }

  /** records, histLines and histPath of the running program, with the file on disk. */
  class Store {
    const keep: nat
    const hasFile: bool  // histPath is not empty
    var records: seq<Row>
    var file: seq<Line>
    var histLines: nat
    ghost var trimmed: set<Row>

    ghost predicate Valid()
      reads this
    {
      histLines == |file| && (!hasFile ==> file == [])
    }

    ghost function View(): Log
      reads this
    {
      Log(records, file, trimmed)
    }

    constructor (keep: nat, hasFile: bool, disk: seq<Line>)
      requires !hasFile ==> disk == []
      ensures Valid() && this.keep == keep && this.hasFile == hasFile
      ensures records == [] && file == disk && trimmed == {}
    {
      this.keep := keep;
      this.hasFile := hasFile;
      records, file, histLines, trimmed := [], disk, |disk|, {};
    }

    /** Upserts recs onto list by id, keeping a start time that rec lacks. */
    method MergeHistory(list: seq<Row>, recs: seq<Row>) returns (merged: seq<Row>)
      ensures merged == MergeAll(list, recs)
    {
      merged := list;
      for n := 0 to |recs|
        invariant merged == MergeAll(list, recs[..n])
      {
        var rec := if recs[n].id == "" then recs[n].(id := recs[n].path) else recs[n];
        var idx := IndexOfId(merged, rec.id);
        assert recs[..n + 1][..n] == recs[..n];
        IndexFound(merged, rec.id);
        if idx < |merged| {
          if rec.started == 0 {
            rec := rec.(started := merged[idx].started);
          }
          WithoutIndex(merged, rec.id);
          merged := merged[..idx] + merged[idx + 1..];
        } else {
          WithoutAbsent(merged, rec.id);
        }
        merged := merged + [rec];
      }
      assert recs[..|recs|] == recs;
    }

    method CountDurable(list: seq<Row>) returns (durable: nat)
      ensures durable == Durables(list)
    {
      durable := 0;
      for n := 0 to |list|
        invariant durable == Durables(list[..n])
      {
        assert list[..n + 1] == list[..n] + [list[n]];
        DurablesSnoc(list[..n], list[n]);
        if IsDurable(list[n].status) {
          durable := durable + 1;
        }
      }
      assert list[..|list|] == list;
    }

    /** Trims durable rows from the front until keep of them are left. */
    method CapHistory(list: seq<Row>) returns (out: seq<Row>)
      ensures out == Cap(list, keep)
    {
      if keep == 0 {
        return list;
      }
      var durable := CountDurable(list);
      if durable <= keep {
        DropFacts(list, 0);
        return list;
      }
      var drop := durable - keep;
      out := [];
      for n := 0 to |list|
        invariant drop >= 0
        invariant out + DropDurable(list[n..], drop) == DropDurable(list, Excess(list, keep))
      {
        assert list[n..][1..] == list[n + 1..];
        if drop > 0 && IsDurable(list[n].status) {
          drop := drop - 1;
        } else {
          out := out + [list[n]];
        }
      }
    }

    method ReadHistoryRecords() returns (lines: nat, rows: seq<Row>)
      ensures lines == |file| && rows == RowsOf(file)
    {
      lines, rows := 0, [];
      for n := 0 to |file|
        invariant lines == n && rows == RowsOf(file[..n])
      {
        lines := lines + 1;
        assert file[..n + 1][..n] == file[..n];
        match file[n] {
          case Good(row) => rows := rows + [row];
          case Bad =>
        }
      }
      assert file[..|file|] == file;
    }

    method CompactHistory()
      requires Valid()
      modifies this
      ensures Valid()
      ensures View() == if hasFile then Compacted(old(View())) else old(View())
    {
      if hasFile {
        file, histLines := Lines(records), |records|;
      }
    }

    method LoadHistory()
      requires Valid()
      modifies this
      ensures Valid()
      ensures View() == if keep > 0 && hasFile then Loaded(old(file), keep, old(trimmed)) else old(View())
    {
      if keep == 0 || !hasFile {
        return;
      }
      var lines, rows := ReadHistoryRecords();
      var merged := MergeHistory([], rows);
      records := CapHistory(merged);
      trimmed := trimmed + Dropped(merged, Excess(merged, keep));
      histLines := lines;
      if lines != |records| {
        CompactHistory();
      }
    }

    method UpsertHistory(rec: Row)
      requires Valid() && keep > 0
      modifies this
      ensures Valid()
      ensures var next := Upserted(old(View()), rec, keep);
              View() == if hasFile then next else next.(file := [])
    {
      var merged := MergeHistory(records, [rec]);
      MergeOne(records, rec);
      records := CapHistory(merged);
      trimmed := trimmed + Dropped(merged, Excess(merged, keep));
      if |records| == 0 || !hasFile {
        return;
      }
      if histLines >= 2 * keep {
        CompactHistory();
        return;
      }
      file, histLines := file + [Good(records[|records| - 1])], histLines + 1;
    }

    method DeleteHistoryID(id: string) returns (outcome: Outcome)
      requires Valid()
      modifies this
      ensures Valid()
      ensures var next := Deleted(old(View()), id);
              View() == if hasFile then next else next.(file := [])
      ensures outcome == NotFound <==> !HasId(old(records), id)
      ensures outcome == InFlight <==> IndexOfId(old(records), id) < |old(records)|
                                       && !IsDurable(old(records)[IndexOfId(old(records), id)].status)
    {
      IndexFound(records, id);
      var idx := IndexOfId(records, id);
      if idx == |records| {
        return NotFound;
      }
      if !IsDurable(records[idx].status) {
        return InFlight;
      }
      WithoutIndex(records, id);
      records := records[..idx] + records[idx + 1..];
      CompactHistory();
      return Ok;
    }

    method ClearHistory()
      requires Valid()
      modifies this
      ensures Valid()
      ensures View() == if hasFile then Cleared(old(View())) else Cleared(old(View())).(file := [])
    {
      records := InFlightRows(records);
      CompactHistory();
    }

    method MarkHistoryForgotten(id: string)
      requires Valid()
      modifies this
      ensures Valid()
      ensures var next := if keep == 0 then old(View()) else Marked(old(View()), id, keep);
              View() == if hasFile then next else next.(file := [])
    {
      if keep == 0 || id == "" {
        return;
      }
      var idx := IndexOfId(records, id);
      if idx < |records| {
        UpsertHistory(records[idx].(forgotten := true));
      }
    }

    /** body stands for the columns of the row with the saved id among its hook messages. */
    method BumpHistoryHookMessage(id: string, body: int)
      requires Valid()
      modifies this
      ensures Valid()
      ensures var next := if keep == 0 then old(View()) else Bumped(old(View()), id, body, keep);
              View() == if hasFile then next else next.(file := [])
    {
      if keep == 0 {
        return;
      }
      for i := 0 to |records|
        invariant forall k :: 0 <= k < i ==> records[k].id != id
        invariant Valid() && View() == old(View())
      {
        if records[i].id == id {
          IndexIs(records, id, i);
          UpsertHistory(records[i].(body := body));
          return;
        }
      }
      IndexIs(records, id, |records|);
    }
  }

  lemma IndexIs(list: seq<Row>, id: string, i: nat)
    requires i <= |list| && (i < |list| ==> list[i].id == id)
    requires forall k :: 0 <= k < i ==> list[k].id != id
    ensures IndexOfId(list, id) == i
  {
  }

  lemma MergeOne(list: seq<Row>, rec: Row)
    ensures MergeAll(list, [rec]) == Merge(list, rec)
  {
    assert [rec][..0] == [];
  }
}
