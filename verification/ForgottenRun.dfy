/** A run of the steps in Lifecycle in which a forgotten download has its files deleted: its
    row is trimmed before the user forgets it, and a restart reads it back. */
module ForgottenRun {

  import opened HistoryLog
  import opened Lifecycle
  import opened LifecycleClock
  import opened LifecycleRuns
  import opened Wrappers

  const NOTHING := Life(None, None, false)

  /** What is known of every title. */
  ghost predicate Lives(s: State, m: map<string, Life>) {
    forall u {:trigger LifeOf(s, u)} :: LifeOf(s, u) == if u in m then m[u] else NOTHING
  }

  function Queue(titles: seq<string>): seq<Record> {
    seq(|titles|, i requires 0 <= i < |titles| => Record(titles[i], true))
  }

  lemma InQueue(titles: seq<string>, t: string)
    ensures AllComplete(Queue(titles)) && (HasTitle(Queue(titles), t) <==> t in titles)
  {
    if t in titles {
      var i :| 0 <= i < |titles| && titles[i] == t;
      assert Queue(titles)[i].title == t;
    }
  }

  const ALL := ["a", "b", "c", "d"]
  const REST := ["b", "c", "d"]

  function Done(item: Extract): Life {
    Life(Some(item), Some(NewRow(item)), true)
  }

  // ---------------------------------------------------------------- the run

  /** Four downloads: the first is imported, and the row of each of the others becomes
      durable after it, one more than the history keeps. */
  function FourEnded(inst: Instance): seq<Event> {
    TakenUp(inst, Queue(ALL)) + Extraction("a", 1, Succeeded) + Check(Queue(REST), 10)
    + Extraction("b", 11, Failed(true)) + Extraction("d", 21, Failed(true)) + Extraction("c", 31, Failed(false))
  }

  /** The oldest is trimmed, then forgotten; the last is retried and goes back to in-flight. */
  function ForgottenTrimmed(inst: Instance): seq<Event> {
    FourEnded(inst) + [Trim("a"), Forget("a")] + [Retry("c", 40), StartExtract("c", 41)]
  }

  /** The process restarts. */
  function Reloaded(inst: Instance, now: int): seq<Event> {
    ForgottenTrimmed(inst) + Reopening({"a", "b", "c", "d"}, inst, Queue(REST), now)
  }

  // ---------------------------------------------------------------- what is known along the way

  /** After these events the instances are just inst, and m is known of the titles. */
  ghost predicate Known(cfg: Settings, events: seq<Event>, inst: Instance, m: map<string, Life>) {
    var s := After(cfg, events); s.instances == [inst] && Lives(s, m)
  }

  /** A new download, not yet extracted. */
  function Fresh(inst: Instance): Life {
    Life(Some(NewItem(inst, 0)), None, false)
  }

  function WithQueue(inst: Instance, titles: seq<string>): Instance {
    inst.(polled := true, queue := Queue(titles))
  }

  lemma Begins(cfg: Settings, inst: Instance)
    requires Plain(inst)
    ensures var newly := Fresh(inst);
            Known(cfg, TakenUp(inst, Queue(ALL)), WithQueue(inst, ALL),
                  map["a" := newly, "b" := newly, "c" := newly, "d" := newly])
  {
    InQueue(ALL, "a");
    TakesUp(cfg, inst, Queue(ALL));
    var s := After(cfg, TakenUp(inst, Queue(ALL)));
    forall u ensures u in s.items <==> u in ALL {
      InQueue(ALL, u);
    }
  }

  lemma Extends(cfg: Settings, events: seq<Event>, inst: Instance, m: map<string, Life>,
                t: string, now: int, stage: Stage, item: Extract)
    requires Known(cfg, events, inst, m) && inst.polled && (stage.Failed? || stage.Succeeded?)
    requires t in m && m[t].item == Some(item) && item.status == WAITING
    ensures Known(cfg, events + Extraction(t, now, stage), inst, m[t := Done(Extracted(item, now, stage))])
  {
    var s := After(cfg, events);
    assert LifeOf(s, t).item == Some(item);
    OneReady(inst, item);
    Extracts(cfg, s, t, now, stage);
    FromAppend(cfg, Start(), events, Extraction(t, now, stage));
  }

  lemma ImportsOne(cfg: Settings, s: State, m: map<string, Life>, inst: Instance, item: Extract, u: string)
    requires s.instances == [inst] && Lives(s, m)
    requires "a" in m && m["a"].item == Some(item) && item.status == EXTRACTED
    requires u in m ==> u in ALL && (u != "a" ==> m[u].item == Some(NewItem(inst, 0)))
    ensures LifeOf(From(cfg, s, Check(Queue(REST), 10)), u)
         == if u == "a" then Done(item.(status := IMPORTED, updated := 10)) else LifeOf(s, u)
  {
    var next := WithQueue(inst, REST);
    InQueue(REST, u);
    Checks(cfg, s, Queue(REST), 10, u);
    if u == "a" {
      CheckImports(next, u, LifeOf(s, u), item, 10);
    } else if u in m {
      CheckHolds(next, u, LifeOf(s, u), NewItem(inst, 0), 10);
    }
  }

  lemma Imports(cfg: Settings, events: seq<Event>, inst: Instance, m: map<string, Life>, item: Extract)
    requires Known(cfg, events, inst, m)
    requires m.Keys == {"a", "b", "c", "d"} && m["a"].item == Some(item) && item.status == EXTRACTED
    requires forall t :: t in m && t != "a" ==> m[t].item == Some(NewItem(inst, 0))
    ensures Known(cfg, events + Check(Queue(REST), 10), WithQueue(inst, REST),
                  m["a" := Done(item.(status := IMPORTED, updated := 10))])
  {
    var s := After(cfg, events);
    FromAppend(cfg, Start(), events, Check(Queue(REST), 10));
    Checks(cfg, s, Queue(REST), 10, "a");
    forall u {
      ImportsOne(cfg, s, m, inst, item, u);
    }
  }

  lemma FirstEnded(cfg: Settings, inst: Instance, newly: Life, first: Life)
    requires Plain(inst) && newly == Fresh(inst) && first == Done(ImportedItem(inst, 10))
    ensures Known(cfg, TakenUp(inst, Queue(ALL)) + Extraction("a", 1, Succeeded) + Check(Queue(REST), 10),
                  WithQueue(inst, REST), map["a" := first, "b" := newly, "c" := newly, "d" := newly])
  {
    var item := NewItem(inst, 0);
    var m := map["a" := newly, "b" := newly, "c" := newly, "d" := newly];
    var e := TakenUp(inst, Queue(ALL));
    Begins(cfg, inst);
    Extends(cfg, e, WithQueue(inst, ALL), m, "a", 1, Succeeded, item);
    m := m["a" := Done(Extracted(item, 1, Succeeded))];
    Imports(cfg, e + Extraction("a", 1, Succeeded), WithQueue(inst, ALL), m, Extracted(item, 1, Succeeded));
    assert m["a" := first] == map["a" := first, "b" := newly, "c" := newly, "d" := newly];
  }

  function FourLives(inst: Instance): map<string, Life> {
    var item := NewItem(inst, 0);
    map["a" := Done(ImportedItem(inst, 10)), "b" := Done(Extracted(item, 11, Failed(true))),
        "c" := Done(Extracted(item, 31, Failed(false))), "d" := Done(Extracted(item, 21, Failed(true)))]
  }

  lemma AllEnded(cfg: Settings, inst: Instance)
    requires Plain(inst)
    ensures Known(cfg, FourEnded(inst), WithQueue(inst, REST), FourLives(inst))
  {
    var item, newly, first, next := NewItem(inst, 0), Fresh(inst), Done(ImportedItem(inst, 10)), WithQueue(inst, REST);
    var m := map["a" := first, "b" := newly, "c" := newly, "d" := newly];
    var e := TakenUp(inst, Queue(ALL)) + Extraction("a", 1, Succeeded) + Check(Queue(REST), 10);
    FirstEnded(cfg, inst, newly, first);
    Extends(cfg, e, next, m, "b", 11, Failed(true), item);
    m := m["b" := Done(Extracted(item, 11, Failed(true)))];
    e := e + Extraction("b", 11, Failed(true));
    Extends(cfg, e, next, m, "d", 21, Failed(true), item);
    m := m["d" := Done(Extracted(item, 21, Failed(true)))];
    e := e + Extraction("d", 21, Failed(true));
    Extends(cfg, e, next, m, "c", 31, Failed(false), item);
    assert FourLives(inst) == m["c" := Done(Extracted(item, 31, Failed(false)))];
  }

  // ---------------------------------------------------------------- trimmed and forgotten

  lemma FourDurable(s: State, m: map<string, Life>)
    requires Lives(s, m) && m.Keys == {"a", "b", "c", "d"}
    requires forall t :: t in m ==> m[t].kept && m[t].row.Some? && IsDurable(m[t].row.value.item.status)
    ensures DurableTitles(s, s.kept) == {"a", "b", "c", "d"} && |DurableTitles(s, s.kept)| == 4
  {
    forall u ensures u in DurableTitles(s, s.kept) <==> u in m {
      assert LifeOf(s, u) == if u in m then m[u] else NOTHING;
    }
    assert DurableTitles(s, s.kept) == {"a", "b", "c", "d"};
  }

  /** A trimmed title that is then forgotten keeps its row in the file, unflagged. */
  lemma TrimsAndForgets(cfg: Settings, s: State, row: HistoryRow)
    requires "a" in DurableTitles(s, s.kept) && |DurableTitles(s, s.kept)| > cfg.keepHistory
    requires LifeOf(s, "a").item.Some? && IsDurable(s.items["a"].status) && LifeOf(s, "a").row == Some(row)
    ensures var n := From(cfg, s, [Trim("a"), Forget("a")]);
            && n.instances == s.instances && "a" in n.forgotten && LifeOf(n, "a") == Life(None, Some(row), false)
            && forall u :: u != "a" ==> LifeOf(n, u) == LifeOf(s, u)
  {
    FromTwo(cfg, s, Trim("a"), Forget("a"));
  }

  /** The retry itself is not recorded, the next extraction is. */
  lemma RetriesAndQueues(cfg: Settings, s: State, inst: Instance, item: Extract)
    requires s.instances == [inst] && inst.polled && LifeOf(s, "c").item == Some(item) && item.status == EXTRACTFAILED
    ensures var n := From(cfg, s, [Retry("c", 40), StartExtract("c", 41)]);
            && n.forgotten == s.forgotten
            && LifeOf(n, "c") == Done(RetriedByHand(item, 40).(status := QUEUED, updated := 41))
            && forall u :: u != "c" ==> LifeOf(n, u) == LifeOf(s, u)
  {
    FromTwo(cfg, s, Retry("c", 40), StartExtract("c", 41));
    var retried := Next(cfg, s, Retry("c", 40));
    assert retried.items["c"] == RetriedByHand(item, 40);
    OneReady(inst, retried.items["c"]);
    RecordedOn(retried, "c", RetriedByHand(item, 40).(status := QUEUED, updated := 41), 41);
    assert forall u :: u != "c" ==> LifeOf(retried, u) == LifeOf(s, u);
  }

  function LastLives(inst: Instance): map<string, Life> {
    var queued := RetriedByHand(Extracted(NewItem(inst, 0), 31, Failed(false)), 40).(status := QUEUED, updated := 41);
    FourLives(inst)["a" := Life(None, Some(NewRow(ImportedItem(inst, 10))), false)]["c" := Done(queued)]
  }

  lemma TrimmedLives(cfg: Settings, s: State, inst: Instance, next: Instance)
    requires Lives(s, FourLives(inst)) && s.instances == [next] && next.polled && cfg.keepHistory == 3
    ensures var n := From(cfg, s, [Trim("a"), Forget("a")]);
            && n.instances == [next] && "a" in n.forgotten
            && Lives(n, FourLives(inst)["a" := Life(None, Some(NewRow(ImportedItem(inst, 10))), false)])
  {
    FourDurable(s, FourLives(inst));
    assert LifeOf(s, "a") == Done(ImportedItem(inst, 10));
    TrimsAndForgets(cfg, s, NewRow(ImportedItem(inst, 10)));
  }

  lemma QueuedLives(cfg: Settings, s: State, m: map<string, Life>, next: Instance, item: Extract)
    requires Lives(s, m) && s.instances == [next] && next.polled
    requires "c" in m && m["c"].item == Some(item) && item.status == EXTRACTFAILED
    ensures var n := From(cfg, s, [Retry("c", 40), StartExtract("c", 41)]);
            && n.forgotten == s.forgotten
            && Lives(n, m["c" := Done(RetriedByHand(item, 40).(status := QUEUED, updated := 41))])
  {
    assert LifeOf(s, "c").item == Some(item);
    RetriesAndQueues(cfg, s, next, item);
  }

  lemma ForgottenLives(cfg: Settings, inst: Instance)
    requires Plain(inst) && cfg.keepHistory == 3
    ensures var s := After(cfg, ForgottenTrimmed(inst)); "a" in s.forgotten && Lives(s, LastLives(inst))
  {
    var e, next := FourEnded(inst), WithQueue(inst, REST);
    AllEnded(cfg, inst);
    TrimmedLives(cfg, After(cfg, e), inst, next);
    FromAppend(cfg, Start(), e, [Trim("a"), Forget("a")]);
    var m := FourLives(inst)["a" := Life(None, Some(NewRow(ImportedItem(inst, 10))), false)];
    QueuedLives(cfg, After(cfg, e + [Trim("a"), Forget("a")]), m, next, Extracted(NewItem(inst, 0), 31, Failed(false)));
    FromAppend(cfg, Start(), e + [Trim("a"), Forget("a")], [Retry("c", 40), StartExtract("c", 41)]);
  }

  // ---------------------------------------------------------------- read back and deleted

  lemma Loads(cfg: Settings, s: State, m: map<string, Life>, inst: Instance, now: int)
    requires Lives(s, m) && m.Keys == {"a", "b", "c", "d"} && cfg.keepHistory == 3
    requires forall t :: t in m ==> m[t].row.Some? && (m[t].kept <==> t != "a")
    requires forall t :: t in m ==> (IsDurable(m[t].row.value.item.status) <==> t != "c")
    ensures Enabled(cfg, s, Restart({"a", "b", "c", "d"}, [inst], now))
  {
    var loaded := {"a", "b", "c", "d"};
    forall u ensures (u in s.rows <==> u in loaded) && (u in s.kept <==> u in loaded && u != "a") {
      assert LifeOf(s, u) == if u in m then m[u] else NOTHING;
    }
    forall u ensures u in DurableTitles(s, loaded) <==> u in {"a", "b", "d"} {
      assert LifeOf(s, u) == if u in m then m[u] else NOTHING;
    }
    assert DurableTitles(s, loaded) == {"a", "b", "d"};
  }

  lemma ReadyAgain(cfg: Settings, s: State, inst: Instance, now: int)
    requires Plain(inst) && Lives(s, LastLives(inst)) && 0 < inst.deleteDelay <= now - 10 <= RESTORE_AGE
    ensures ReadyToDelete(cfg, s, "a", inst, now) && !IsImported(s, "a")
  {
    assert LifeOf(s, "a") == Life(None, Some(NewRow(ImportedItem(inst, 10))), false);
  }

  /** For every instance and every time of the restart: the user forgets the download, and
      this run deletes its files. */
  lemma ForgottenDeleted(cfg: Settings, inst: Instance, now: int) returns (d: Deletion)
    requires Plain(inst) && cfg.keepHistory == 3 && 0 < inst.deleteDelay <= now - 10 <= RESTORE_AGE
    ensures "a" in After(cfg, ForgottenTrimmed(inst)).forgotten
    ensures d in After(cfg, Reloaded(inst, now)).deletions && d.title == "a"
  {
    var s := After(cfg, ForgottenTrimmed(inst));
    ForgottenLives(cfg, inst);
    Loads(cfg, s, LastLives(inst), inst, now);
    ReadyAgain(cfg, s, inst, now);
    InQueue(REST, "a");
    var loaded := {"a", "b", "c", "d"};
    d := ReopenedDeletes(cfg, Reloaded(inst, now), ForgottenTrimmed(inst), s, "a", loaded, inst, Queue(REST), now);
  }
}
