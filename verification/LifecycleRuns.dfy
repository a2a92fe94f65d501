/** Runs of the steps in Lifecycle, from the start, that lead where the program's promises
    end: told title by title, because a step changes one title without a look at others. */
module LifecycleRuns {

  import opened HistoryLog
  import opened Lifecycle
  import opened LifecycleClock
  import opened LifecycleDeletions
  import opened LifecycleSafety
  import opened Wrappers

  // ---------------------------------------------------------------- one title at a time

  /** A title's item, its row in the file, and whether the row is in memory. */
  datatype Life = Life(item: Option<Extract>, row: Option<HistoryRow>, kept: bool)

  function LifeOf(s: State, t: string): Life {
    Life(if t in s.items then Some(s.items[t]) else None, if t in s.rows then Some(s.rows[t]) else None, t in s.kept)
  }

  function Fated(life: Life, fate: Fate): Life {
    match fate
    case Drop => life.(item := None)
    case Stay(item, recorded, _) =>
      if recorded then Life(Some(item), Some(NewRow(item)), true) else life.(item := Some(item))
  }

  lemma FatesOn(s: State, fates: map<string, Fate>, now: int, t: string)
    requires fates.Keys == s.items.Keys
    ensures LifeOf(WithFates(s, fates, now), t) == if t in s.items then Fated(LifeOf(s, t), fates[t]) else LifeOf(s, t)
  {
  }

  lemma QueueCheckOn(cfg: Settings, s: State, now: int, t: string)
    ensures var n, life := Next(cfg, s, QueueChanges(now)), LifeOf(s, t);
            && n.instances == s.instances && n.forgotten == s.forgotten
            && LifeOf(n, t) == match life.item
                               case Some(item) => Fated(life, AfterQueueChange(s.instances, t, item, now))
                               case None => life
  {
    FatesOn(s, QueueFates(s, now), now, t);
  }

  lemma CleanerOn(cfg: Settings, s: State, now: int, t: string)
    requires t in s.items && AfterCleaner(cfg, s.instances, t, s.items[t], now).Stay?
    requires AfterCleaner(cfg, s.instances, t, s.items[t], now).deleted
    ensures Deletion(t, s.items[t], now, s.instances, s.polls) in Next(cfg, s, Cleaner(now)).deletions
  {
  }

  lemma {:induction false} FromAppend(cfg: Settings, s: State, a: seq<Event>, b: seq<Event>)
    ensures From(cfg, s, a + b) == From(cfg, From(cfg, s, a), b)
    decreases |b|
  {
    if b == [] {
      assert a + b == a;
    } else {
      var init := b[..|b| - 1];
      FromAppend(cfg, s, a, init);
      assert (a + b)[..|a + b| - 1] == a + init;
    }
  }

  lemma FromOne(cfg: Settings, s: State, e: Event)
    ensures From(cfg, s, [e]) == Next(cfg, s, e)
  {
    assert [e][..0] == [];
  }

  lemma FromTwo(cfg: Settings, s: State, e: Event, f: Event)
    ensures From(cfg, s, [e, f]) == Next(cfg, Next(cfg, s, e), f)
  {
    FromOne(cfg, s, e);
    assert [e, f][..1] == [e];
  }

  lemma FromThree(cfg: Settings, s: State, e: Event, f: Event, g: Event)
    ensures From(cfg, s, [e, f, g]) == Next(cfg, Next(cfg, Next(cfg, s, e), f), g)
  {
    FromTwo(cfg, s, e, f);
    assert [e, f, g][..2] == [e, f];
  }

  // ---------------------------------------------------------------- queued and extracted

  /** A configured instance is polled, and the titles of its queue are taken up. */
  function TakenUp(inst: Instance, queue: seq<Record>): seq<Event> {
    [ConfigPut([inst]), PollOk(0, queue), CheckQueues(0)]
  }

  predicate AllComplete(queue: seq<Record>) {
    forall i :: 0 <= i < |queue| ==> queue[i].complete
  }

  lemma {:induction false} AllNew(inst: Instance, recs: seq<Record>, now: int)
    requires AllComplete(recs)
    ensures var items := WithRecords(map[], {}, inst, recs, now);
            && (forall t :: t in items <==> HasTitle(recs, t))
            && (forall t :: t in items ==> items[t] == NewItem(inst, now))
  {
    if recs != [] {
      var init, last := recs[..|recs| - 1], recs[|recs| - 1];
      AllNew(inst, init, now);
      forall t ensures HasTitle(recs, t) <==> HasTitle(init, t) || t == last.title {
        assert recs == init + [last];
        assert forall i :: 0 <= i < |init| ==> recs[i] == init[i];
        assert t == last.title ==> recs[|init|].title == t;
      }
    }
  }

  predicate Untouched(s: State) {
    s.rows == map[] && s.kept == {} && s.forgotten == {}
  }

  lemma TakesUp(cfg: Settings, inst: Instance, queue: seq<Record>)
    requires AllComplete(queue) && !inst.polled && inst.queue == []
    ensures var s := From(cfg, Start(), TakenUp(inst, queue));
            && s.instances == [inst.(polled := true, queue := queue)] && Untouched(s)
            && (forall t :: t in s.items <==> HasTitle(queue, t))
            && (forall t :: t in s.items ==> s.items[t] == NewItem(inst, 0))
  {
    FromThree(cfg, Start(), ConfigPut([inst]), PollOk(0, queue), CheckQueues(0));
    assert Enabled(cfg, Start(), ConfigPut([inst]));
    var polled := inst.(polled := true, queue := queue);
    var s := Next(cfg, Next(cfg, Start(), ConfigPut([inst])), PollOk(0, queue));
    assert s.instances == [polled];
    AllNew(polled, queue, 0);
    assert [polled][..0] == [];
    assert WithInstances(map[], {}, [], 0) == map[];
  }

  /** The extraction of a title, with its reports. */
  function Extraction(t: string, now: int, stage: Stage): seq<Event> {
    [StartExtract(t, now), Callback(t, Report(Began, 0), now + 1), Callback(t, Report(stage, 1), now + 2)]
  }

  function Extracted(item: Extract, now: int, stage: Stage): Extract
    requires stage.Failed? || stage.Succeeded?
  {
    item.(files := 1, updated := now + 2, status := if stage.Failed? then EXTRACTFAILED else EXTRACTED,
          noRetry := item.noRetry || (stage.Failed? && stage.limit))
  }

  /** n is s with a recorded change of one title. */
  ghost predicate Rewrites(s: State, n: State, t: string, item: Extract) {
    && n.instances == s.instances && n.forgotten == s.forgotten
    && n.kept == s.kept + {t} && n.rows.Keys == s.rows.Keys + {t}
    && LifeOf(n, t) == Life(Some(item), Some(NewRow(item)), true)
    && forall u :: u != t ==> LifeOf(n, u) == LifeOf(s, u)
  }

  lemma RecordedOn(s: State, t: string, item: Extract, now: int)
    requires t in s.items
    ensures Rewrites(s, FateOn(s, t, Stay(item, true, false), now), t, item)
  {
  }

  lemma RewritesTwice(a: State, b: State, c: State, t: string, item: Extract, last: Extract)
    requires Rewrites(a, b, t, item) && Rewrites(b, c, t, last)
    ensures Rewrites(a, c, t, last)
  {
  }

  /** f makes the steps. The lemmas below speak of f, so that the steps themselves stay out
      of their proofs. */
  ghost predicate Makes(f: (State, Event) -> State, cfg: Settings) {
    forall s, e {:trigger Next(cfg, s, e)} :: f(s, e) == Next(cfg, s, e)
  }

  lemma Queued(f: (State, Event) -> State, cfg: Settings, s: State, t: string, now: int, item: Extract)
    requires Makes(f, cfg) && t in s.items && s.items[t].status == WAITING && SnapshotReady(s.instances, s.items[t])
    requires item == s.items[t].(status := QUEUED, updated := now)
    ensures Rewrites(s, f(s, StartExtract(t, now)), t, item)
  {
    RecordedOn(s, t, item, now);
    assert f(s, StartExtract(t, now)) == Next(cfg, s, StartExtract(t, now));
  }

  lemma Reported(f: (State, Event) -> State, cfg: Settings, s: State, t: string, report: Report, now: int,
                 item: Extract)
    requires Makes(f, cfg) && t in s.items && AfterCallback(s.items[t], report, now) == Stay(item, true, false)
    requires report.stage != RemnantsCleared
    ensures Rewrites(s, f(s, Callback(t, report, now)), t, item)
  {
    RecordedOn(s, t, item, now);
    assert f(s, Callback(t, report, now)) == Next(cfg, s, Callback(t, report, now));
  }

  lemma ExtractsBy(f: (State, Event) -> State, cfg: Settings, s: State, t: string, now: int, stage: Stage)
    requires Makes(f, cfg) && t in s.items && s.items[t].status == WAITING && SnapshotReady(s.instances, s.items[t])
    requires stage.Failed? || stage.Succeeded?
    ensures var s1 := f(s, StartExtract(t, now));
            var s2 := f(s1, Callback(t, Report(Began, 0), now + 1));
            Rewrites(s, f(s2, Callback(t, Report(stage, 1), now + 2)), t, Extracted(s.items[t], now, stage))
  {
    var item := s.items[t];
    var a := item.(status := QUEUED, updated := now);
    var b := a.(files := 0, status := EXTRACTING, updated := now + 1);
    var s1 := f(s, StartExtract(t, now));
    Queued(f, cfg, s, t, now, a);
    Follows(s, s1, t, a);
    var s2 := f(s1, Callback(t, Report(Began, 0), now + 1));
    Reported(f, cfg, s1, t, Report(Began, 0), now + 1, b);
    Follows(s1, s2, t, b);
    var s3 := f(s2, Callback(t, Report(stage, 1), now + 2));
    Reported(f, cfg, s2, t, Report(stage, 1), now + 2, Extracted(item, now, stage));
    RewritesTwice(s, s1, s2, t, a, b);
    RewritesTwice(s, s2, s3, t, b, Extracted(item, now, stage));
  }

  lemma Extracts(cfg: Settings, s: State, t: string, now: int, stage: Stage)
    requires t in s.items && s.items[t].status == WAITING && SnapshotReady(s.instances, s.items[t])
    requires stage.Failed? || stage.Succeeded?
    ensures Rewrites(s, From(cfg, s, Extraction(t, now, stage)), t, Extracted(s.items[t], now, stage))
  {
    FromThree(cfg, s, StartExtract(t, now), Callback(t, Report(Began, 0), now + 1),
              Callback(t, Report(stage, 1), now + 2));
    ExtractsBy((st, e) => Next(cfg, st, e), cfg, s, t, now, stage);
  }

  lemma Follows(s: State, n: State, t: string, item: Extract)
    requires Rewrites(s, n, t, item)
    ensures t in n.items && n.items[t] == item
  {
    assert LifeOf(n, t).item == Some(item);
  }

  lemma OneReady(inst: Instance, item: Extract)
    requires inst.polled
    ensures SnapshotReady([inst], item)
  {
  }

  lemma HeldByOne(inst: Instance, app: App, t: string)
    ensures HaveQueueItem([inst], app, t) <==> inst.app == app && HasTitle(inst.queue, t)
  {
    assert [inst][0] == inst;
  }

  // ---------------------------------------------------------------- forgotten without a row

  lemma RowGoes(cfg: Settings, s: State, title: string)
    requires LifeOf(s, title).item.Some? && LifeOf(s, title).kept && LifeOf(s, title).row.Some?
    requires IsDurable(LifeOf(s, title).row.value.item.status) && IsDurable(LifeOf(s, title).item.value.status)
    ensures var n := Next(cfg, s, DeleteRow(title)); Enabled(cfg, n, Forget(title)) && title !in n.kept
  {
  }

  /** A download fails for good, and the user deletes its row from the history. */
  function RowDeleted(inst: Instance, title: string): seq<Event> {
    TakenUp(inst, [Record(title, true)]) + Extraction(title, 1, Failed(true)) + [DeleteRow(title)]
  }

  /** For every instance and title this leads to an item that is forgotten without a
      tombstone: what LifecycleForgotten.ForgottenComesBack starts from. */
  lemma UnrememberedReached(cfg: Settings, inst: Instance, title: string)
    requires !inst.polled && inst.queue == []
    ensures var s := After(cfg, RowDeleted(inst, title)); Enabled(cfg, s, Forget(title)) && title !in s.kept
  {
    var queue := [Record(title, true)];
    assert queue[0].title == title;
    TakesUp(cfg, inst, queue);
    var s := From(cfg, Start(), TakenUp(inst, queue));
    OneReady(s.instances[0], s.items[title]);
    Extracts(cfg, s, title, 1, Failed(true));
    var failed := From(cfg, s, Extraction(title, 1, Failed(true)));
    FromAppend(cfg, Start(), TakenUp(inst, queue), Extraction(title, 1, Failed(true)));
    FromAppend(cfg, Start(), TakenUp(inst, queue) + Extraction(title, 1, Failed(true)), [DeleteRow(title)]);
    FromOne(cfg, failed, DeleteRow(title));
    Follows(s, failed, title, Extracted(s.items[title], 1, Failed(true)));
    RowGoes(cfg, failed, title);
  }

  // ---------------------------------------------------------------- read back and deleted

  /** A restart, a good poll and a cleaner tick. */
  function Reopening(loaded: set<string>, inst: Instance, queue: seq<Record>, now: int): seq<Event> {
    [Restart(loaded, [inst], now), PollOk(0, queue), Cleaner(now)]
  }

  /** A row that a restart reads back as imported, and whose first clock is old enough. */
  ghost predicate ReadyToDelete(cfg: Settings, s: State, title: string, inst: Instance, now: int) {
    title in s.rows && s.rows[title].item.status == IMPORTED && !s.rows[title].forgotten
    && s.rows[title].item.updated >= now - RESTORE_AGE
    && var item := Restored(cfg, [inst], s.rows[title].item, now);
       DeletesFiles(item) && now - item.updated >= item.deleteDelay
  }

  /** A poll with this queue does not keep the files of such an item. */
  predicate Overlooked(item: Extract, queue: seq<Record>, title: string) {
    item.app == Unknown || !HasTitle(queue, title)
  }

  lemma ReadsBack(cfg: Settings, s: State, title: string, loaded: set<string>, inst: Instance, now: int)
    requires Enabled(cfg, s, Restart(loaded, [inst], now)) && title in loaded && ReadyToDelete(cfg, s, title, inst, now)
    ensures var back := Next(cfg, s, Restart(loaded, [inst], now));
            var item := Restored(cfg, [inst], s.rows[title].item, now);
            && back.instances == Unpolled([inst]) && title !in back.forgotten && LifeOf(back, title).item == Some(item)
            && item.status == IMPORTED && item.updated == s.rows[title].item.updated
  {
  }

  /** The first good poll without an imported item whose time is over, or any poll when its
      app is unknown, and a tick. */
  lemma PollDeletes(cfg: Settings, s: State, title: string, item: Extract, queue: seq<Record>, now: int, polled: State)
    requires |s.instances| == 1 && LifeOf(s, title).item == Some(item) && item.status == IMPORTED
    requires DeletesFiles(item) && now - item.updated >= item.deleteDelay && Overlooked(item, queue, title)
    requires polled == Next(cfg, s, PollOk(0, queue))
    ensures LifeOf(polled, title).item == Some(item)
    ensures Deletion(title, item, now, polled.instances, polled.polls) in Next(cfg, polled, Cleaner(now)).deletions
  {
    var inst := s.instances[0].(polled := true, queue := queue);
    assert polled.instances == [inst];
    OneReady(inst, item);
    HeldByOne(inst, item.app, title);
    CleanerOn(cfg, polled, now, title);
  }

  /** The queue of inst is a good poll of this process, and its only one. */
  predicate Holds(d: Deletion, inst: Instance, queue: seq<Record>) {
    d.instances == [inst.(polled := true, queue := queue)] && Poll(inst.app, inst.url, inst.key, queue) in d.polls
  }

  lemma PolledOnce(cfg: Settings, s: State, inst: Instance, queue: seq<Record>)
    requires s.instances == Unpolled([inst])
    ensures var n := Next(cfg, s, PollOk(0, queue));
            && n.instances == [inst.(polled := true, queue := queue)]
            && Poll(inst.app, inst.url, inst.key, queue) in n.polls
  {
  }

  /** What a restart reads back as imported is cleaned up by the first good poll without it,
      whatever became of it before the restart; and by any poll when its app is unknown. */
  lemma ReopeningDeletes(cfg: Settings, s: State, title: string, loaded: set<string>, inst: Instance,
                         queue: seq<Record>, now: int, back: State, polled: State, item: Extract)
    requires Enabled(cfg, s, Restart(loaded, [inst], now)) && title in loaded && ReadyToDelete(cfg, s, title, inst, now)
    requires item == Restored(cfg, [inst], s.rows[title].item, now) && Overlooked(item, queue, title)
    requires back == Next(cfg, s, Restart(loaded, [inst], now)) && polled == Next(cfg, back, PollOk(0, queue))
    ensures LifeOf(back, title).item == LifeOf(polled, title).item == Some(item)
    ensures item.status == IMPORTED && item.updated == s.rows[title].item.updated && title !in back.forgotten
    ensures var d := Deletion(title, item, now, polled.instances, polled.polls);
            Holds(d, inst, queue) && d in From(cfg, s, Reopening(loaded, inst, queue, now)).deletions
  {
    FromThree(cfg, s, Restart(loaded, [inst], now), PollOk(0, queue), Cleaner(now));
    ReadsBack(cfg, s, title, loaded, inst, now);
    PolledOnce(cfg, back, inst, queue);
    PollDeletes(cfg, back, title, item, queue, now, polled);
  }

  // ---------------------------------------------------------------- polled and checked

  function Check(queue: seq<Record>, now: int): seq<Event> {
    [PollOk(0, queue), QueueChanges(now)]
  }

  function Checked(inst: Instance, t: string, life: Life, now: int): Life {
    match life.item
    case Some(item) => Fated(life, AfterQueueChange([inst], t, item, now))
    case None => life
  }

  lemma Checks(cfg: Settings, s: State, queue: seq<Record>, now: int, t: string)
    requires |s.instances| == 1
    ensures var n, inst := From(cfg, s, Check(queue, now)), s.instances[0].(polled := true, queue := queue);
            n.instances == [inst] && n.forgotten == s.forgotten && LifeOf(n, t) == Checked(inst, t, LifeOf(s, t), now)
  {
    FromTwo(cfg, s, PollOk(0, queue), QueueChanges(now));
    var polled, inst := Next(cfg, s, PollOk(0, queue)), s.instances[0].(polled := true, queue := queue);
    assert polled.instances == [inst];
    QueueCheckOn(cfg, polled, now, t);
    assert LifeOf(polled, t) == LifeOf(s, t);
  }

  /** An extracted item that is gone from the queue is imported, and recorded. */
  lemma CheckImports(inst: Instance, t: string, life: Life, item: Extract, now: int)
    requires inst.polled && life.item == Some(item) && item.status == EXTRACTED && !HasTitle(inst.queue, t)
    ensures var imported := item.(status := IMPORTED, updated := now);
            Checked(inst, t, life, now) == Life(Some(imported), Some(NewRow(imported)), true)
  {
    HeldByOne(inst, item.app, t);
    OneReady(inst, item);
  }

  /** An imported item that is in the queue again is extracted again, which is not recorded;
      any earlier one that is in the queue stays as it is. */
  lemma CheckHolds(inst: Instance, t: string, life: Life, item: Extract, now: int)
    requires life.item == Some(item) && HasTitle(inst.queue, t) && item.app == inst.app
    requires Rank(item.status) <= Rank(IMPORTED)
    ensures Checked(inst, t, life, now)
         == if item.status == IMPORTED then life.(item := Some(item.(status := EXTRACTED))) else life
  {
    HeldByOne(inst, item.app, t);
  }

  // ---------------------------------------------------------------- imported, back, and deleted

  function Imported(inst: Instance, title: string): seq<Event> {
    TakenUp(inst, [Record(title, true)]) + Extraction(title, 1, Succeeded) + Check([], 10)
  }

  /** A download is imported at 10 and back in the queue at 20. */
  function Returned(inst: Instance, title: string): seq<Event> {
    Imported(inst, title) + Check([Record(title, true)], 20)
  }

  predicate Plain(inst: Instance) {
    !inst.polled && inst.queue == []
  }

  function ImportedItem(inst: Instance, now: int): Extract {
    Extracted(NewItem(inst, 0), 1, Succeeded).(status := IMPORTED, updated := now)
  }

  lemma ImportedRun(cfg: Settings, inst: Instance, title: string)
    requires Plain(inst)
    ensures var s, item := After(cfg, Imported(inst, title)), ImportedItem(inst, 10);
            && |s.instances| == 1 && s.instances[0] == inst.(polled := true)
            && LifeOf(s, title) == Life(Some(item), Some(NewRow(item)), true)
  {
    var queue := [Record(title, true)];
    assert queue[0].title == title;
    TakesUp(cfg, inst, queue);
    var s := From(cfg, Start(), TakenUp(inst, queue));
    OneReady(s.instances[0], s.items[title]);
    Extracts(cfg, s, title, 1, Succeeded);
    FromAppend(cfg, Start(), TakenUp(inst, queue), Extraction(title, 1, Succeeded));
    var done := From(cfg, s, Extraction(title, 1, Succeeded));
    FromAppend(cfg, Start(), TakenUp(inst, queue) + Extraction(title, 1, Succeeded), Check([], 10));
    Checks(cfg, done, [], 10, title);
    CheckImports(inst.(polled := true), title, LifeOf(done, title), Extracted(NewItem(inst, 0), 1, Succeeded), 10);
  }

  lemma ReturnedRun(cfg: Settings, inst: Instance, title: string)
    requires Plain(inst)
    ensures var s, item := After(cfg, Returned(inst, title)), ImportedItem(inst, 10);
            && LifeOf(s, title) == Life(Some(item.(status := EXTRACTED)), Some(NewRow(item)), true)
            && Sound(cfg, s)
  {
    ImportedRun(cfg, inst, title);
    var s, queue, item := After(cfg, Imported(inst, title)), [Record(title, true)], ImportedItem(inst, 10);
    assert queue[0].title == title;
    FromAppend(cfg, Start(), Imported(inst, title), Check(queue, 20));
    Checks(cfg, s, queue, 20, title);
    CheckHolds(inst.(polled := true, queue := queue), title, LifeOf(s, title), item, 20);
    EveryRunKeeps(cfg, Returned(inst, title));
  }

  /** and the process restarts, polls once, and ticks, all at one time. */
  function ReturnRun(cfg: Settings, inst: Instance, title: string, now: int): seq<Event> {
    Returned(inst, title) + Reopening(After(cfg, Returned(inst, title)).kept, inst, [], now)
  }

  lemma Prefixes(a: seq<Event>, b: seq<Event>)
    requires |b| == 3
    ensures var run := a + b;
            && run[..|a|] == a && run[..|a| + 1] == a + [b[0]] && run[..|a| + 2] == a + [b[0], b[1]]
            && run[|a|] == b[0] && run[|a| + 1] == b[1] && run[|a| + 2] == b[2]
  {
  }

  /** The last three states of a run that reopens. */
  lemma {:induction false} ReopenedStates(cfg: Settings, run: seq<Event>, before: seq<Event>, loaded: set<string>,
                                          inst: Instance, queue: seq<Record>, now: int)
    requires run == before + Reopening(loaded, inst, queue, now)
    ensures |run| == |before| + 3 && run[|before|] == Restart(loaded, [inst], now) && run[|before| + 2] == Cleaner(now)
    ensures var s := After(cfg, before);
            var back := Next(cfg, s, Restart(loaded, [inst], now));
            && At(cfg, run, |before|) == s && At(cfg, run, |before| + 1) == back
            && At(cfg, run, |before| + 2) == Next(cfg, back, PollOk(0, queue))
            && After(cfg, run) == From(cfg, s, Reopening(loaded, inst, queue, now))
  {
    Prefixes(before, Reopening(loaded, inst, queue, now));
    FromAppend(cfg, Start(), before, [Restart(loaded, [inst], now)]);
    FromAppend(cfg, Start(), before, [Restart(loaded, [inst], now), PollOk(0, queue)]);
    FromAppend(cfg, Start(), before, Reopening(loaded, inst, queue, now));
    FromOne(cfg, After(cfg, before), Restart(loaded, [inst], now));
    FromTwo(cfg, After(cfg, before), Restart(loaded, [inst], now), PollOk(0, queue));
  }

  lemma LifeImported(s: State, title: string, item: Extract)
    requires LifeOf(s, title).item == Some(item) && item.status == IMPORTED
    ensures ImportedAt(s, title, item.updated) && s.items[title] == item
  {
  }

  lemma Reopened(cfg: Settings, run: seq<Event>, before: seq<Event>, s: State, title: string, loaded: set<string>,
                 inst: Instance, queue: seq<Record>, now: int, item: Extract)
    requires run == before + Reopening(loaded, inst, queue, now) && s == After(cfg, before)
    requires Enabled(cfg, s, Restart(loaded, [inst], now)) && title in loaded && ReadyToDelete(cfg, s, title, inst, now)
    requires item == Restored(cfg, [inst], s.rows[title].item, now) && Overlooked(item, queue, title)
    ensures |run| == |before| + 3 && item.status == IMPORTED
    ensures var back, polled := At(cfg, run, |before| + 1), At(cfg, run, |before| + 2);
            var d := Deletion(title, item, now, polled.instances, polled.polls);
            && LifeOf(back, title).item == LifeOf(polled, title).item == Some(item)
            && Holds(d, inst, queue) && d in After(cfg, run).deletions
  {
    var n := |before|;
    ReopenedStates(cfg, run, before, loaded, inst, queue, now);
    ReopeningDeletes(cfg, s, title, loaded, inst, queue, now, At(cfg, run, n + 1), At(cfg, run, n + 2), item);
  }

  lemma ReadBackAt(cfg: Settings, run: seq<Event>, n: nat, title: string, item: Extract)
    requires n + 2 <= |run| && run[n].Restart? && !IsImported(At(cfg, run, n), title) && item.status == IMPORTED
    requires LifeOf(At(cfg, run, n + 1), title).item == LifeOf(At(cfg, run, n + 2), title).item == Some(item)
    ensures ReadBack(cfg, run, n + 2, title, item.updated)
    ensures ImportedAt(At(cfg, run, n + 2), title, item.updated) && At(cfg, run, n + 2).items[title] == item
  {
    LifeImported(At(cfg, run, n + 1), title, item);
    LifeImported(At(cfg, run, n + 2), title, item);
    assert StaysImported(cfg, run, n + 1, n + 2, title, item.updated);
  }

  lemma {:induction false} DeletedAt(cfg: Settings, run: seq<Event>, before: seq<Event>, title: string,
                                     loaded: set<string>, inst: Instance, queue: seq<Record>, now: int, item: Extract,
                                     d: Deletion)
    requires run == before + Reopening(loaded, inst, queue, now) && item.status == IMPORTED
    requires !IsImported(After(cfg, before), title)
    requires var back, polled := At(cfg, run, |before| + 1), At(cfg, run, |before| + 2);
             && LifeOf(back, title).item == LifeOf(polled, title).item == Some(item)
             && d == Deletion(title, item, now, polled.instances, polled.polls)
    ensures DeletedBy(cfg, run, |before| + 2, d) && run[|before|] == Restart(loaded, [inst], now)
    ensures ReadBack(cfg, run, |before| + 2, title, d.item.updated)
  {
    Prefixes(before, Reopening(loaded, inst, queue, now));
    ReadBackAt(cfg, run, |before|, title, item);
  }

  /** In such a run the deletion comes at the very time of the restart that read the item
      back, which was not imported in memory. */
  lemma {:induction false} ReopenedDeletes(cfg: Settings, run: seq<Event>, before: seq<Event>, s: State,
                                           title: string, loaded: set<string>, inst: Instance, queue: seq<Record>,
                                           now: int) returns (d: Deletion)
    requires run == before + Reopening(loaded, inst, queue, now) && s == After(cfg, before)
    requires Enabled(cfg, s, Restart(loaded, [inst], now)) && title in loaded && !IsImported(s, title)
    requires ReadyToDelete(cfg, s, title, inst, now)
    requires Overlooked(Restored(cfg, [inst], s.rows[title].item, now), queue, title)
    ensures d in After(cfg, run).deletions && d.title == title && d.now == now && Holds(d, inst, queue)
    ensures DeletedBy(cfg, run, |before| + 2, d) && run[|before|] == Restart(loaded, [inst], now)
    ensures ReadBack(cfg, run, |before| + 2, title, d.item.updated)
  {
    var item := Restored(cfg, [inst], s.rows[title].item, now);
    Reopened(cfg, run, before, s, title, loaded, inst, queue, now, item);
    var polled := At(cfg, run, |before| + 2);
    d := Deletion(title, item, now, polled.instances, polled.polls);
    DeletedAt(cfg, run, before, title, loaded, inst, queue, now, item, d);
  }

  lemma ReturnReady(cfg: Settings, s: State, inst: Instance, title: string, now: int)
    requires Plain(inst) && 0 < inst.deleteDelay <= now - 10 <= RESTORE_AGE && Sound(cfg, s)
    requires var item := ImportedItem(inst, 10);
             LifeOf(s, title) == Life(Some(item.(status := EXTRACTED)), Some(NewRow(item)), true)
    ensures Enabled(cfg, s, Restart(s.kept, [inst], now)) && title in s.kept && !IsImported(s, title)
    ensures ReadyToDelete(cfg, s, title, inst, now)
  {
    assert LifeOf(s, title).row == Some(NewRow(ImportedItem(inst, 10)));
  }

  /** So the delete delay can be over at once: for every instance, title and time of the
      restart this run ends in a deletion at the second in which the item became imported
      again. */
  lemma ReturnDeletes(cfg: Settings, inst: Instance, title: string, now: int) returns (d: Deletion)
    requires Plain(inst) && 0 < inst.deleteDelay <= now - 10 <= RESTORE_AGE
    ensures var run, n := ReturnRun(cfg, inst, title, now), |Returned(inst, title)|;
            && d in After(cfg, run).deletions && d.title == title && d.now == now
            && DeletedBy(cfg, run, n + 2, d) && run[n].Restart? && run[n].now == now
            && ReadBack(cfg, run, n + 2, title, d.item.updated)
  {
    var before := Returned(inst, title);
    var s := After(cfg, before);
    ReturnedRun(cfg, inst, title);
    ReturnReady(cfg, s, inst, title, now);
    d := ReopenedDeletes(cfg, ReturnRun(cfg, inst, title, now), before, s, title, s.kept, inst, [], now);
  }

  // ---------------------------------------------------------------- a row without an app

  /** A restart reads a row of an earlier version that names no app. */
  function OldRowRun(title: string, item: Extract, inst: Instance, queue: seq<Record>, now: int): seq<Event> {
    [OldRow(title, item)] + Reopening({title}, inst, queue, now)
  }

  lemma OldRowReady(cfg: Settings, title: string, item: Extract, inst: Instance, now: int)
    requires item.status == IMPORTED && item.retries <= item.byHand && item.updated >= now - RESTORE_AGE
    requires var back := Restored(cfg, [inst], item, now); DeletesFiles(back) && now - back.updated >= back.deleteDelay
    ensures var s := After(cfg, [OldRow(title, item)]);
            && Enabled(cfg, s, Restart({title}, [inst], now)) && !IsImported(s, title)
            && title in s.rows && s.rows[title].item == item && ReadyToDelete(cfg, s, title, inst, now)
  {
    FromOne(cfg, Start(), OldRow(title, item));
    var s := Next(cfg, Start(), OldRow(title, item));
    assert s.rows[title] == NewRow(item);
  }

  /** For every such row that is imported and due, every instance with another url and every
      queue: the files are deleted while the queue of a good poll of this process holds the
      title. */
  lemma UnknownDeleted(cfg: Settings, title: string, item: Extract, inst: Instance, queue: seq<Record>, now: int)
    returns (d: Deletion)
    requires item.app == Unknown && (item.url == "" || item.url != inst.url) && HasTitle(queue, title)
    requires item.status == IMPORTED && item.retries <= item.byHand && item.updated >= now - RESTORE_AGE
    requires var back := Restored(cfg, [inst], item, now); DeletesFiles(back) && now - back.updated >= back.deleteDelay
    ensures d in After(cfg, OldRowRun(title, item, inst, queue, now)).deletions && d.title == title
    ensures Holds(d, inst, queue) && HasTitle(d.instances[0].queue, title)
  {
    OldRowReady(cfg, title, item, inst, now);
    KindIsUnknown([inst], item.url);
    d := ReopenedDeletes(cfg, OldRowRun(title, item, inst, queue, now), [OldRow(title, item)],
                         After(cfg, [OldRow(title, item)]), title, {title}, inst, queue, now);
  }
}
