/** What each step of Lifecycle makes of one title, said without the functions that decide
    it: which items a check imports, drops, retries, gives up or deletes, which it adds, and
    what a restart restores. The conditions are about statuses, queues, polls and clocks. */
module LifecycleSteps {

  import opened HistoryLog
  import opened Lifecycle
  import opened LifecycleClock
  import opened LifecycleDeletions
  import opened LifecycleRuns
  import opened LifecycleSafety
  import opened Wrappers

  // ---------------------------------------------------------------- what the queues say

  /** Some instance of the app has a record of the title. */
  ghost predicate InQueue(instances: seq<Instance>, app: App, title: string) {
    exists i, j :: 0 <= i < |instances| && 0 <= j < |instances[i].queue|
                   && instances[i].app == app && instances[i].queue[j].title == title
  }

  /** The item's own instance is the i-th: the first of its app with its url. */
  ghost predicate OwnInstance(instances: seq<Instance>, item: Extract, i: nat) {
    && i < |instances| && instances[i].app == item.app && instances[i].url == item.url
    && forall k :: 0 <= k < i ==> !(instances[k].app == item.app && instances[k].url == item.url)
  }

  /** The item's own instance was polled, or is not configured; without a url, every
      instance of its app was polled. */
  ghost predicate Heard(instances: seq<Instance>, item: Extract) {
    if item.url != "" then forall i: nat :: OwnInstance(instances, item, i) ==> instances[i].polled
    else forall i :: 0 <= i < |instances| && instances[i].app == item.app ==> instances[i].polled
  }

  /** The polls say that the title is in no queue of the item's app. */
  ghost predicate Gone(instances: seq<Instance>, title: string, item: Extract) {
    Heard(instances, item) && !InQueue(instances, item.app, title)
  }

  lemma InQueueIs(instances: seq<Instance>, app: App, title: string)
    ensures InQueue(instances, app, title) <==> HaveQueueItem(instances, app, title)
  {
    if HaveQueueItem(instances, app, title) {
      var i :| 0 <= i < |instances| && instances[i].app == app && HasTitle(instances[i].queue, title);
      var j :| 0 <= j < |instances[i].queue| && instances[i].queue[j].title == title;
    }
  }

  lemma OwnIsFirst(instances: seq<Instance>, item: Extract, i: nat)
    ensures OwnInstance(instances, item, i) <==> FirstWithUrl(instances, item.app, item.url) == i
  {
    var first := FirstWithUrl(instances, item.app, item.url);
    FirstIsFirst(instances, item.app, item.url);
    if first >= 0 && i < |instances| && i != first {
      assert IsInstance(instances[first], item.app, item.url);
    }
  }

  lemma {:induction false} FirstIsFirst(instances: seq<Instance>, app: App, url: string)
    ensures var i := FirstWithUrl(instances, app, url);
            forall k :: 0 <= k < i ==> !(instances[k].app == app && instances[k].url == url)
  {
    if instances != [] && !IsInstance(instances[0], app, url) {
      FirstIsFirst(instances[1..], app, url);
      assert forall k :: 1 <= k < |instances| ==> instances[k] == instances[1..][k - 1];
    }
  }

  lemma HeardIs(instances: seq<Instance>, item: Extract)
    ensures Heard(instances, item) <==> SnapshotReady(instances, item)
  {
    var first := FirstWithUrl(instances, item.app, item.url);
    if item.url != "" {
      if first >= 0 {
        OwnIsFirst(instances, item, first);
      }
      forall i: nat ensures OwnInstance(instances, item, i) <==> first == i {
        OwnIsFirst(instances, item, i);
      }
    }
  }

  lemma GoneIs(instances: seq<Instance>, title: string, item: Extract)
    ensures Gone(instances, title, item)
       <==> SnapshotReady(instances, item) && !HaveQueueItem(instances, item.app, title)
  {
    HeardIs(instances, item);
    InQueueIs(instances, item.app, title);
  }

  // ---------------------------------------------------------------- the queue check

  const BEFORE_IMPORT := {QUEUED, EXTRACTING, EXTRACTFAILED, EXTRACTED}
  const AFTER_IMPORT := {DELETING, DELETEFAILED, DELETED, EXTRACTEDNOTHING}

  /** The item as given, recorded. */
  function WithRow(item: Extract): Life {
    Life(Some(item), Some(HistoryRow(item, false)), true)
  }

  function WithoutRow(life: Life, item: Extract): Life {
    life.(item := Some(item))
  }

  /** One item: it leaves the map exactly when it waits and is gone from the queues, becomes
      imported exactly when it is past waiting and gone, and goes back when it is imported
      or later and in a queue again; anything else stays. */
  lemma CheckOne(instances: seq<Instance>, t: string, item: Extract, now: int, life: Life)
    requires life.item == Some(item)
    ensures var held, gone := InQueue(instances, item.app, t), Gone(instances, t, item);
            var after := Fated(life, AfterQueueChange(instances, t, item, now));
            && (after.item == None <==> item.status == WAITING && gone)
            && (after.item == None ==> after == life.(item := None))
            && (gone && item.status in BEFORE_IMPORT ==> after == WithRow(item.(status := IMPORTED, updated := now)))
            && (held && item.status == IMPORTED ==> after == WithoutRow(life, item.(status := EXTRACTED)))
            && (held && item.status in AFTER_IMPORT ==>
                  after == WithoutRow(life, item.(status := WAITING, updated := now)))
            && (!gone && !held ==> after == life)
            && (held && item.status !in AFTER_IMPORT + {IMPORTED} ==> after == life)
            && (gone && item.status in AFTER_IMPORT + {IMPORTED} ==> after == life)
  {
    GoneIs(instances, t, item);
    InQueueIs(instances, item.app, t);
  }

  /** In every state: what a queue check imports and what it drops. */
  lemma CheckImportsExactly(cfg: Settings, s: State, now: int, t: string)
    requires t in s.items
    ensures var item, n := s.items[t], Next(cfg, s, QueueChanges(now));
            && (t !in n.items <==> item.status == WAITING && Gone(s.instances, t, item))
            && (IsImported(n, t) && !IsImported(s, t)
                <==> item.status in BEFORE_IMPORT && Gone(s.instances, t, item))
            && (IsImported(n, t) && !IsImported(s, t) ==>
                  LifeOf(n, t) == WithRow(item.(status := IMPORTED, updated := now)))
  {
    var item, n := s.items[t], Next(cfg, s, QueueChanges(now));
    QueueCheckOn(cfg, s, now, t);
    CheckOne(s.instances, t, item, now, LifeOf(s, t));
  }

  /** In every run, a queue check that imports an item or drops it finds it in no queue of
      its app, and its own instance polled in this process or gone from the config; unless
      the last restart lost its app. An unpolled queue is never taken as empty. */
  lemma ChecksLookFirst(cfg: Settings, events: seq<Event>, k: nat, t: string)
    requires k < |events| && events[k].QueueChanges? && t in At(cfg, events, k).items
    requires var s, n := At(cfg, events, k), At(cfg, events, k + 1);
             t !in n.items || (IsImported(n, t) && !IsImported(s, t))
    ensures var s := At(cfg, events, k);
            if LostApp(cfg, events, k, t) then s.items[t].app == Unknown
            else s.items[t].app != Unknown && NotInQueue(t, s.items[t], s.instances, s.polls)
  {
    var s := At(cfg, events, k);
    AtNext(cfg, events, k);
    CheckImportsExactly(cfg, s, events[k].now, t);
    GoneIs(s.instances, t, s.items[t]);
    NotQueued(cfg, s, t, events[k].now);
    AppUnknownSince(cfg, events, k, t);
  }

  /** The fate imports the item at this time. */
  predicate Imports(fate: Fate, clock: int) {
    Writes(fate) && fate.item.status == IMPORTED && fate.item.updated == clock
  }

  lemma NotesImport(s: State, fates: map<string, Fate>, now: int, t: string, clock: int, imports: bool)
    requires fates.Keys <= s.items.Keys && (imports <==> t in fates && Imports(fates[t], clock))
    ensures (t, clock) in WithFates(s, fates, now).imports <==> (t, clock) in s.imports || imports
  {
    if imports {
      assert (t, clock) == (t, fates[t].item.updated);
    }
  }

  lemma CheckImportsAt(instances: seq<Instance>, t: string, item: Extract, now: int, clock: int)
    ensures Imports(AfterQueueChange(instances, t, item, now), clock)
       <==> now == clock && item.status in BEFORE_IMPORT && Gone(instances, t, item)
  {
    GoneIs(instances, t, item);
  }

  lemma TickImportsNone(cfg: Settings, instances: seq<Instance>, t: string, item: Extract, now: int, clock: int)
    ensures !Imports(AfterCleaner(cfg, instances, t, item, now), clock)
  {
  }

  lemma NotedByCheck(cfg: Settings, s: State, now: int, t: string, clock: int)
    ensures (t, clock) in WithFates(s, QueueFates(s, now), now).imports
       <==> (t, clock) in s.imports
            || (now == clock && t in s.items && s.items[t].status in BEFORE_IMPORT && Gone(s.instances, t, s.items[t]))
  {
    var imports := now == clock && t in s.items && s.items[t].status in BEFORE_IMPORT
                   && Gone(s.instances, t, s.items[t]);
    if t in s.items {
      CheckImportsAt(s.instances, t, s.items[t], now, clock);
    }
    NotesImport(s, QueueFates(s, now), now, t, clock, imports);
  }

  lemma NotedByTick(cfg: Settings, s: State, now: int, t: string, clock: int)
    ensures (t, clock) in WithFates(s, CleanerFates(cfg, s, now), now).imports <==> (t, clock) in s.imports
  {
    if t in s.items {
      TickImportsNone(cfg, s.instances, t, s.items[t], now, clock);
    }
    NotesImport(s, CleanerFates(cfg, s, now), now, t, clock, false);
  }

  lemma NotedByOthers(cfg: Settings, s: State, e: Event, t: string, clock: int)
    requires !e.OldRow? && !e.QueueChanges? && !e.Cleaner?
    ensures (t, clock) in Next(cfg, s, e).imports <==> (t, clock) in s.imports
  {
  }

  /** An import is noted exactly when a queue check makes the item imported. */
  lemma NotedExactly(cfg: Settings, s: State, e: Event, t: string, clock: int)
    requires !e.OldRow?
    ensures (t, clock) in Next(cfg, s, e).imports
       <==> (t, clock) in s.imports
            || (e == QueueChanges(clock) && t in s.items && s.items[t].status in BEFORE_IMPORT
                && Gone(s.instances, t, s.items[t]))
  {
    if e.QueueChanges? {
      NotedByCheck(cfg, s, e.now, t, clock);
    } else if e.Cleaner? {
      NotedByTick(cfg, s, e.now, t, clock);
    } else {
      NotedByOthers(cfg, s, e, t, clock);
    }
  }

  // ---------------------------------------------------------------- the cleaner tick

  /** max_retries, or 2 when it is not set. */
  function RetryLimit(cfg: Settings): nat {
    if cfg.maxRetries > 0 then cfg.maxRetries else 2
  }

  const STALE := {QUEUED, EXTRACTING, EXTRACTED}
  const DAY := 86400

  /** Imported, its delete delay over, and gone from the queues. */
  ghost predicate DueIn(instances: seq<Instance>, t: string, item: Extract, now: int) {
    item.status == IMPORTED && now - item.updated >= item.deleteDelay && Gone(instances, t, item)
  }

  ghost predicate Due(s: State, t: string, now: int)
    requires t in s.items
  {
    DueIn(s.instances, t, s.items[t], now)
  }

  /** The whole download goes, or what was extracted of it unless the delay is negative. */
  predicate MayDelete(item: Extract) {
    item.deleteOrig || (item.files > 0 && item.deleteDelay >= 0)
  }

  lemma CleanerOnLife(cfg: Settings, s: State, now: int, t: string)
    requires t in s.items
    ensures LifeOf(Next(cfg, s, Cleaner(now)), t)
         == Fated(LifeOf(s, t), AfterCleaner(cfg, s.instances, t, s.items[t], now))
  {
    FatesOn(s, CleanerFates(cfg, s, now), now, t);
  }

  lemma TickDone(cfg: Settings, s: State, now: int, t: string)
    requires t in s.items
    ensures var item, n, age := s.items[t], Next(cfg, s, Cleaner(now)), now - s.items[t].updated;
            && (t !in n.items <==> item.status == DELETED && age >= item.deleteDelay)
            && (t !in n.items ==> LifeOf(n, t) == LifeOf(s, t).(item := None))
            && (item.status == DELETED && t in n.items ==> LifeOf(n, t) == LifeOf(s, t))
  {
    CleanerOnLife(cfg, s, now, t);
  }

  lemma FailedOne(cfg: Settings, instances: seq<Instance>, t: string, item: Extract, now: int, life: Life)
    requires life.item == Some(item) && item.status == EXTRACTFAILED
    ensures Fated(life, AfterCleaner(cfg, instances, t, item, now))
         == if item.noRetry || (item.retries < RetryLimit(cfg) && now - item.updated < cfg.retryDelay) then life
            else if item.retries < RetryLimit(cfg)
            then WithoutRow(life, item.(retries := item.retries + 1, status := WAITING, updated := now))
            else WithRow(item.(noRetry := true, updated := now))
  {
  }

  /** A failed item is retried, given up or left alone. */
  lemma TickFailed(cfg: Settings, s: State, now: int, t: string)
    requires t in s.items && s.items[t].status == EXTRACTFAILED
    ensures var item, n, age := s.items[t], Next(cfg, s, Cleaner(now)), now - s.items[t].updated;
            LifeOf(n, t)
            == if item.noRetry || (item.retries < RetryLimit(cfg) && age < cfg.retryDelay) then LifeOf(s, t)
               else if item.retries < RetryLimit(cfg)
               then WithoutRow(LifeOf(s, t), item.(retries := item.retries + 1, status := WAITING, updated := now))
               else WithRow(item.(noRetry := true, updated := now))
  {
    CleanerOnLife(cfg, s, now, t);
    FailedOne(cfg, s.instances, t, s.items[t], now, LifeOf(s, t));
  }

  lemma OtherOne(cfg: Settings, instances: seq<Instance>, t: string, item: Extract, now: int, life: Life)
    requires life.item == Some(item) && item.status !in {EXTRACTFAILED, DELETED}
    ensures Fated(life, AfterCleaner(cfg, instances, t, item, now))
         == if (item.status in STALE && now - item.updated >= DAY) || DueIn(instances, t, item, now)
            then WithRow(item.(status := DELETED, updated := now)) else life
  {
    GoneIs(instances, t, item);
  }

  /** An item that is stuck for a day, or imported and due, is recorded as deleted; any
      other stays. */
  lemma TickOthers(cfg: Settings, s: State, now: int, t: string)
    requires t in s.items && s.items[t].status !in {EXTRACTFAILED, DELETED}
    ensures var item, n, age := s.items[t], Next(cfg, s, Cleaner(now)), now - s.items[t].updated;
            LifeOf(n, t) == if (item.status in STALE && age >= DAY) || Due(s, t, now)
                            then WithRow(item.(status := DELETED, updated := now)) else LifeOf(s, t)
  {
    CleanerOnLife(cfg, s, now, t);
    OtherOne(cfg, s.instances, t, s.items[t], now, LifeOf(s, t));
  }

  lemma DeletesExactly(cfg: Settings, s: State, now: int, t: string)
    requires t in s.items
    ensures var fate := AfterCleaner(cfg, s.instances, t, s.items[t], now);
            fate.Stay? && fate.deleted <==> Due(s, t, now) && MayDelete(s.items[t])
  {
    GoneIs(s.instances, t, s.items[t]);
  }

  /** A tick queues files for deletion of exactly the items that are due and may go. */
  lemma TickDeletes(cfg: Settings, s: State, now: int, d: Deletion)
    ensures d in Next(cfg, s, Cleaner(now)).deletions
       <==> d in s.deletions
            || (d.title in s.items && d == Deletion(d.title, s.items[d.title], now, s.instances, s.polls)
                && Due(s, d.title, now) && MayDelete(s.items[d.title]))
  {
    if d.title in s.items {
      DeletesExactly(cfg, s, now, d.title);
    }
  }

  // ---------------------------------------------------------------- the extractor and the user

  /** A report sets the files that are known. It ends in failure unless the extraction began,
      succeeded or found its way cleared, and ends all retries exactly when the limit of
      an extraction or the remnants left in place say so. */
  lemma ReportExactly(cfg: Settings, s: State, t: string, report: Report, now: int)
    requires Enabled(cfg, s, Callback(t, report, now))
    ensures var item, n := s.items[t], Next(cfg, s, Callback(t, report, now));
            t in n.items &&
            var after := n.items[t];
            && after.files == report.files && after.updated == now && after.byHand == item.byHand
            && (after.status == EXTRACTING <==> report.stage == Began)
            && (after.status == EXTRACTED <==> report.stage == Succeeded)
            && (after.status == WAITING <==> report.stage == RemnantsCleared)
            && (after.status == EXTRACTFAILED <==> report.stage.Failed? || report.stage.RemnantsRemain?)
            && after.retries == item.retries + (if report.stage == RemnantsCleared then 1 else 0)
            && (after.noRetry <==> item.noRetry || report.stage in {Failed(true), RemnantsRemain(true)})
            && after == item.(files := after.files, updated := now, status := after.status,
                              retries := after.retries, noRetry := after.noRetry)
            && LifeOf(n, t) == if report.stage == RemnantsCleared then WithoutRow(LifeOf(s, t), after)
                               else WithRow(after)
  {
  }

  /** An extraction is queued for a waiting item whose instance was heard, and recorded. */
  lemma QueuedExactly(cfg: Settings, s: State, t: string, now: int)
    requires t in s.items
    ensures Enabled(cfg, s, StartExtract(t, now)) <==> s.items[t].status == WAITING && Heard(s.instances, s.items[t])
    ensures Enabled(cfg, s, StartExtract(t, now)) ==>
              LifeOf(Next(cfg, s, StartExtract(t, now)), t) == WithRow(s.items[t].(status := QUEUED, updated := now))
  {
    HeardIs(s.instances, s.items[t]);
  }

  /** A manual retry counts, clears the flag, and is not recorded. */
  lemma RetryExactly(cfg: Settings, s: State, t: string, now: int)
    requires t in s.items
    ensures var item, n := s.items[t], Next(cfg, s, Retry(t, now));
            LifeOf(n, t)
            == if item.status != EXTRACTFAILED then LifeOf(s, t)
               else WithoutRow(LifeOf(s, t), item.(status := WAITING, updated := now, noRetry := false,
                                                   retries := item.retries + 1, byHand := item.byHand + 1))
  {
  }

  /** Forgetting takes an ended item out of the map and flags its row if that is in memory. */
  lemma ForgetExactly(cfg: Settings, s: State, t: string)
    requires Sound(cfg, s) && t in s.items
    ensures var n, life := Next(cfg, s, Forget(t)), LifeOf(s, t);
            if IsDurable(s.items[t].status) then
              && n.forgotten == s.forgotten + {t}
              && LifeOf(n, t) == Life(None, if t in s.kept then Some(HistoryRow(s.rows[t].item, true)) else life.row,
                                      life.kept)
            else n == s
  {
  }

  // ---------------------------------------------------------------- new items

  /** The instance has a complete record of the title. */
  ghost predicate Offers(inst: Instance, t: string) {
    exists j :: 0 <= j < |inst.queue| && inst.queue[j].title == t && inst.queue[j].complete
  }

  /** A download as the instance brings it: nothing is extracted, and it has the instance's
      delay and whether the originals go too. */
  function NewFrom(inst: Instance, now: int): Extract {
    Extract(app := inst.app, url := inst.url, status := WAITING, updated := now, deleteDelay := inst.deleteDelay,
            deleteOrig := inst.deleteOrig, files := 0, retries := 0, noRetry := false, byHand := 0)
  }

  ghost predicate HasComplete(recs: seq<Record>, t: string) {
    exists j :: 0 <= j < |recs| && recs[j].title == t && recs[j].complete
  }

  /** What a map holds under a title. */
  function Under(items: map<string, Extract>, t: string): Option<Extract> {
    if t in items then Some(items[t]) else None
  }

  lemma CompleteSnoc(recs: seq<Record>, t: string)
    requires recs != []
    ensures HasComplete(recs, t)
       <==> HasComplete(recs[..|recs| - 1], t) || (recs[|recs| - 1].title == t && recs[|recs| - 1].complete)
  {
    var init := recs[..|recs| - 1];
    if HasComplete(init, t) {
      var j :| 0 <= j < |init| && init[j].title == t && init[j].complete;
      assert recs[j] == init[j];
    }
    if HasComplete(recs, t) {
      var j :| 0 <= j < |recs| && recs[j].title == t && recs[j].complete;
      assert j < |init| ==> init[j] == recs[j];
    }
  }

  lemma {:induction false} RecordsExactly(items: map<string, Extract>, forgotten: set<string>, inst: Instance,
                                          recs: seq<Record>, now: int, t: string)
    ensures Under(WithRecords(items, forgotten, inst, recs, now), t)
         == if t !in items && t !in forgotten && HasComplete(recs, t) then Some(NewFrom(inst, now)) else Under(items, t)
  {
    if recs != [] {
      RecordsExactly(items, forgotten, inst, recs[..|recs| - 1], now, t);
      CompleteSnoc(recs, t);
    }
  }

  /** The first instance that offers the title. */
  ghost predicate OfferedBy(instances: seq<Instance>, t: string, i: nat) {
    i < |instances| && Offers(instances[i], t) && forall k :: 0 <= k < i ==> !Offers(instances[k], t)
  }

  lemma OfferSnoc(instances: seq<Instance>, t: string, i: nat)
    requires instances != []
    ensures var init, last := instances[..|instances| - 1], instances[|instances| - 1];
            OfferedBy(instances, t, i)
            <==> OfferedBy(init, t, i)
                 || (i == |init| && Offers(last, t) && forall k :: 0 <= k < |init| ==> !Offers(init[k], t))
  {
    var init := instances[..|instances| - 1];
    assert forall k :: 0 <= k < |init| ==> init[k] == instances[k];
  }

  lemma NoneOrFirst(instances: seq<Instance>, t: string) returns (i: nat)
    ensures OfferedBy(instances, t, i) || (i == |instances| && forall k :: 0 <= k < i ==> !Offers(instances[k], t))
  {
    i := 0;
    while i < |instances| && !Offers(instances[i], t)
      invariant i <= |instances| && forall k :: 0 <= k < i ==> !Offers(instances[k], t)
    {
      i := i + 1;
    }
  }

  /** A queue check adds exactly the titles that are not there, not forgotten, and offered as
      complete by some instance: as the first such instance brings them. */
  lemma {:induction false} AddedExactly(items: map<string, Extract>, forgotten: set<string>, instances: seq<Instance>,
                                        now: int, t: string)
    ensures var n := WithInstances(items, forgotten, instances, now);
            && (t in items || t in forgotten ==> Under(n, t) == Under(items, t))
            && (t !in items && t !in forgotten ==>
                  && (forall i: nat :: OfferedBy(instances, t, i) ==> Under(n, t) == Some(NewFrom(instances[i], now)))
                  && (t in n ==> exists i: nat :: OfferedBy(instances, t, i)))
  {
    if instances != [] {
      var init, last := instances[..|instances| - 1], instances[|instances| - 1];
      var before := WithInstances(items, forgotten, init, now);
      AddedExactly(items, forgotten, init, now, t);
      RecordsExactly(before, forgotten, last, last.queue, now, t);
      forall i: nat
        ensures OfferedBy(instances, t, i)
           <==> OfferedBy(init, t, i)
                || (i == |init| && Offers(last, t) && forall k :: 0 <= k < |init| ==> !Offers(init[k], t)) {
        OfferSnoc(instances, t, i);
      }
      var first := NoneOrFirst(init, t);
    }
  }

  // ---------------------------------------------------------------- restarts

  const THREE_DAYS := 259200

  /** The app that a row names, or else that of an instance with its url. */
  ghost predicate TellsApp(instances: seq<Instance>, item: Extract) {
    item.app != Unknown || HasUrl(instances, item.url)
  }

  /** A row that a restart puts back into the map: not forgotten, three days old at most, not
      finished and not waiting; what is still to be extracted or imported must tell its app. */
  ghost predicate ComesBack(instances: seq<Instance>, row: HistoryRow, now: int) {
    && !row.forgotten && now - row.item.updated <= THREE_DAYS
    && row.item.status !in {DELETED, WAITING}
    && (TellsApp(instances, row.item) || row.item.status in {IMPORTED, DELETEFAILED, EXTRACTEDNOTHING})
  }

  lemma ComesBackIs(instances: seq<Instance>, row: HistoryRow, now: int)
    ensures ComesBack(instances, row, now) <==> Restorable(instances, row, now)
  {
    KindIsUnknown(instances, row.item.url);
  }

  ghost predicate HasAppAt(instances: seq<Instance>, app: App, url: string) {
    exists i :: 0 <= i < |instances| && instances[i].app == app && instances[i].url == url
  }

  lemma HasAppIs(instances: seq<Instance>, app: App, url: string)
    ensures HasAppAt(instances, app, url) <==> FirstWithUrl(instances, app, url) >= 0
  {
    if HasAppAt(instances, app, url) {
      var i :| 0 <= i < |instances| && instances[i].app == app && instances[i].url == url;
      assert IsInstance(instances[i], app, url);
    }
  }

  /** The app is the one the row names; without one, the first of Sonarr, Radarr, Lidarr and
      Readarr that has an instance with the url. */
  lemma RestoredApp(cfg: Settings, instances: seq<Instance>, item: Extract, now: int)
    ensures Restored(cfg, instances, item, now).app
         == if item.app != Unknown then item.app
            else if item.url == "" then Unknown
            else if HasAppAt(instances, Sonarr, item.url) then Sonarr
            else if HasAppAt(instances, Radarr, item.url) then Radarr
            else if HasAppAt(instances, Lidarr, item.url) then Lidarr
            else if HasAppAt(instances, Readarr, item.url) then Readarr
            else Unknown
  {
    HasAppIs(instances, Sonarr, item.url);
    HasAppIs(instances, Radarr, item.url);
    HasAppIs(instances, Lidarr, item.url);
    HasAppIs(instances, Readarr, item.url);
  }

  /** Work that was going on when the process ended has failed or waits again, and may be
      tried at once; what was extracted or waits has its time start anew; an import keeps
      its clock, and so does any other failure. */
  lemma RestoredExactly(cfg: Settings, instances: seq<Instance>, item: Extract, now: int)
    ensures var back := Restored(cfg, instances, item, now);
            && (back.status == WAITING <==> item.status in {WAITING, QUEUED})
            && (back.status == EXTRACTFAILED <==> item.status in {EXTRACTFAILED, EXTRACTING, DELETING})
            && (back.status == IMPORTED <==> item.status in {IMPORTED, DELETEFAILED})
            && (back.status != item.status ==> item.status in {QUEUED, EXTRACTING, DELETING, DELETEFAILED})
            && (item.status in {WAITING, QUEUED, EXTRACTED} ==> back.updated == now)
            && (item.status in {EXTRACTING, DELETING} && !item.noRetry ==> now - back.updated == cfg.retryDelay)
            && (item.status !in {WAITING, QUEUED, EXTRACTED} && (item.noRetry || item.status !in {EXTRACTING, DELETING})
                ==> back.updated == item.updated)
            && back.deleteDelay == (if item.deleteDelay != 0 then item.deleteDelay else cfg.deleteDelay)
            && back == item.(app := back.app, status := back.status, updated := back.updated,
                             deleteDelay := back.deleteDelay)
  {
  }

  /** A restart: the map has exactly the loaded rows that come back, each restored; forgotten
      are exactly the loaded flagged ones; no instance counts as polled. */
  lemma RestartExactly(cfg: Settings, s: State, e: Event, t: string)
    requires Restarts(cfg, s, e)
    ensures var n := Step(cfg, s, e);
            && (t in n.items <==> t in e.loaded && ComesBack(e.next, s.rows[t], e.now))
            && (t in n.items ==> n.items[t] == Restored(cfg, e.next, s.rows[t].item, e.now))
            && (t in n.forgotten <==> t in e.loaded && s.rows[t].forgotten)
            && (t in n.kept <==> t in e.loaded) && (t in n.rows <==> t in e.loaded)
            && (t in e.loaded ==> n.rows[t] == s.rows[t])
            && |n.instances| == |e.next| && n.polls == {} && n.imports == s.imports && n.deletions == s.deletions
            && forall i :: 0 <= i < |e.next| ==> n.instances[i] == e.next[i].(polled := false, queue := [])
  {
    if t in s.rows {
      ComesBackIs(e.next, s.rows[t], e.now);
    }
  }

  // ---------------------------------------------------------------- polls, sweeps and the history

  /** A good poll replaces one queue and marks it polled, a failed one changes nothing. */
  lemma PollExactly(cfg: Settings, s: State, i: nat, queue: seq<Record>)
    requires i < |s.instances|
    ensures Next(cfg, s, PollFailed(i)) == s
    ensures var n, inst := Next(cfg, s, PollOk(i, queue)), s.instances[i];
            && |n.instances| == |s.instances| && n.instances[i] == inst.(polled := true, queue := queue)
            && (forall k :: 0 <= k < |s.instances| && k != i ==> n.instances[k] == s.instances[k])
            && n == s.(instances := n.instances, polls := s.polls + {Poll(inst.app, inst.url, inst.key, queue)})
  {
  }

  /** A sweep waits until every instance was polled, then releases exactly the titles that
      no queue holds. */
  lemma SweepExactly(cfg: Settings, s: State, t: string)
    ensures var n := Next(cfg, s, Sweep);
            && n == s.(forgotten := n.forgotten)
            && (t in n.forgotten
                <==> t in s.forgotten
                     && ((exists i :: 0 <= i < |s.instances| && !s.instances[i].polled)
                         || exists app :: InQueue(s.instances, app, t)))
  {
    if Held(s.instances, t) {
      var i :| 0 <= i < |s.instances| && HasTitle(s.instances[i].queue, t);
      var j :| 0 <= j < |s.instances[i].queue| && s.instances[i].queue[j].title == t;
      assert InQueue(s.instances, s.instances[i].app, t);
    }
    if app :| InQueue(s.instances, app, t) {
      var i, j :| 0 <= i < |s.instances| && 0 <= j < |s.instances[i].queue|
                  && s.instances[i].app == app && s.instances[i].queue[j].title == t;
      assert HasTitle(s.instances[i].queue, t);
    }
  }

  /** What the user deletes or clears goes from the history for good, and with it every row
      that memory no longer had; the map and what is forgotten stay. */
  lemma HistoryExactly(cfg: Settings, s: State, e: Event, t: string)
    requires Sound(cfg, s) && Enabled(cfg, s, e) && (e.DeleteRow? || e.ClearHistory?)
    ensures var n := Step(cfg, s, e);
            var goes := t in s.rows && IsDurable(s.rows[t].item.status) && (e.DeleteRow? ==> t == e.title);
            && (t in n.kept <==> t in s.kept && !goes) && n.rows.Keys == n.kept
            && (t in n.kept ==> n.rows[t] == s.rows[t]) && n == s.(rows := n.rows, kept := n.kept)
  {
  }

  // ---------------------------------------------------------------- config changes

  /** The same app at the same url with the same key. */
  predicate SamePlace(a: Instance, b: Instance) {
    a.app == b.app && a.url == b.url && a.key == b.key
  }

  /** A config change loses no poll and makes none up: an instance that stays where it was
      has the poll and the queue of one that was there, and a new one counts as never
      polled. Nothing else changes. */
  lemma ConfigExactly(cfg: Settings, s: State, next: seq<Instance>)
    ensures Enabled(cfg, s, ConfigPut(next))
       <==> forall inst :: inst in next ==>
              if exists was :: was in s.instances && SamePlace(was, inst)
              then exists was :: was in s.instances && SamePlace(was, inst)
                                 && inst.polled == was.polled && inst.queue == was.queue
              else !inst.polled && inst.queue == []
    ensures Enabled(cfg, s, ConfigPut(next)) ==> Next(cfg, s, ConfigPut(next)) == s.(instances := next)
  {
    forall inst | inst in next
      ensures Carried(s.instances, inst)
         <==> if exists was :: was in s.instances && SamePlace(was, inst)
              then exists was :: was in s.instances && SamePlace(was, inst)
                                 && inst.polled == was.polled && inst.queue == was.queue
              else !inst.polled && inst.queue == [] {
      CarriedIs(s.instances, inst);
    }
  }

  lemma CarriedIs(prev: seq<Instance>, inst: Instance)
    ensures Carried(prev, inst)
       <==> if exists was :: was in prev && SamePlace(was, inst)
            then exists was :: was in prev && SamePlace(was, inst)
                               && inst.polled == was.polled && inst.queue == was.queue
            else !inst.polled && inst.queue == []
  {
    if was :| was in prev && SamePlace(was, inst) {
      var i :| 0 <= i < |prev| && prev[i] == was;
      assert SameIdentity(prev[i], inst);
    }
    if was :| was in prev && SamePlace(was, inst) && inst.polled == was.polled && inst.queue == was.queue {
      var i :| 0 <= i < |prev| && prev[i] == was;
      assert SameIdentity(prev[i], inst) && inst == TakeQueue(prev[i], inst);
    }
    if i :| 0 <= i < |prev| && SameIdentity(prev[i], inst) {
      assert prev[i] in prev && SamePlace(prev[i], inst);
    }
    if i :| 0 <= i < |prev| && SameIdentity(prev[i], inst) && inst == TakeQueue(prev[i], inst) {
      assert prev[i] in prev && SamePlace(prev[i], inst) && inst.polled == prev[i].polled;
    }
  }
}
