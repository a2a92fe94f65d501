/** What is known when files are queued for deletion, over every run of the steps in
    Lifecycle, and which items are deleted whatever the queues hold. */
module LifecycleDeletions {

  import opened HistoryLog
  import opened Lifecycle
  import opened LifecycleClock
  import opened LifecycleSafety

  // ---------------------------------------------------------------- items without an app

  predicate AppUnknown(s: State, title: string) {
    title in s.items && s.items[title].app == Unknown
  }

  predicate HasUrl(instances: seq<Instance>, url: string) {
    url != "" && exists i :: 0 <= i < |instances| && instances[i].url == url
  }

  /** The url of a row tells its app exactly when some instance has it. */
  lemma KindIsUnknown(instances: seq<Instance>, url: string)
    ensures KindFromUrl(instances, url) == Unknown <==> !HasUrl(instances, url)
  {
    if HasUrl(instances, url) {
      var i :| 0 <= i < |instances| && instances[i].url == url;
      assert IsInstance(instances[i], instances[i].app, url);
    }
  }

  /** A cleaner tick deletes the files of an imported item whose time is over, whatever the
      instances hold and whether they were polled, exactly when its app is unknown. */
  lemma DeletesRegardless(cfg: Settings, title: string, item: Extract, now: int)
    requires item.status == IMPORTED && now - item.updated >= item.deleteDelay && DeletesFiles(item)
    ensures item.app == Unknown <==>
              forall instances :: AfterCleaner(cfg, instances, title, item, now)
                                  == Stay(item.(status := DELETED, updated := now), true, true)
  {
    if item.app != Unknown {
      var holder := Instance(item.app, item.url, "", 0, false, true, [Record(title, true)]);
      assert holder.queue[0].title == title && [holder][0] == holder;
      assert HaveQueueItem([holder], item.app, title);
      assert AfterCleaner(cfg, [holder], title, item, now) == Same(item);
    }
  }

  /** A restart that takes place. */
  predicate Restarts(cfg: Settings, s: State, e: Event) {
    e.Restart? && Enabled(cfg, s, e)
  }

  /** It restores the title from a row that names no app, with a url that no instance has. */
  predicate LosesApp(cfg: Settings, s: State, e: Event, title: string) {
    && Restarts(cfg, s, e)
    && title in e.loaded && title in s.rows && Restorable(e.next, s.rows[title], e.now)
    && s.rows[title].item.app == Unknown && !HasUrl(e.next, s.rows[title].item.url)
  }

  lemma RestartApp(cfg: Settings, s: State, e: Event, title: string)
    requires Restarts(cfg, s, e)
    ensures AppUnknown(Step(cfg, s, e), title) <==> LosesApp(cfg, s, e, title)
  {
    if title in s.rows {
      KindIsUnknown(e.next, s.rows[title].item.url);
    }
  }

  /** Of the titles that a queue check adds none is without an app. */
  predicate AddsKnown(items: map<string, Extract>, after: map<string, Extract>, title: string) {
    if title in items then title in after && after[title] == items[title]
    else title in after ==> after[title].app != Unknown
  }

  lemma {:induction false} RecordsKnown(items: map<string, Extract>, forgotten: set<string>, inst: Instance,
                                        recs: seq<Record>, now: int, title: string)
    ensures AddsKnown(items, WithRecords(items, forgotten, inst, recs, now), title)
  {
    if recs != [] {
      RecordsKnown(items, forgotten, inst, recs[..|recs| - 1], now, title);
    }
  }

  lemma {:induction false} InstancesKnown(items: map<string, Extract>, forgotten: set<string>,
                                          instances: seq<Instance>, now: int, title: string)
    ensures AddsKnown(items, WithInstances(items, forgotten, instances, now), title)
  {
    if instances != [] {
      var init, last := instances[..|instances| - 1], instances[|instances| - 1];
      InstancesKnown(items, forgotten, init, now, title);
      RecordsKnown(WithInstances(items, forgotten, init, now), forgotten, last, last.queue, now, title);
    }
  }

  lemma FatesApp(s: State, fates: map<string, Fate>, now: int, title: string)
    requires fates.Keys <= s.items.Keys
    requires title in fates && fates[title].Stay? ==> fates[title].item.app == s.items[title].app
    ensures var n := WithFates(s, fates, now);
            title in n.items ==> title in s.items && n.items[title].app == s.items[title].app
  {
  }

  lemma ChecksKeepApp(cfg: Settings, s: State, e: Event, title: string)
    requires e.QueueChanges? || e.Cleaner?
    ensures var n := Next(cfg, s, e); title in n.items ==> title in s.items && n.items[title].app == s.items[title].app
  {
    match e {
      case QueueChanges(now) => FatesApp(s, QueueFates(s, now), now, title);
      case Cleaner(now) => FatesApp(s, CleanerFates(cfg, s, now), now, title);
    }
  }

  lemma OthersKeepApp(cfg: Settings, s: State, e: Event, title: string)
    requires !e.QueueChanges? && !e.Cleaner? && !e.CheckQueues? && !e.Restart?
    ensures var n := Next(cfg, s, e); title in n.items ==> title in s.items && n.items[title].app == s.items[title].app
  {
  }

  /** No step but a restart changes the app of an item, and none adds one without an app. */
  lemma AppStep(cfg: Settings, s: State, e: Event, title: string)
    ensures AppUnknown(Next(cfg, s, e), title)
       <==> if Restarts(cfg, s, e) then LosesApp(cfg, s, e, title)
            else AppUnknown(s, title) && title in Next(cfg, s, e).items
  {
    if Restarts(cfg, s, e) {
      RestartApp(cfg, s, e, title);
    } else if e.CheckQueues? {
      InstancesKnown(s.items, s.forgotten, s.instances, e.now, title);
    } else if e.QueueChanges? || e.Cleaner? {
      ChecksKeepApp(cfg, s, e, title);
    } else if !e.Restart? {
      OthersKeepApp(cfg, s, e, title);
    }
  }

  predicate InMap(cfg: Settings, events: seq<Event>, n: nat, title: string)
    requires n <= |events|
  {
    title in At(cfg, events, n).items
  }

  predicate RestartsAt(cfg: Settings, events: seq<Event>, k: nat)
    requires k < |events|
  {
    Restarts(cfg, At(cfg, events, k), events[k])
  }

  predicate LosesAppAt(cfg: Settings, events: seq<Event>, k: nat, title: string)
    requires k < |events|
  {
    LosesApp(cfg, At(cfg, events, k), events[k], title)
  }

  predicate NoRestartSince(cfg: Settings, events: seq<Event>, k: nat, n: nat)
    requires n <= |events|
  {
    forall j :: k < j < n ==> !RestartsAt(cfg, events, j)
  }

  predicate InMapSince(cfg: Settings, events: seq<Event>, k: nat, n: nat, title: string)
    requires n <= |events|
  {
    forall j :: k < j <= n ==> InMap(cfg, events, j, title)
  }

  /** The k-th event was a restart that lost the app, none came after it up to state n, and
      the title was in the map all the time. */
  predicate LostSince(cfg: Settings, events: seq<Event>, k: nat, n: nat, title: string)
    requires k < n <= |events|
  {
    && LosesAppAt(cfg, events, k, title)
    && NoRestartSince(cfg, events, k, n) && InMapSince(cfg, events, k, n, title)
  }

  predicate LostApp(cfg: Settings, events: seq<Event>, n: nat, title: string)
    requires n <= |events|
  {
    exists k :: 0 <= k < n && LostSince(cfg, events, k, n, title)
  }

  lemma AppNext(cfg: Settings, events: seq<Event>, m: nat, title: string)
    requires m < |events|
    ensures AppUnknown(At(cfg, events, m + 1), title)
       <==> if RestartsAt(cfg, events, m) then LosesAppAt(cfg, events, m, title)
            else AppUnknown(At(cfg, events, m), title) && InMap(cfg, events, m + 1, title)
    ensures LosesAppAt(cfg, events, m, title) ==> RestartsAt(cfg, events, m) && InMap(cfg, events, m + 1, title)
  {
    AtNext(cfg, events, m);
    AppStep(cfg, At(cfg, events, m), events[m], title);
  }

  lemma LostNow(cfg: Settings, events: seq<Event>, m: nat, title: string)
    requires m < |events| && RestartsAt(cfg, events, m)
    requires LosesAppAt(cfg, events, m, title) ==> InMap(cfg, events, m + 1, title)
    ensures LostApp(cfg, events, m + 1, title) <==> LosesAppAt(cfg, events, m, title)
  {
    if LosesAppAt(cfg, events, m, title) {
      assert LostSince(cfg, events, m, m + 1, title);
    }
  }

  lemma NoRestartLonger(cfg: Settings, events: seq<Event>, k: nat, m: nat)
    requires m < |events| && NoRestartSince(cfg, events, k, m) && !RestartsAt(cfg, events, m)
    ensures NoRestartSince(cfg, events, k, m + 1)
  {
  }

  lemma InMapLonger(cfg: Settings, events: seq<Event>, k: nat, m: nat, title: string)
    requires m < |events| && InMapSince(cfg, events, k, m, title) && InMap(cfg, events, m + 1, title)
    ensures InMapSince(cfg, events, k, m + 1, title)
  {
  }

  lemma LostLonger(cfg: Settings, events: seq<Event>, k: nat, m: nat, title: string)
    requires k < m < |events| && !RestartsAt(cfg, events, m) && InMap(cfg, events, m + 1, title)
    requires LostSince(cfg, events, k, m, title)
    ensures LostSince(cfg, events, k, m + 1, title)
  {
    NoRestartLonger(cfg, events, k, m);
    InMapLonger(cfg, events, k, m, title);
  }

  lemma LostShorter(cfg: Settings, events: seq<Event>, k: nat, m: nat, title: string)
    requires k < m < |events| && LostSince(cfg, events, k, m + 1, title)
    ensures LostSince(cfg, events, k, m, title) && InMap(cfg, events, m + 1, title)
  {
  }

  lemma LostStays(cfg: Settings, events: seq<Event>, m: nat, title: string)
    requires m < |events| && !RestartsAt(cfg, events, m) && InMap(cfg, events, m + 1, title)
    requires LostApp(cfg, events, m, title)
    ensures LostApp(cfg, events, m + 1, title)
  {
    var k :| 0 <= k < m && LostSince(cfg, events, k, m, title);
    LostLonger(cfg, events, k, m, title);
  }

  lemma LostBefore(cfg: Settings, events: seq<Event>, m: nat, title: string)
    requires m < |events| && !LosesAppAt(cfg, events, m, title) && LostApp(cfg, events, m + 1, title)
    ensures LostApp(cfg, events, m, title) && InMap(cfg, events, m + 1, title)
  {
    var k :| 0 <= k < m + 1 && LostSince(cfg, events, k, m + 1, title);
    LostShorter(cfg, events, k, m, title);
  }

  lemma StillUnknown(cfg: Settings, events: seq<Event>, m: nat, title: string)
    requires m < |events| && !RestartsAt(cfg, events, m)
    requires AppUnknown(At(cfg, events, m), title) <==> LostApp(cfg, events, m, title)
    ensures AppUnknown(At(cfg, events, m + 1), title) <==> LostApp(cfg, events, m + 1, title)
  {
    AppNext(cfg, events, m, title);
    if InMap(cfg, events, m + 1, title) && LostApp(cfg, events, m, title) {
      LostStays(cfg, events, m, title);
    }
    if LostApp(cfg, events, m + 1, title) {
      LostBefore(cfg, events, m, title);
    }
  }

  lemma NewlyUnknown(cfg: Settings, events: seq<Event>, m: nat, title: string)
    requires m < |events| && RestartsAt(cfg, events, m)
    ensures AppUnknown(At(cfg, events, m + 1), title) <==> LostApp(cfg, events, m + 1, title)
  {
    AppNext(cfg, events, m, title);
    LostNow(cfg, events, m, title);
  }

  /** In every run an item is without an app exactly when the last restart restored it from a
      row that names none, with a url that no instance had, and it was in the map since. */
  lemma {:induction false} AppUnknownSince(cfg: Settings, events: seq<Event>, n: nat, title: string)
    requires n <= |events|
    ensures AppUnknown(At(cfg, events, n), title) <==> LostApp(cfg, events, n, title)
  {
    if n > 0 {
      if RestartsAt(cfg, events, n - 1) {
        NewlyUnknown(cfg, events, n - 1, title);
      } else {
        AppUnknownSince(cfg, events, n - 1, title);
        StillUnknown(cfg, events, n - 1, title);
      }
    }
  }

  // ---------------------------------------------------------------- deletions

  /** The k-th event is the cleaner tick that queued d. */
  predicate DeletedBy(cfg: Settings, events: seq<Event>, k: nat, d: Deletion) {
    k < |events| && events[k] == Cleaner(d.now) &&
    var s := At(cfg, events, k);
    d.title in s.items && d.item == s.items[d.title] && d.instances == s.instances && d.polls == s.polls
  }

  lemma ChecksDeleteNothing(s: State, now: int)
    ensures DeletionsOf(s, QueueFates(s, now), now) == {}
  {
  }

  lemma NewDeletion(cfg: Settings, s: State, e: Event, d: Deletion)
    requires d in Next(cfg, s, e).deletions && d !in s.deletions
    ensures e == Cleaner(d.now) && d.title in s.items && d.item == s.items[d.title]
    ensures d.instances == s.instances && d.polls == s.polls
  {
    if e.QueueChanges? {
      ChecksDeleteNothing(s, e.now);
    }
  }

  lemma {:induction false} DeletionEvent(cfg: Settings, events: seq<Event>, n: nat, d: Deletion) returns (k: nat)
    requires n <= |events| && d in At(cfg, events, n).deletions
    ensures k < n && DeletedBy(cfg, events, k, d)
  {
    AtNext(cfg, events, n - 1);
    if d in At(cfg, events, n - 1).deletions {
      k := DeletionEvent(cfg, events, n - 1, d);
    } else {
      NewDeletion(cfg, At(cfg, events, n - 1), events[n - 1], d);
      k := n - 1;
    }
  }

  /** In every run, files are queued for deletion only by a cleaner tick, for an item that is
      imported, at least its delete delay after its clock. If the item has an app, its own
      instance was polled in this process or left the config, and no queue of its app holds
      the title; it has none exactly when the last restart lost it.
      From the time of its clock up to then the item was imported in every state, exactly
      unless a restart read it back; then the clock is still that of some import. */
  lemma DeletionsAreSafe(cfg: Settings, events: seq<Event>, d: Deletion) returns (k: nat)
    requires d in After(cfg, events).deletions
    ensures DeletedBy(cfg, events, k, d) && Safe(d, After(cfg, events).imports)
    ensures if LostApp(cfg, events, k, d.title) then d.item.app == Unknown
            else d.item.app != Unknown && NotInQueue(d.title, d.item, d.instances, d.polls)
    ensures CheckedIn(cfg, events, k, d.title, d.item.updated) <==> !ReadBack(cfg, events, k, d.title, d.item.updated)
  {
    assert events[..|events|] == events;
    EveryRunKeeps(cfg, events);
    assert Safe(d, After(cfg, events).imports);
    k := DeletionEvent(cfg, events, |events|, d);
    AppUnknownSince(cfg, events, k, d.title);
    ImportedSince(cfg, events, k, d.title, d.item.updated);
  }
}
