/** What every run of the steps in Lifecycle keeps: items, rows, polls and deletions fit
    together, and retries are bounded. */
module LifecycleSafety {

  import opened HistoryLog
  import opened Lifecycle

  // ---------------------------------------------------------------- the invariant

  /** True of every item and every row under a title. */
  predicate ItemOk(cfg: Settings, imports: set<(string, int)>, title: string, item: Extract) {
    && item.retries <= MaxRetries(cfg) + item.byHand
    && StarrStatus(item.status)
    && (item.status == IMPORTED ==> (title, item.updated) in imports)
  }

  /** The row of an item says at least what the item says. */
  predicate RowOk(item: Extract, row: HistoryRow) {
    && (item.noRetry ==> row.item.noRetry)
    && (item.status == IMPORTED ==> row.item.status == IMPORTED && row.item.updated == item.updated)
  }

  /** An instance counts as polled when its queue is from a good poll of this process. */
  predicate PollSeen(polls: set<Poll>, inst: Instance) {
    if inst.polled then Poll(inst.app, inst.url, inst.key, inst.queue) in polls else inst.queue == []
  }

  /** No queue of the item's app holds the title, and the item's own instance was polled in
      this process, or left the config. */
  predicate NotInQueue(title: string, item: Extract, instances: seq<Instance>, polls: set<Poll>)
    requires item.app != Unknown
  {
    && (forall i :: 0 <= i < |instances| && instances[i].app == item.app ==> !HasTitle(instances[i].queue, title))
    && (if item.url != "" then
          var i := FirstWithUrl(instances, item.app, item.url);
          i < 0 || Poll(item.app, item.url, instances[i].key, instances[i].queue) in polls
        else forall i :: 0 <= i < |instances| && instances[i].app == item.app ==>
               Poll(item.app, instances[i].url, instances[i].key, instances[i].queue) in polls)
  }

  /** Files were queued for deletion of an item that was imported, whose time was over and
      whose files may go: a negative delay keeps what was extracted. Of the queues something
      is known only when the item has an app. */
  predicate Safe(d: Deletion, imports: set<(string, int)>) {
    && d.item.status == IMPORTED && (d.title, d.item.updated) in imports
    && d.now - d.item.updated >= d.item.deleteDelay
    && (d.item.deleteOrig || (d.item.files > 0 && d.item.deleteDelay >= 0))
    && (d.item.app != Unknown ==> NotInQueue(d.title, d.item, d.instances, d.polls))
  }

  predicate ItemsOk(cfg: Settings, s: State) {
    && (forall t :: t in s.items ==> ItemOk(cfg, s.imports, t, s.items[t]))
    && (forall t :: t in s.rows ==> ItemOk(cfg, s.imports, t, s.rows[t].item))
    && (forall t :: t in s.items && t in s.rows ==> RowOk(s.items[t], s.rows[t]))
  }

  predicate TitlesOk(s: State) {
    s.items.Keys !! s.forgotten && s.kept <= s.rows.Keys
  }

  predicate QueuesOk(s: State) {
    forall i :: 0 <= i < |s.instances| ==> PollSeen(s.polls, s.instances[i])
  }

  predicate DeletionsOk(s: State) {
    forall d :: d in s.deletions ==> Safe(d, s.imports)
  }

  predicate Sound(cfg: Settings, s: State) {
    ItemsOk(cfg, s) && TitlesOk(s) && QueuesOk(s) && DeletionsOk(s)
  }

  // ---------------------------------------------------------------- checks

  /** What a check may do to an item. */
  predicate FateOk(cfg: Settings, s: State, t: string, fate: Fate, now: int)
    requires t in s.items
  {
    fate.Stay? ==>
      && fate.item.retries <= MaxRetries(cfg) + fate.item.byHand
      && StarrStatus(fate.item.status)
      && (s.items[t].noRetry ==> fate.item.noRetry)
      && (!fate.recorded ==> fate.item.noRetry == s.items[t].noRetry)
      && (fate.item.status == IMPORTED && !fate.recorded ==>
            s.items[t].status == IMPORTED && fate.item.updated == s.items[t].updated)
      && (fate.deleted ==> Safe(Deletion(t, s.items[t], now, s.instances, s.polls), s.imports))
  }

  lemma QueueChangeOk(cfg: Settings, s: State, t: string, now: int)
    requires Sound(cfg, s) && t in s.items
    ensures FateOk(cfg, s, t, AfterQueueChange(s.instances, t, s.items[t], now), now)
  {
  }

  /** Nothing holds the title and the snapshot is ready: then the title is in no queue of
      its app. For an item without an app both always count as so, whatever the queues hold. */
  lemma NotQueued(cfg: Settings, s: State, t: string, now: int)
    requires Sound(cfg, s) && t in s.items
    ensures var item := s.items[t];
            var gone := !HaveQueueItem(s.instances, item.app, t) && SnapshotReady(s.instances, item);
            if item.app == Unknown then gone else gone ==> NotInQueue(t, item, s.instances, s.polls)
  {
  }

  lemma CleanerOk(cfg: Settings, s: State, t: string, now: int)
    requires Sound(cfg, s) && t in s.items
    ensures FateOk(cfg, s, t, AfterCleaner(cfg, s.instances, t, s.items[t], now), now)
  {
    NotQueued(cfg, s, t, now);
  }

  lemma CallbackOk(cfg: Settings, s: State, t: string, report: Report, now: int)
    requires Sound(cfg, s) && t in s.items && (report.stage == RemnantsCleared ==> s.items[t].retries < MaxRetries(cfg))
    ensures FateOk(cfg, s, t, AfterCallback(s.items[t], report, now), now)
  {
  }

  lemma FatesItemsOk(cfg: Settings, s: State, fates: map<string, Fate>, now: int)
    requires Sound(cfg, s) && fates.Keys <= s.items.Keys && forall t :: t in fates ==> FateOk(cfg, s, t, fates[t], now)
    ensures ItemsOk(cfg, WithFates(s, fates, now))
  {
    var n := WithFates(s, fates, now);
    assert s.imports <= n.imports;
    forall t | t in n.items
      ensures ItemOk(cfg, n.imports, t, n.items[t]) && (t in n.rows ==> RowOk(n.items[t], n.rows[t])) {
      OneFate(cfg, s, fates, now, t);
    }
    forall t | t in n.rows ensures ItemOk(cfg, n.imports, t, n.rows[t].item) {
      OneRow(cfg, s, fates, now, t);
    }
  }

  lemma OneFate(cfg: Settings, s: State, fates: map<string, Fate>, now: int, t: string)
    requires Sound(cfg, s) && fates.Keys <= s.items.Keys && t in WithFates(s, fates, now).items
    requires t in fates ==> FateOk(cfg, s, t, fates[t], now)
    ensures var n := WithFates(s, fates, now);
            ItemOk(cfg, n.imports, t, n.items[t]) && (t in n.rows ==> RowOk(n.items[t], n.rows[t]))
  {
  }

  lemma OneRow(cfg: Settings, s: State, fates: map<string, Fate>, now: int, t: string)
    requires Sound(cfg, s) && fates.Keys <= s.items.Keys && t in WithFates(s, fates, now).rows
    requires t in fates ==> FateOk(cfg, s, t, fates[t], now)
    ensures var n := WithFates(s, fates, now); ItemOk(cfg, n.imports, t, n.rows[t].item)
  {
  }

  lemma FatesKeep(cfg: Settings, s: State, fates: map<string, Fate>, now: int)
    requires Sound(cfg, s) && fates.Keys <= s.items.Keys && forall t :: t in fates ==> FateOk(cfg, s, t, fates[t], now)
    ensures Sound(cfg, WithFates(s, fates, now))
  {
    FatesItemsOk(cfg, s, fates, now);
    var n := WithFates(s, fates, now);
    forall d | d in n.deletions ensures Safe(d, n.imports) {
      if d in s.deletions {
        assert Safe(d, s.imports);
      }
    }
  }

  lemma FateOnKeeps(cfg: Settings, s: State, t: string, fate: Fate, now: int)
    requires Sound(cfg, s) && t in s.items && FateOk(cfg, s, t, fate, now)
    ensures Sound(cfg, FateOn(s, t, fate, now))
  {
    var n := FateOn(s, t, fate, now);
    forall d | d in n.deletions ensures Safe(d, n.imports) {
      if d in s.deletions {
        assert Safe(d, s.imports);
      }
    }
  }

  // ---------------------------------------------------------------- the other steps

  predicate Fresh(item: Extract) {
    item.status == WAITING && item.retries == 0 && !item.noRetry
  }

  /** Old items stay as they are, and new ones are fresh and not forgotten. */
  predicate Grown(items: map<string, Extract>, forgotten: set<string>, now: map<string, Extract>) {
    && (forall t :: t in items ==> t in now && now[t] == items[t])
    && (forall t :: t in now && t !in items ==> t !in forgotten && Fresh(now[t]))
  }

  lemma {:induction false} RecordsGrow(items: map<string, Extract>, forgotten: set<string>, inst: Instance,
                                       recs: seq<Record>, now: int)
    ensures Grown(items, forgotten, WithRecords(items, forgotten, inst, recs, now))
  {
    if recs != [] {
      RecordsGrow(items, forgotten, inst, recs[..|recs| - 1], now);
    }
  }

  lemma GrownTwice(a: map<string, Extract>, b: map<string, Extract>, c: map<string, Extract>, forgotten: set<string>)
    requires Grown(a, forgotten, b) && Grown(b, forgotten, c)
    ensures Grown(a, forgotten, c)
  {
  }

  lemma {:induction false} InstancesGrow(items: map<string, Extract>, forgotten: set<string>,
                                         instances: seq<Instance>, now: int)
    ensures Grown(items, forgotten, WithInstances(items, forgotten, instances, now))
  {
    if instances != [] {
      var init, last := instances[..|instances| - 1], instances[|instances| - 1];
      var before := WithInstances(items, forgotten, init, now);
      InstancesGrow(items, forgotten, init, now);
      RecordsGrow(before, forgotten, last, last.queue, now);
      GrownTwice(items, before, WithInstances(items, forgotten, instances, now), forgotten);
    }
  }

  lemma CheckQueuesKeeps(cfg: Settings, s: State, now: int)
    requires Sound(cfg, s)
    ensures Sound(cfg, Step(cfg, s, CheckQueues(now)))
  {
    InstancesGrow(s.items, s.forgotten, s.instances, now);
  }

  lemma ChecksKeep(cfg: Settings, s: State, e: Event)
    requires Sound(cfg, s) && Enabled(cfg, s, e) && (e.QueueChanges? || e.Cleaner? || e.StartExtract? || e.Callback?)
    ensures Sound(cfg, Step(cfg, s, e))
  {
    match e {
      case QueueChanges(now) =>
        forall t | t in s.items ensures FateOk(cfg, s, t, QueueFates(s, now)[t], now) {
          QueueChangeOk(cfg, s, t, now);
        }
        FatesKeep(cfg, s, QueueFates(s, now), now);
      case Cleaner(now) =>
        forall t | t in s.items ensures FateOk(cfg, s, t, CleanerFates(cfg, s, now)[t], now) {
          CleanerOk(cfg, s, t, now);
        }
        FatesKeep(cfg, s, CleanerFates(cfg, s, now), now);
      case StartExtract(title, now) =>
        FateOnKeeps(cfg, s, title, Recorded(s.items[title], QUEUED, now), now);
      case Callback(title, report, now) =>
        CallbackOk(cfg, s, title, report, now);
        FateOnKeeps(cfg, s, title, AfterCallback(s.items[title], report, now), now);
    }
  }

  lemma PollsKeep(cfg: Settings, s: State, e: Event)
    requires Sound(cfg, s) && Enabled(cfg, s, e) && (e.PollOk? || e.PollFailed? || e.ConfigPut? || e.Sweep?)
    ensures Sound(cfg, Step(cfg, s, e))
  {
  }

  lemma ActionsKeep(cfg: Settings, s: State, e: Event)
    requires Sound(cfg, s) && Enabled(cfg, s, e)
    requires e.Retry? || e.Forget? || e.Trim? || e.DeleteRow? || e.ClearHistory? || e.OldRow?
    ensures Sound(cfg, Step(cfg, s, e))
  {
  }

  lemma RestartKeeps(cfg: Settings, s: State, loaded: set<string>, next: seq<Instance>, now: int)
    requires Sound(cfg, s) && Enabled(cfg, s, Restart(loaded, next, now))
    ensures Sound(cfg, Restarted(cfg, s, loaded, next, now))
  {
    var n := Restarted(cfg, s, loaded, next, now);
    forall t | t in n.items
      ensures ItemOk(cfg, n.imports, t, n.items[t]) && RowOk(n.items[t], n.rows[t]) {
      assert ItemOk(cfg, s.imports, t, s.rows[t].item);
    }
  }

  lemma StepKeeps(cfg: Settings, s: State, e: Event)
    requires Sound(cfg, s)
    ensures Sound(cfg, Next(cfg, s, e))
  {
    if Enabled(cfg, s, e) {
      if e.CheckQueues? {
        CheckQueuesKeeps(cfg, s, e.now);
      } else if e.QueueChanges? || e.Cleaner? || e.StartExtract? || e.Callback? {
        ChecksKeep(cfg, s, e);
      } else if e.PollOk? || e.PollFailed? || e.ConfigPut? || e.Sweep? {
        PollsKeep(cfg, s, e);
      } else if e.Restart? {
        RestartKeeps(cfg, s, e.loaded, e.next, e.now);
      } else {
        ActionsKeep(cfg, s, e);
      }
    }
  }

  lemma {:induction false} EveryRunKeeps(cfg: Settings, events: seq<Event>)
    ensures Sound(cfg, After(cfg, events))
  {
    if events != [] {
      EveryRunKeeps(cfg, events[..|events| - 1]);
      StepKeeps(cfg, After(cfg, events[..|events| - 1]), events[|events| - 1]);
    }
  }

  // ---------------------------------------------------------------- the main results

  /** In every run, no item and no history row has more retries than the automatic ones
      allowed and those that a user asked for. */
  lemma RetriesBounded(cfg: Settings, events: seq<Event>, title: string)
    ensures var s := After(cfg, events);
            && (title in s.items ==> s.items[title].retries <= MaxRetries(cfg) + s.items[title].byHand)
            && (title in s.rows ==> s.rows[title].item.retries <= MaxRetries(cfg) + s.rows[title].item.byHand)
  {
    EveryRunKeeps(cfg, events);
  }

  // ---------------------------------------------------------------- no more retries

  lemma NoRetryStep(cfg: Settings, s: State, e: Event, title: string)
    requires Sound(cfg, s) && title in s.items && s.items[title].noRetry
    requires !(e.Retry? && e.title == title)
    ensures var n := Next(cfg, s, e); title in n.items ==> n.items[title].noRetry
  {
    if Enabled(cfg, s, e) && (e.QueueChanges? || e.Cleaner? || e.StartExtract? || e.Callback?) {
      FateKeepsNoRetry(cfg, s, e, title);
    } else if e.CheckQueues? {
      InstancesGrow(s.items, s.forgotten, s.instances, e.now);
    }
  }

  lemma FateKeepsNoRetry(cfg: Settings, s: State, e: Event, title: string)
    requires Sound(cfg, s) && title in s.items && s.items[title].noRetry && Enabled(cfg, s, e)
    requires e.QueueChanges? || e.Cleaner? || e.StartExtract? || e.Callback?
    ensures var n := Next(cfg, s, e); title in n.items ==> n.items[title].noRetry
  {
    match e {
      case QueueChanges(now) =>
        QueueChangeOk(cfg, s, title, now);
        FateNoRetry(cfg, s, QueueFates(s, now), now, title);
      case Cleaner(now) =>
        CleanerOk(cfg, s, title, now);
        FateNoRetry(cfg, s, CleanerFates(cfg, s, now), now, title);
      case _ =>
    }
  }

  lemma FateNoRetry(cfg: Settings, s: State, fates: map<string, Fate>, now: int, title: string)
    requires fates.Keys <= s.items.Keys && title in s.items && s.items[title].noRetry
    requires title in fates && fates[title].Stay? ==> fates[title].item.noRetry
    ensures var n := WithFates(s, fates, now); title in n.items ==> n.items[title].noRetry
  {
  }

  /** The title is in the map after every one of some steps, and nobody asks for a retry. */
  predicate Throughout(cfg: Settings, s: State, events: seq<Event>, title: string) {
    title in From(cfg, s, events).items &&
    (events != [] ==>
       && Throughout(cfg, s, events[..|events| - 1], title)
       && !(events[|events| - 1].Retry? && events[|events| - 1].title == title))
  }

  /** Once an item may not be retried, only a manual retry changes that, over any steps and
      restarts that leave the item in the map. */
  lemma {:induction false} NoRetryStays(cfg: Settings, s: State, events: seq<Event>, title: string)
    requires Sound(cfg, s) && title in s.items && s.items[title].noRetry && Throughout(cfg, s, events, title)
    ensures Sound(cfg, From(cfg, s, events)) && From(cfg, s, events).items[title].noRetry
  {
    if events != [] {
      var init, last := events[..|events| - 1], events[|events| - 1];
      NoRetryStays(cfg, s, init, title);
      StepKeeps(cfg, From(cfg, s, init), last);
      NoRetryStep(cfg, From(cfg, s, init), last, title);
    }
  }
}
