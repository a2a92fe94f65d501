/** Forgotten titles, over every run of the steps in Lifecycle: how long they stay out of the
    map, and when they come back. */
module LifecycleForgotten {

  import opened HistoryLog
  import opened Lifecycle
  import opened LifecycleSafety

  /** The history still says that the title is forgotten. */
  predicate Remembered(s: State, title: string) {
    title in s.kept && title in s.rows && s.rows[title].forgotten
  }

  /** A sweep that sees every queue and finds the title in none. */
  predicate Releases(s: State, e: Event, title: string) {
    e == Sweep && AllSnapshotsReady(s.instances) && !Held(s.instances, title)
  }

  /** One step: a forgotten title stays forgotten and out of the map unless a sweep
      releases it, or the process restarts when the history does not remember it. */
  lemma ForgottenStep(cfg: Settings, s: State, e: Event, title: string)
    requires Sound(cfg, s) && title in s.forgotten && !Releases(s, e, title) && (e.Restart? ==> Remembered(s, title))
    ensures title in Next(cfg, s, e).forgotten && title !in Next(cfg, s, e).items
  {
    StepKeeps(cfg, s, e);
  }

  predicate LosesRow(s: State, e: Event, title: string) {
    || (e.Trim? && e.title == title) || (e.DeleteRow? && e.title == title)
    || (e.ClearHistory? && RowIsDurable(s, title))
  }

  lemma RememberedStep(cfg: Settings, s: State, e: Event, title: string)
    requires Sound(cfg, s) && title in s.forgotten && Remembered(s, title) && !LosesRow(s, e, title)
    ensures Remembered(Next(cfg, s, e), title)
  {
    if Enabled(cfg, s, e) {
      match e {
        case QueueChanges(now) => RowUntouched(s, QueueFates(s, now), now, title);
        case Cleaner(now) => RowUntouched(s, CleanerFates(cfg, s, now), now, title);
        case _ =>
      }
    }
  }

  /** A check writes rows of titles in the map only. */
  lemma RowUntouched(s: State, fates: map<string, Fate>, now: int, title: string)
    requires fates.Keys <= s.items.Keys && title !in s.items && Remembered(s, title)
    ensures Remembered(WithFates(s, fates, now), title)
  {
  }

  /** None of some steps releases the title or takes its row out of the history. */
  predicate KeepsForgotten(cfg: Settings, s: State, events: seq<Event>, title: string) {
    events == [] ||
    (var init, last := events[..|events| - 1], events[|events| - 1];
     && KeepsForgotten(cfg, s, init, title)
     && !Releases(From(cfg, s, init), last, title) && !LosesRow(From(cfg, s, init), last, title))
  }

  /** A forgotten title whose row the history holds stays out of the map over polls,
      callbacks, cleaner ticks, config changes and restarts, until a sweep releases it. */
  lemma {:induction false} ForgottenStays(cfg: Settings, s: State, events: seq<Event>, title: string)
    requires Sound(cfg, s) && title in s.forgotten && Remembered(s, title) && KeepsForgotten(cfg, s, events, title)
    ensures var n := From(cfg, s, events);
            Sound(cfg, n) && title in n.forgotten && title !in n.items && Remembered(n, title)
  {
    if events != [] {
      var init, last := events[..|events| - 1], events[|events| - 1];
      ForgottenStays(cfg, s, init, title);
      var before := From(cfg, s, init);
      StepKeeps(cfg, before, last);
      ForgottenStep(cfg, before, last, title);
      RememberedStep(cfg, before, last, title);
    }
  }

  predicate NoRestart(events: seq<Event>) {
    forall i :: 0 <= i < |events| ==> !events[i].Restart?
  }

  predicate NeverReleased(cfg: Settings, s: State, events: seq<Event>, title: string) {
    events == [] ||
    (var init, last := events[..|events| - 1], events[|events| - 1];
     NeverReleased(cfg, s, init, title) && !Releases(From(cfg, s, init), last, title))
  }

  /** Within one process the history does not matter. */
  lemma {:induction false} ForgottenWithinProcess(cfg: Settings, s: State, events: seq<Event>, title: string)
    requires Sound(cfg, s) && title in s.forgotten && NoRestart(events) && NeverReleased(cfg, s, events, title)
    ensures var n := From(cfg, s, events); Sound(cfg, n) && title in n.forgotten && title !in n.items
  {
    if events != [] {
      var init, last := events[..|events| - 1], events[|events| - 1];
      assert forall i :: 0 <= i < |init| ==> init[i] == events[i];
      ForgottenWithinProcess(cfg, s, init, title);
      StepKeeps(cfg, From(cfg, s, init), last);
      ForgottenStep(cfg, From(cfg, s, init), last, title);
    }
  }

  /** Forgetting an item is remembered by the history exactly when its row is in memory. */
  lemma ForgetRemembered(cfg: Settings, s: State, title: string)
    requires Sound(cfg, s) && Enabled(cfg, s, Forget(title))
    ensures title in Step(cfg, s, Forget(title)).forgotten
    ensures Remembered(Step(cfg, s, Forget(title)), title) <==> title in s.kept
  {
  }

  /** A restart, whatever rows it loads, keeps the title forgotten exactly when the history
      remembers it. */
  lemma RestartRemembers(cfg: Settings, s: State, title: string, next: seq<Instance>, now: int)
    requires Sound(cfg, s)
    ensures Remembered(s, title) <==>
              forall loaded :: Enabled(cfg, s, Restart(loaded, next, now)) ==>
                title in Restarted(cfg, s, loaded, next, now).forgotten
  {
    if !Remembered(s, title) {
      assert Enabled(cfg, s, Restart(s.kept, next, now));
      assert title !in Restarted(cfg, s, s.kept, next, now).forgotten;
    }
  }

  /** Without its row the title is back after a restart and a poll. */
  lemma ForgottenComesBack(cfg: Settings, s: State, title: string, inst: Instance, now: int)
    requires Sound(cfg, s) && Enabled(cfg, s, Forget(title)) && title !in s.kept
    ensures var restarted := Next(cfg, Next(cfg, s, Forget(title)), Restart(s.kept, [inst], now));
            var polled := Next(cfg, restarted, PollOk(0, [Record(title, true)]));
            title in Next(cfg, polled, CheckQueues(now)).items
  {
    var restarted := Next(cfg, Next(cfg, s, Forget(title)), Restart(s.kept, [inst], now));
    ForgottenLost(cfg, s, title, [inst], now);
    PolledBack(cfg, restarted, title, now);
  }

  lemma ForgottenLost(cfg: Settings, s: State, title: string, next: seq<Instance>, now: int)
    requires Sound(cfg, s) && Enabled(cfg, s, Forget(title)) && title !in s.kept
    ensures var restarted := Next(cfg, Next(cfg, s, Forget(title)), Restart(s.kept, next, now));
            title !in restarted.forgotten && |restarted.instances| == |next|
  {
  }

  lemma PolledBack(cfg: Settings, s: State, title: string, now: int)
    requires title !in s.forgotten && |s.instances| == 1
    ensures title in Next(cfg, Next(cfg, s, PollOk(0, [Record(title, true)])), CheckQueues(now)).items
  {
    var polled := Polled(s, 0, [Record(title, true)]);
    BackInMap(polled.items, polled.forgotten, polled.instances[0], title, now);
    assert polled.instances == [polled.instances[0]];
  }

  lemma BackInMap(items: map<string, Extract>, forgotten: set<string>, inst: Instance, title: string, now: int)
    requires title !in forgotten && inst.queue == [Record(title, true)]
    ensures title in WithInstances(items, forgotten, [inst], now)
  {
    assert [inst][..0] == [] && inst.queue[..0] == [];
    assert WithInstances(items, forgotten, [], now) == items;
    assert WithRecords(items, forgotten, inst, [], now) == items;
  }
}
