/** The delete delay over every run of the steps in Lifecycle: since when an item has been
    imported. */
module LifecycleClock {

  import opened HistoryLog
  import opened Lifecycle
  import opened LifecycleSafety

  // ---------------------------------------------------------------- one step

  predicate IsImported(s: State, title: string) {
    title in s.items && s.items[title].status == IMPORTED
  }

  /** Imported, with this clock. */
  predicate ImportedAt(s: State, title: string, clock: int) {
    IsImported(s, title) && s.items[title].updated == clock
  }

  /** What makes an item imported that was not: a queue check that takes the time for its
      clock, or a restart. */
  predicate BecomesImported(cfg: Settings, s: State, e: Event, title: string, clock: int) {
    && !IsImported(s, title) && Enabled(cfg, s, e)
    && (e == QueueChanges(clock) || (e.Restart? && RowImports(s, e, title) && s.rows[title].item.updated == clock))
  }

  /** A restart finds a row that says imported, is not forgotten and not too old. */
  predicate RowImports(s: State, e: Event, title: string)
    requires e.Restart?
  {
    && title in e.loaded && title in s.rows && s.rows[title].item.status == IMPORTED && !s.rows[title].forgotten
    && s.rows[title].item.updated >= e.now - RESTORE_AGE
  }

  lemma FateImports(s: State, fates: map<string, Fate>, now: int, title: string)
    requires fates.Keys <= s.items.Keys && IsImported(WithFates(s, fates, now), title)
    ensures title in s.items
    ensures var n := WithFates(s, fates, now);
            if title in fates then fates[title].Stay? && n.items[title] == fates[title].item
            else n.items[title] == s.items[title]
  {
  }

  lemma QueueCheckImports(cfg: Settings, s: State, now: int, title: string, clock: int)
    requires ImportedAt(WithFates(s, QueueFates(s, now), now), title, clock)
    ensures ImportedAt(s, title, clock) || (clock == now && !IsImported(s, title))
  {
    FateImports(s, QueueFates(s, now), now, title);
  }

  /** A cleaner tick makes nothing imported. */
  lemma CleanerFate(cfg: Settings, instances: seq<Instance>, title: string, item: Extract, now: int)
    ensures var fate := AfterCleaner(cfg, instances, title, item, now);
            fate.Stay? && fate.item.status == IMPORTED ==> fate.item == item
  {
  }

  lemma CleanerImports(cfg: Settings, s: State, now: int, title: string, clock: int)
    requires ImportedAt(WithFates(s, CleanerFates(cfg, s, now), now), title, clock)
    ensures ImportedAt(s, title, clock)
  {
    FateImports(s, CleanerFates(cfg, s, now), now, title);
    CleanerFate(cfg, s.instances, title, s.items[title], now);
  }

  lemma OthersImport(cfg: Settings, s: State, e: Event, title: string, clock: int)
    requires Sound(cfg, s) && Enabled(cfg, s, e) && !e.QueueChanges? && !e.Cleaner? && !e.Restart?
    requires ImportedAt(Step(cfg, s, e), title, clock)
    ensures ImportedAt(s, title, clock)
  {
    if e.CheckQueues? {
      InstancesGrow(s.items, s.forgotten, s.instances, e.now);
    }
  }

  lemma RestartImports(cfg: Settings, s: State, e: Event, title: string)
    requires Sound(cfg, s) && Enabled(cfg, s, e) && e.Restart?
    ensures IsImported(Step(cfg, s, e), title) <==> RowImports(s, e, title)
    ensures RowImports(s, e, title) ==> ImportedAt(Step(cfg, s, e), title, s.rows[title].item.updated)
    ensures RowImports(s, e, title) && IsImported(s, title) ==> s.items[title].updated == s.rows[title].item.updated
  {
    if title in s.rows {
      assert ItemOk(cfg, s.imports, title, s.rows[title].item);
    }
  }

  /** An item that is imported after a step was so before, with the same clock, or a queue
      check made it imported at that time, or a restart read it from its row. */
  lemma ImportedStep(cfg: Settings, s: State, e: Event, title: string, clock: int)
    requires Sound(cfg, s) && ImportedAt(Next(cfg, s, e), title, clock)
    ensures ImportedAt(s, title, clock) || BecomesImported(cfg, s, e, title, clock)
  {
    if Enabled(cfg, s, e) {
      if e.QueueChanges? {
        QueueCheckImports(cfg, s, e.now, title, clock);
      } else if e.Cleaner? {
        CleanerImports(cfg, s, e.now, title, clock);
      } else if e.Restart? {
        RestartImports(cfg, s, e, title);
      } else {
        OthersImport(cfg, s, e, title, clock);
      }
    }
  }

  // ---------------------------------------------------------------- a whole run

  /** The state after the first k events. */
  function At(cfg: Settings, events: seq<Event>, k: nat): State
    requires k <= |events|
  {
    After(cfg, events[..k])
  }

  lemma AtNext(cfg: Settings, events: seq<Event>, k: nat)
    requires k < |events|
    ensures At(cfg, events, k + 1) == Next(cfg, At(cfg, events, k), events[k])
    ensures Sound(cfg, At(cfg, events, k))
  {
    EveryRunKeeps(cfg, events[..k]);
    assert events[..k + 1][..k] == events[..k];
  }

  /** Imported in every state from the m-th to the n-th, with one clock. */
  predicate StaysImported(cfg: Settings, events: seq<Event>, m: nat, n: nat, title: string, clock: int)
    requires n <= |events|
  {
    forall j :: m <= j <= n ==> ImportedAt(At(cfg, events, j), title, clock)
  }

  /** A queue check made the item imported at `clock`, and it stayed so up to state n. */
  predicate CheckedIn(cfg: Settings, events: seq<Event>, n: nat, title: string, clock: int)
    requires n <= |events|
  {
    exists k :: 0 <= k < n && events[k] == QueueChanges(clock) && !IsImported(At(cfg, events, k), title)
                && StaysImported(cfg, events, k + 1, n, title, clock)
  }

  /** A restart made the item imported that was not so in memory, and it stayed so up to
      state n. */
  predicate ReadBack(cfg: Settings, events: seq<Event>, n: nat, title: string, clock: int)
    requires n <= |events|
  {
    exists k :: 0 <= k < n && events[k].Restart? && !IsImported(At(cfg, events, k), title)
                && StaysImported(cfg, events, k + 1, n, title, clock)
  }

  lemma StaysOn(cfg: Settings, events: seq<Event>, m: nat, n: nat, title: string, clock: int)
    requires m <= n < |events| && StaysImported(cfg, events, m, n, title, clock)
    requires ImportedAt(At(cfg, events, n + 1), title, clock)
    ensures StaysImported(cfg, events, m, n + 1, title, clock)
  {
  }

  lemma {:induction false} OneOfTwo(cfg: Settings, events: seq<Event>, n: nat, title: string, clock: int)
    requires n <= |events| && ImportedAt(At(cfg, events, n), title, clock)
    ensures CheckedIn(cfg, events, n, title, clock) || ReadBack(cfg, events, n, title, clock)
  {
    if n > 0 {
      AtNext(cfg, events, n - 1);
      ImportedStep(cfg, At(cfg, events, n - 1), events[n - 1], title, clock);
      if ImportedAt(At(cfg, events, n - 1), title, clock) {
        OneOfTwo(cfg, events, n - 1, title, clock);
        if CheckedIn(cfg, events, n - 1, title, clock) {
          var k :| 0 <= k < n - 1 && events[k] == QueueChanges(clock) && !IsImported(At(cfg, events, k), title)
                   && StaysImported(cfg, events, k + 1, n - 1, title, clock);
          StaysOn(cfg, events, k + 1, n - 1, title, clock);
        } else {
          var k :| 0 <= k < n - 1 && events[k].Restart? && !IsImported(At(cfg, events, k), title)
                   && StaysImported(cfg, events, k + 1, n - 1, title, clock);
          StaysOn(cfg, events, k + 1, n - 1, title, clock);
        }
      } else {
        assert StaysImported(cfg, events, n - 1 + 1, n, title, clock);
      }
    }
  }

  lemma BeforeStay(cfg: Settings, events: seq<Event>, k: nat, l: nat, n: nat, title: string, clock: int)
    requires k < n <= |events| && l <= n && StaysImported(cfg, events, k + 1, n, title, clock)
    requires !IsImported(At(cfg, events, l), title)
    ensures l <= k
  {
  }

  /** In every run an imported item was made so by a queue check at the time of its clock and
      has been imported ever since, exactly when no restart read it back that found it not
      imported. */
  lemma ImportedSince(cfg: Settings, events: seq<Event>, n: nat, title: string, clock: int)
    requires n <= |events| && ImportedAt(At(cfg, events, n), title, clock)
    ensures CheckedIn(cfg, events, n, title, clock) <==> !ReadBack(cfg, events, n, title, clock)
  {
    OneOfTwo(cfg, events, n, title, clock);
    if CheckedIn(cfg, events, n, title, clock) && ReadBack(cfg, events, n, title, clock) {
      var k :| 0 <= k < n && events[k] == QueueChanges(clock) && !IsImported(At(cfg, events, k), title)
               && StaysImported(cfg, events, k + 1, n, title, clock);
      var l :| 0 <= l < n && events[l].Restart? && !IsImported(At(cfg, events, l), title)
               && StaysImported(cfg, events, l + 1, n, title, clock);
      BeforeStay(cfg, events, k, l, n, title, clock);
      BeforeStay(cfg, events, l, k, n, title, clock);
    }
  }
}
