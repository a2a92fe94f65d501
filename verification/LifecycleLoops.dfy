/** The loops and handlers behind the steps of Lifecycle, as methods of the object that the
    main loop updates: pkg/unpackerr/handlers.go, starrpoll.go, queue_actions.go,
    historyrestore.go and configput.go. Go walks u.Map in any order, and so do these. */
module LifecycleLoops {

  import opened HistoryLog
  import opened Lifecycle

  // ---------------------------------------------------------------- reading the queues

  method HasQueueTitle(queue: seq<Record>, title: string) returns (found: bool)
    ensures found == HasTitle(queue, title)
  {
    for i := 0 to |queue|
      invariant forall k :: 0 <= k < i ==> queue[k].title != title
    {
      if queue[i].title == title {
        return true;
      }
    }
    return false;
  }

  method HaveQitem(instances: seq<Instance>, app: App, title: string) returns (have: bool)
    ensures have == HaveQueueItem(instances, app, title)
  {
    if app == Unknown {
      return false;
    }
    for i := 0 to |instances|
      invariant forall k :: 0 <= k < i && instances[k].app == app ==> !HasTitle(instances[k].queue, title)
    {
      if instances[i].app == app {
        var found := HasQueueTitle(instances[i].queue, title);
        if found {
          return true;
        }
      }
    }
    return false;
  }

  lemma {:induction false} FirstWithUrlIs(instances: seq<Instance>, app: App, url: string, i: nat)
    requires i < |instances| && IsInstance(instances[i], app, url)
    requires forall k :: 0 <= k < i ==> !IsInstance(instances[k], app, url)
    ensures FirstWithUrl(instances, app, url) == i
  {
    if i > 0 {
      FirstWithUrlIs(instances[1..], app, url, i - 1);
    }
  }

  method QueueSnapshotReady(instances: seq<Instance>, item: Extract) returns (ready: bool)
    ensures ready == SnapshotReady(instances, item)
  {
    if item.app == Unknown {
      return true;
    }
    if item.url != "" {
      for i := 0 to |instances|
        invariant forall k :: 0 <= k < i ==> !IsInstance(instances[k], item.app, item.url)
      {
        if IsInstance(instances[i], item.app, item.url) {
          FirstWithUrlIs(instances, item.app, item.url, i);
          return instances[i].polled;
        }
      }
      return true;
    }
    for i := 0 to |instances|
      invariant forall k :: 0 <= k < i && instances[k].app == item.app ==> instances[k].polled
    {
      if instances[i].app == item.app && !instances[i].polled {
        return false;
      }
    }
    return true;
  }

  // ---------------------------------------------------------------- one item after another

  function Firsts(fates: map<string, Fate>, done: set<string>): map<string, Fate> {
    map t | t in fates && t in done :: fates[t]
  }

  /** The state when some of the items met their fates. */
  function Partly(s: State, fates: map<string, Fate>, done: set<string>, now: int): State
    requires fates.Keys <= s.items.Keys
  {
    WithFates(s, Firsts(fates, done), now)
  }

  lemma NextItems(items: map<string, Extract>, fates: map<string, Fate>, done: set<string>, t: string)
    requires t in items && t in fates && t !in done
    ensures var p := ItemsAfter(items, Firsts(fates, done));
            t in p && p[t] == items[t]
            && ItemsAfter(items, Firsts(fates, done + {t})) == if fates[t].Stay? then p[t := fates[t].item] else p - {t}
  {
  }

  lemma NextRows(fates: map<string, Fate>, done: set<string>, t: string)
    requires t in fates && t !in done
    ensures var p := RowsFrom(Firsts(fates, done));
            RowsFrom(Firsts(fates, done + {t})) == if Writes(fates[t]) then p[t := NewRow(fates[t].item)] else p
  {
  }

  predicate Imports(fate: Fate) {
    Writes(fate) && fate.item.status == IMPORTED
  }

  lemma ImportsIff(fates: map<string, Fate>, x: (string, int))
    ensures x in ImportsOf(fates) <==> x.0 in fates && Imports(fates[x.0]) && fates[x.0].item.updated == x.1
  {
    if x.0 in fates && Imports(fates[x.0]) && fates[x.0].item.updated == x.1 {
      assert x == (x.0, fates[x.0].item.updated);
    }
  }

  lemma NextImports(fates: map<string, Fate>, done: set<string>, t: string)
    requires t in fates && t !in done
    ensures ImportsOf(Firsts(fates, done + {t}))
         == ImportsOf(Firsts(fates, done)) + if Imports(fates[t]) then {(t, fates[t].item.updated)} else {}
  {
    var p, n := Firsts(fates, done), Firsts(fates, done + {t});
    var more := if Imports(fates[t]) then {(t, fates[t].item.updated)} else {};
    forall x ensures x in ImportsOf(n) <==> x in ImportsOf(p) || x in more {
      ImportsIff(n, x);
      ImportsIff(p, x);
    }
  }

  lemma NextDeletions(s: State, fates: map<string, Fate>, done: set<string>, t: string, now: int)
    requires fates.Keys <= s.items.Keys && t in fates && t !in done
    ensures DeletionsOf(s, Firsts(fates, done + {t}), now)
         == DeletionsOf(s, Firsts(fates, done), now)
            + if fates[t].Stay? && fates[t].deleted then {Deletion(t, s.items[t], now, s.instances, s.polls)} else {}
  {
  }

  lemma JoinRows(rows: map<string, HistoryRow>, more: map<string, HistoryRow>, t: string, row: HistoryRow)
    ensures rows + more[t := row] == (rows + more)[t := row]
    ensures more[t := row].Keys == more.Keys + {t}
  {
  }

  lemma AddSets<T>(a: set<T>, b: set<T>, c: set<T>)
    ensures a + (b + c) == (a + b) + c && a + {} == a
  {
  }

  lemma OneMoreNote(s: State, fates: map<string, Fate>, done: set<string>, t: string, now: int)
    requires fates.Keys <= s.items.Keys && t in fates && t !in done
    ensures var p, n := Partly(s, fates, done, now), Partly(s, fates, done + {t}, now);
            && n.imports == (if Imports(fates[t]) then p.imports + {(t, fates[t].item.updated)} else p.imports)
            && n.deletions == (if fates[t].Stay? && fates[t].deleted
                               then p.deletions + {Deletion(t, s.items[t], now, s.instances, s.polls)} else p.deletions)
  {
    var before := Firsts(fates, done);
    NextImports(fates, done, t);
    AddSets(s.imports, ImportsOf(before), if Imports(fates[t]) then {(t, fates[t].item.updated)} else {});
    NextDeletions(s, fates, done, t, now);
    AddSets(s.deletions, DeletionsOf(s, before, now),
            if fates[t].Stay? && fates[t].deleted then {Deletion(t, s.items[t], now, s.instances, s.polls)} else {});
    AddSets(s.imports + ImportsOf(before), {}, {});
    AddSets(s.deletions + DeletionsOf(s, before, now), {}, {});
  }

  lemma OneMoreItem(s: State, fates: map<string, Fate>, done: set<string>, t: string, now: int)
    requires fates.Keys <= s.items.Keys && t in fates && t !in done
    ensures var p, n := Partly(s, fates, done, now), Partly(s, fates, done + {t}, now);
            && t in p.items && p.items[t] == s.items[t]
            && n.items == (if fates[t].Stay? then p.items[t := fates[t].item] else p.items - {t})
            && p == s.(items := p.items, rows := p.rows, kept := p.kept, imports := p.imports, deletions := p.deletions)
            && n == s.(items := n.items, rows := n.rows, kept := n.kept, imports := n.imports, deletions := n.deletions)
  {
    NextItems(s.items, fates, done, t);
  }

  /** All the fates at once are the fates one by one. */
  lemma OneMoreFate(s: State, fates: map<string, Fate>, done: set<string>, t: string, now: int, p: State, n: State)
    requires fates.Keys <= s.items.Keys && t in fates && t !in done
    requires p == Partly(s, fates, done, now) && n == Partly(s, fates, done + {t}, now)
    ensures t in p.items && p.items[t] == s.items[t] && p.instances == s.instances && n == FateOn(p, t, fates[t], now)
  {
    OneMoreItem(s, fates, done, t, now);
    OneMoreRow(s, fates, done, t, now);
    OneMoreNote(s, fates, done, t, now);
    FieldByField(s, p, n, t, fates[t], now);
  }

  lemma FieldByField(s: State, p: State, n: State, t: string, fate: Fate, now: int)
    requires t in s.items && t in p.items && p.items[t] == s.items[t]
    requires p == s.(items := p.items, rows := p.rows, kept := p.kept, imports := p.imports, deletions := p.deletions)
    requires n == s.(items := n.items, rows := n.rows, kept := n.kept, imports := n.imports, deletions := n.deletions)
    requires n.items == if fate.Stay? then p.items[t := fate.item] else p.items - {t}
    requires if Writes(fate) then n.rows == p.rows[t := NewRow(fate.item)] && n.kept == p.kept + {t}
             else n.rows == p.rows && n.kept == p.kept
    requires n.imports == if Imports(fate) then p.imports + {(t, fate.item.updated)} else p.imports
    requires n.deletions == if fate.Stay? && fate.deleted
                            then p.deletions + {Deletion(t, s.items[t], now, s.instances, s.polls)} else p.deletions
    ensures n == FateOn(p, t, fate, now)
  {
  }

  lemma OneMoreRow(s: State, fates: map<string, Fate>, done: set<string>, t: string, now: int)
    requires fates.Keys <= s.items.Keys && t in fates && t !in done
    ensures var p, n := Partly(s, fates, done, now), Partly(s, fates, done + {t}, now);
            if Writes(fates[t]) then n.rows == p.rows[t := NewRow(fates[t].item)] && n.kept == p.kept + {t}
            else n.rows == p.rows && n.kept == p.kept
  {
    var rows := RowsFrom(Firsts(fates, done));
    NextRows(fates, done, t);
    if Writes(fates[t]) {
      JoinRows(s.rows, rows, t, NewRow(fates[t].item));
      AddSets(s.kept, rows.Keys, {t});
    }
  }

  /** The state when all but the items in todo met their fates. */
  function ToDo(s: State, fates: map<string, Fate>, todo: set<string>, now: int): State
    requires fates.Keys <= s.items.Keys
  {
    Partly(s, fates, s.items.Keys - todo, now)
  }

  lemma NoneAndAll(s: State, fates: map<string, Fate>, now: int)
    requires fates.Keys == s.items.Keys
    ensures ToDo(s, fates, s.items.Keys, now) == s && ToDo(s, fates, {}, now) == WithFates(s, fates, now)
  {
    assert Firsts(fates, s.items.Keys) == fates;
    assert s.items.Keys - s.items.Keys == {} && s.items.Keys - {} == s.items.Keys;
  }

  lemma NextToDo(s: State, fates: map<string, Fate>, todo: set<string>, t: string, now: int, p: State)
    requires fates.Keys == s.items.Keys && todo <= s.items.Keys && t in todo && p == ToDo(s, fates, todo, now)
    ensures t in p.items && p.items[t] == s.items[t] && p.instances == s.instances
    ensures ToDo(s, fates, todo - {t}, now) == FateOn(p, t, fates[t], now)
  {
    var done := s.items.Keys - todo;
    assert s.items.Keys - (todo - {t}) == done + {t};
    OneMoreFate(s, fates, done, t, now, p, Partly(s, fates, done + {t}, now));
  }

  // ---------------------------------------------------------------- carrying polls over

  predicate SameConfig(a: Instance, b: Instance) {
    SameIdentity(a, b) && a.deleteDelay == b.deleteDelay && a.deleteOrig == b.deleteOrig
  }

  /** What of an instance tells it apart: its app, and starrIdentity. */
  datatype Identity = Identity(app: App, url: string, key: string)

  function IdentityOf(inst: Instance): Identity {
    Identity(inst.app, inst.url, inst.key)
  }

  /** carryQueues: Go walks the old instances in any order, and the last of several with one
      identity wins. */
  method CarryQueues(prev: seq<Instance>, next: seq<Instance>) returns (carried: seq<Instance>)
    ensures |carried| == |next|
    ensures forall i :: 0 <= i < |next| ==> SameConfig(carried[i], next[i]) && Carried(prev, carried[i])
  {
    var seen: map<Identity, Instance> := map[];
    var todo := set was | was in prev;
    while todo != {}
      invariant forall was :: was in prev && was !in todo ==> IdentityOf(was) in seen
      invariant todo <= set was | was in prev
      invariant forall id :: id in seen ==> seen[id] in prev && IdentityOf(seen[id]) == id
    {
      var was :| was in todo;
      todo := todo - {was};
      seen := seen[IdentityOf(was) := was];
    }
    carried := [];
    for i := 0 to |next|
      invariant |carried| == i
      invariant forall k :: 0 <= k < i ==> SameConfig(carried[k], next[k]) && Carried(prev, carried[k])
    {
      var inst := next[i].(polled := false, queue := []);
      if IdentityOf(inst) in seen {
        var was := seen[IdentityOf(inst)];
        inst := TakeQueue(was, inst);
        TakenFrom(prev, was, inst);
      } else {
        NoneTaken(prev, inst);
      }
      carried := carried + [inst];
    }
  }

  lemma TakenFrom(prev: seq<Instance>, was: Instance, inst: Instance)
    requires was in prev && IdentityOf(was) == IdentityOf(inst) && inst == TakeQueue(was, inst)
    ensures Carried(prev, inst)
  {
    var k :| 0 <= k < |prev| && prev[k] == was;
    assert SameIdentity(prev[k], inst) && inst == TakeQueue(prev[k], inst);
  }

  lemma NoneTaken(prev: seq<Instance>, inst: Instance)
    requires forall was :: was in prev ==> IdentityOf(was) != IdentityOf(inst)
    requires !inst.polled && inst.queue == []
    ensures Carried(prev, inst)
  {
    forall i | 0 <= i < |prev| ensures !SameIdentity(prev[i], inst) {
      assert prev[i] in prev;
    }
  }

  // ---------------------------------------------------------------- the object

  /** What a queue action answers: errQueueNotFound, errQueueNotFailed or
      errQueueNotForgettable, and success. */
  datatype Answer = Accepted | Missing | Refused

  class Unpackerr {
    const cfg: Settings
    var items: map<string, Extract>
    var forgotten: set<string>
    var instances: seq<Instance>
    var rows: map<string, HistoryRow>
    var kept: set<string>
    ghost var polls: set<Poll>
    ghost var imports: set<(string, int)>
    ghost var deletions: set<Deletion>

    ghost function View(): State
      reads this
    {
      State(items, forgotten, instances, rows, kept, polls, imports, deletions)
    }

    constructor (cfg: Settings)
      ensures View() == Start() && this.cfg == cfg
    {
      this.cfg := cfg;
      items, forgotten, instances, rows, kept := map[], {}, [], map[], {};
      polls, imports, deletions := {}, {}, {};
    }

    /** What maybeRecordHistory does to the history that Lifecycle keeps. */
    method Record(name: string)
      requires name in items
      modifies `rows, `kept
      ensures rows == old(rows)[name := NewRow(items[name])] && kept == old(kept) + {name}
    {
      rows := rows[name := NewRow(items[name])];
      kept := kept + {name};
    }

    method SetItem(name: string, item: Extract)
      requires name in items
      modifies `items
      ensures View() == FateOn(old(View()), name, Same(item), 0)
    {
      items := items[name := item];
    }

    /** updateQueueStatus, for an item whose other fields are already set in `item`. */
    method UpdateQueueStatus(name: string, item: Extract, status: Status, now: int)
      requires name in items
      modifies `items, `rows, `kept, `imports
      ensures View() == FateOn(old(View()), name, Recorded(item, status, now), now)
    {
      items := items[name := item.(status := status, updated := now)];
      Record(name);
      if status == IMPORTED {
        imports := imports + {(name, now)};
      }
    }

    method DeleteExtract(name: string)
      requires name in items
      modifies `items
      ensures View() == FateOn(old(View()), name, Drop, 0)
    {
      items := items - {name};
    }

    method QueueChange(name: string, now: int)
      requires name in items
      modifies `items, `rows, `kept, `imports
      ensures View() == FateOn(old(View()), name, AfterQueueChange(instances, name, old(items)[name], now), now)
    {
      var data := items[name];
      var have := HaveQitem(instances, data.app, name);
      var ready := QueueSnapshotReady(instances, data);
      if !have {
        if !ready {
          SetItem(name, data);
        } else if data.status == WAITING {
          DeleteExtract(name);
        } else if Rank(data.status) >= Rank(IMPORTED) {
          SetItem(name, data);
        } else {
          UpdateQueueStatus(name, data, IMPORTED, now);
        }
      } else if data.status == IMPORTED {
        SetItem(name, data.(status := EXTRACTED));
      } else if Rank(data.status) > Rank(IMPORTED) {
        SetItem(name, data.(status := WAITING, updated := now));
      } else {
        SetItem(name, data);
      }
    }

    method CheckQueueChanges(now: int)
      modifies this
      ensures View() == WithFates(old(View()), QueueFates(old(View()), now), now)
    {
      ghost var s := View();
      ghost var fates := QueueFates(s, now);
      var todo := items.Keys;
      NoneAndAll(s, fates, now);
      while todo != {}
        invariant todo <= s.items.Keys && View() == ToDo(s, fates, todo, now)
      {
        var name :| name in todo;
        NextToDo(s, fates, todo, name, now, View());
        QueueChange(name, now);
        todo := todo - {name};
      }
    }

    method QueueDelete(name: string, item: Extract, now: int)
      requires name in items
      modifies `deletions
      ensures deletions == old(deletions) + {Deletion(name, item, now, instances, polls)}
    {
      deletions := deletions + {Deletion(name, item, now, instances, polls)};
    }

    method CleanUp(name: string, now: int)
      requires name in items
      modifies `items, `rows, `kept, `imports, `deletions
      ensures View() == FateOn(old(View()), name, AfterCleaner(cfg, instances, name, old(items)[name], now), now)
    {
      var item := items[name];
      var elapsed := now - item.updated;
      var have := HaveQitem(instances, item.app, name);
      var ready := QueueSnapshotReady(instances, item);
      if item.status == DELETED && elapsed >= item.deleteDelay {
        DeleteExtract(name);
      } else if item.status == EXTRACTFAILED && item.noRetry {
        SetItem(name, item);
      } else if item.status == EXTRACTFAILED && elapsed >= cfg.retryDelay && item.retries < MaxRetries(cfg) {
        SetItem(name, item.(retries := item.retries + 1, status := WAITING, updated := now));
      } else if item.status == EXTRACTFAILED && item.retries >= MaxRetries(cfg) {
        UpdateQueueStatus(name, item.(noRetry := true), EXTRACTFAILED, now);
      } else if (item.status == EXTRACTED || item.status == EXTRACTING || item.status == QUEUED)
                && elapsed >= STALE_ITEM_TIMEOUT {
        UpdateQueueStatus(name, item, DELETED, now);
      } else if item.status == IMPORTED && elapsed >= item.deleteDelay && (!ready || have) {
        SetItem(name, item);
      } else if item.status == IMPORTED && elapsed >= item.deleteDelay {
        if item.deleteOrig || (item.files > 0 && item.deleteDelay >= 0) {
          QueueDelete(name, item, now);
        }
        UpdateQueueStatus(name, item, DELETED, now);
      } else {
        SetItem(name, item);
      }
    }

    method CheckExtractDone(now: int)
      modifies this
      ensures View() == WithFates(old(View()), CleanerFates(cfg, old(View()), now), now)
    {
      ghost var s := View();
      ghost var fates := CleanerFates(cfg, s, now);
      var todo := items.Keys;
      NoneAndAll(s, fates, now);
      while todo != {}
        invariant todo <= s.items.Keys && View() == ToDo(s, fates, todo, now)
      {
        var name :| name in todo;
        NextToDo(s, fates, todo, name, now, View());
        CleanUp(name, now);
        todo := todo - {name};
      }
    }

    /** The callback, after handleRemnants; a title that is not in the map is ignored. */
    method HandleXtractrCallback(name: string, report: Report, now: int)
      modifies this
      ensures View() == if name in old(items)
                        then FateOn(old(View()), name, AfterCallback(old(items)[name], report, now), now)
                        else old(View())
    {
      if name !in items {
        return;
      }
      var item := items[name].(files := report.files);
      match report.stage {
        case Began => UpdateQueueStatus(name, item, EXTRACTING, now);
        case RemnantsCleared => SetItem(name, item.(retries := item.retries + 1, status := WAITING, updated := now));
        case RemnantsRemain(off) => UpdateQueueStatus(name, item.(noRetry := item.noRetry || off), EXTRACTFAILED, now);
        case Failed(limit) => UpdateQueueStatus(name, item.(noRetry := item.noRetry || limit), EXTRACTFAILED, now);
        case Succeeded => UpdateQueueStatus(name, item, EXTRACTED, now);
      }
    }

    method MarkItemQueued(name: string, now: int)
      requires Enabled(cfg, View(), StartExtract(name, now))
      modifies this
      ensures View() == Step(cfg, old(View()), StartExtract(name, now))
    {
      UpdateQueueStatus(name, items[name], QUEUED, now);
    }

    method PublishStarrPoll(i: nat, ok: bool, queue: seq<Lifecycle.Record>)
      requires i < |instances|
      modifies this
      ensures View() == if ok then Polled(old(View()), i, queue) else old(View())
    {
      if !ok {
        return;
      }
      instances := instances[i := instances[i].(polled := true, queue := queue)];
      polls := polls + {Poll(instances[i].app, instances[i].url, instances[i].key, queue)};
    }

    method CheckStarrQueue(now: int)
      modifies `items
      ensures items == WithInstances(old(items), forgotten, instances, now)
    {
      for i := 0 to |instances|
        invariant items == WithInstances(old(items), forgotten, instances[..i], now)
      {
        assert instances[..i + 1][..i] == instances[..i];
        var inst := instances[i];
        ghost var before := items;
        for j := 0 to |inst.queue|
          invariant items == WithRecords(before, forgotten, inst, inst.queue[..j], now)
        {
          assert inst.queue[..j + 1][..j] == inst.queue[..j];
          var rec := inst.queue[j];
          if rec.title !in items && rec.complete && rec.title !in forgotten {
            items := items[rec.title := NewItem(inst, now)];
          }
        }
        assert inst.queue[..|inst.queue|] == inst.queue;
      }
      assert instances[..|instances|] == instances;
    }

    method SweepForgotten()
      modifies `forgotten
      ensures forgotten == if AllSnapshotsReady(instances) then (set t | t in old(forgotten) && Held(instances, t))
                           else old(forgotten)
    {
      var ready := forall i :: 0 <= i < |instances| ==> instances[i].polled;
      if !ready {
        return;
      }
      var todo := forgotten;
      while todo != {}
        invariant todo <= old(forgotten)
        invariant forgotten == set t | t in old(forgotten) && (t in todo || Held(instances, t))
      {
        var t :| t in todo;
        todo := todo - {t};
        if !Held(instances, t) {
          forgotten := forgotten - {t};
        }
      }
    }

    method RetryQueueID(name: string, now: int) returns (answer: Answer)
      modifies this
      ensures answer == if name !in old(items) then Missing
                        else if old(items)[name].status != EXTRACTFAILED then Refused else Accepted
      ensures View() == Next(cfg, old(View()), Retry(name, now))
    {
      if name !in items {
        return Missing;
      }
      if items[name].status != EXTRACTFAILED {
        return Refused;
      }
      items := items[name := RetriedByHand(items[name], now)];
      return Accepted;
    }

    method ForgetQueueID(name: string) returns (answer: Answer)
      modifies this
      ensures answer == if name !in old(items) then Missing
                        else if !IsDurable(old(items)[name].status) then Refused else Accepted
      ensures View() == Next(cfg, old(View()), Forget(name))
    {
      if name !in items {
        return Missing;
      }
      if !IsDurable(items[name].status) {
        return Refused;
      }
      DeleteExtract(name);
      forgotten := forgotten + {name};
      if name in kept && name in rows {
        rows := rows[name := rows[name].(forgotten := true)];
      }
      return Accepted;
    }

    method PutStarrList(next: seq<Instance>)
      modifies `instances
      ensures Enabled(cfg, old(View()), ConfigPut(instances)) && View() == Step(cfg, old(View()), ConfigPut(instances))
      ensures |instances| == |next| && forall i :: 0 <= i < |next| ==> SameConfig(instances[i], next[i])
    {
      instances := CarryQueues(instances, next);
    }
  }

  /** restoreQueueFromHistory: the map and the forgotten titles from the rows loaded. */
  method RestoreQueue(cfg: Settings, instances: seq<Instance>, rows: map<string, HistoryRow>, loaded: set<string>,
                      now: int)
    returns (items: map<string, Extract>, forgotten: set<string>)
    ensures items == map t | t in loaded && t in rows && Restorable(instances, rows[t], now)
                       :: Restored(cfg, instances, rows[t].item, now)
    ensures forgotten == set t | t in loaded && t in rows && rows[t].forgotten
  {
    items, forgotten := map[], {};
    var todo := loaded * rows.Keys;
    while todo != {}
      invariant todo <= loaded * rows.Keys
      invariant items == map t | t in loaded && t in rows && t !in todo && Restorable(instances, rows[t], now)
                           :: Restored(cfg, instances, rows[t].item, now)
      invariant forgotten == set t | t in loaded && t in rows && t !in todo && rows[t].forgotten
    {
      var t :| t in todo;
      todo := todo - {t};
      if rows[t].forgotten {
        forgotten := forgotten + {t};
      } else if Restorable(instances, rows[t], now) {
        items := items[t := Restored(cfg, instances, rows[t].item, now)];
      }
    }
  }
}
