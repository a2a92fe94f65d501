/** The retries of a watched folder: checkFailedFolder, commitFolderExtract and
    folderXtractrCallback of pkg/unpackerr/folder.go, retryFolderLocked of queue_actions.go
    and the restore of folders in historyrestore.go. */
module FolderRetries {

  import opened HistoryLog
  import opened Wrappers

  datatype Folder = Folder(status: Status, updated: int, retries: nat, noRetry: bool)

  datatype Limits = Limits(maxRetries: nat, retryDelay: int)

  /** What a finished extraction reported, with what handleRemnants made of it. */
  datatype Report = RemnantsCleared | RemnantsRemain(off: bool) | Failed | NoArchives | Succeeded

  /** The tracker, the retries shown in the queue, and the history row of each folder.
      `starts` counts the extractions queued since the folder was tracked or retried by
      hand, and `restarts` the restarts of the process; both are for the record. */
  datatype State = State(
    tracker: map<string, Folder>,
    shown: map<string, nat>,
    rows: map<string, Folder>,
    starts: map<string, nat>,
    restarts: nat)

  function Start(): State {
    State(map[], map[], map[], map[], 0)
  }

  // ---------------------------------------------------------------- one folder

  /** checkFailedFolder: the folder leaves the tracker, waits, or starts again. */
  function FailedTick(limits: Limits, f: Folder, now: int): Option<Folder> {
    if f.noRetry then None
    else if now - f.updated >= limits.retryDelay && f.retries < limits.maxRetries then
      Some(Folder(WAITING, now, f.retries + 1, false))
    else if f.retries < limits.maxRetries then Some(f)
    else None
  }

  /** commitFolderExtract, and the callback around it. */
  function Committed(f: Folder, report: Report, now: int): Folder {
    match report
    case RemnantsCleared => f.(status := EXTRACTFAILED, updated := now)
    case RemnantsRemain(off) => f.(status := EXTRACTFAILED, updated := now, noRetry := f.noRetry || off)
    case Failed => f.(status := EXTRACTFAILED, updated := now)
    case NoArchives => f.(status := EXTRACTEDNOTHING, updated := now)
    case Succeeded => f.(status := EXTRACTED, updated := now)
  }

  function Restored(f: Folder): Folder {
    match f.status
    case QUEUED => f.(status := WAITING)
    case EXTRACTING => f.(status := EXTRACTFAILED)
    case DELETING => f.(status := EXTRACTFAILED)
    case _ => f
  }

  predicate Restorable(f: Folder) {
    Restored(f).status in {WAITING, EXTRACTFAILED, EXTRACTED, EXTRACTEDNOTHING}
  }

  // ---------------------------------------------------------------- the steps

  datatype Event =
    | Track(name: string, now: int)
    | Queue(name: string, now: int)
    | Began(name: string, now: int)
    | Done(name: string, report: Report, now: int)
    | Tick(name: string, now: int)
    | Gone(name: string)
    | RetryByHand(name: string, now: int)
    | Restart(kept: set<string>)

  predicate Enabled(s: State, e: Event) {
    match e
    case Track(name, _) => name !in s.tracker
    case Queue(name, _) => name in s.tracker && s.tracker[name].status == WAITING
    case Tick(name, _) => name in s.tracker && s.tracker[name].status == EXTRACTFAILED
    case RetryByHand(name, _) => name in s.tracker && s.tracker[name].status == EXTRACTFAILED
    case Restart(_) => true
    case _ => e.name in s.tracker
  }

  /** updateQueueStatus and maybeRecordHistory: the folder is shown and recorded as it is. */
  function Put(s: State, name: string, f: Folder): State {
    s.(tracker := s.tracker[name := f], shown := s.shown[name := f.retries], rows := s.rows[name := f])
  }

  function Starts(s: State, name: string): nat {
    if name in s.starts then s.starts[name] else 0
  }

  /** A folder that is given up is recorded as deleted and leaves the tracker. */
  function GivenUp(s: State, name: string, now: int): State
    requires name in s.tracker
  {
    s.(rows := s.rows[name := s.tracker[name].(status := DELETED, updated := now)],
       shown := s.shown[name := s.tracker[name].retries], tracker := s.tracker - {name})
  }

  function Restarted(s: State, kept: set<string>): State {
    var back := map name | name in s.rows && name in kept && Restorable(s.rows[name]) :: Restored(s.rows[name]);
    s.(tracker := back, shown := (map name | name in back :: back[name].retries), restarts := s.restarts + 1)
  }

  function Step(limits: Limits, s: State, e: Event): State
    requires Enabled(s, e)
  {
    match e
    case Track(name, now) =>
      s.(tracker := s.tracker[name := Folder(WAITING, now, 0, false)], shown := s.shown[name := 0],
         starts := s.starts[name := 0])
    case Queue(name, now) =>
      Put(s, name, s.tracker[name].(status := QUEUED, updated := now)).(starts := s.starts[name := Starts(s, name) + 1])
    case Began(name, now) => Put(s, name, s.tracker[name].(status := EXTRACTING, updated := now))
    case Done(name, report, now) => Put(s, name, Committed(s.tracker[name], report, now))
    case Tick(name, now) =>
      (match FailedTick(limits, s.tracker[name], now)
       case None => GivenUp(s, name, now)
       case Some(f) => if f == s.tracker[name] then s else Put(s, name, f))
    case Gone(name) => s.(tracker := s.tracker - {name}, shown := s.shown - {name})
    case RetryByHand(name, now) => Put(s, name, Folder(WAITING, now, 0, false)).(starts := s.starts[name := 0])
    case Restart(kept) => Restarted(s, kept)
  }

  function Next(limits: Limits, s: State, e: Event): State {
    if Enabled(s, e) then Step(limits, s, e) else s
  }

  function After(limits: Limits, events: seq<Event>): State {
    if events == [] then Start() else Next(limits, After(limits, events[..|events| - 1]), events[|events| - 1])
  }

  // ---------------------------------------------------------------- what every run keeps

  function Pending(f: Folder): nat {
    if f.status == WAITING then 1 else 0
  }

  predicate FolderOk(limits: Limits, s: State, name: string)
    requires name in s.tracker
  {
    var f := s.tracker[name];
    && f.retries <= limits.maxRetries
    && name in s.shown && s.shown[name] == f.retries
    && Starts(s, name) + Pending(f) <= f.retries + 1 + s.restarts
    && (name in s.rows && Restorable(s.rows[name]) ==> f.retries <= s.rows[name].retries)
  }

  predicate RowOk(limits: Limits, s: State, name: string)
    requires name in s.rows
  {
    && s.rows[name].retries <= limits.maxRetries
    && (Restorable(s.rows[name]) ==> Starts(s, name) <= s.rows[name].retries + 1 + s.restarts)
  }

  predicate Inv(limits: Limits, s: State) {
    && (forall name :: name in s.tracker ==> FolderOk(limits, s, name))
    && (forall name :: name in s.rows ==> RowOk(limits, s, name))
  }

  lemma RestartKeeps(limits: Limits, s: State, kept: set<string>)
    requires Inv(limits, s)
    ensures Inv(limits, Restarted(s, kept))
  {
    var n := Restarted(s, kept);
    forall name | name in n.tracker ensures FolderOk(limits, n, name) {
      assert RowOk(limits, s, name);
    }
    forall name | name in n.rows ensures RowOk(limits, n, name) {
      assert RowOk(limits, s, name);
    }
  }

  /** Only the folder that a step is about changes. */
  lemma Elsewhere(limits: Limits, s: State, e: Event, name: string)
    requires Inv(limits, s) && Enabled(s, e) && !e.Restart? && name != e.name
    ensures name in Step(limits, s, e).tracker ==> FolderOk(limits, Step(limits, s, e), name)
    ensures name in Step(limits, s, e).rows ==> RowOk(limits, Step(limits, s, e), name)
  {
    assert name in s.tracker ==> FolderOk(limits, s, name);
    assert name in s.rows ==> RowOk(limits, s, name);
  }

  lemma Itself(limits: Limits, s: State, e: Event, name: string)
    requires Inv(limits, s) && Enabled(s, e) && !e.Restart? && name == e.name
    ensures name in Step(limits, s, e).tracker ==> FolderOk(limits, Step(limits, s, e), name)
    ensures name in Step(limits, s, e).rows ==> RowOk(limits, Step(limits, s, e), name)
  {
    assert name in s.tracker ==> FolderOk(limits, s, name);
    assert name in s.rows ==> RowOk(limits, s, name);
  }

  lemma StepKeeps(limits: Limits, s: State, e: Event)
    requires Inv(limits, s)
    ensures Inv(limits, Next(limits, s, e))
  {
    if e.Restart? {
      RestartKeeps(limits, s, e.kept);
    } else if Enabled(s, e) {
      var n := Next(limits, s, e);
      forall name
        ensures name in n.tracker ==> FolderOk(limits, n, name)
        ensures name in n.rows ==> RowOk(limits, n, name) {
        if name == e.name {
          Itself(limits, s, e, name);
        } else {
          Elsewhere(limits, s, e, name);
        }
      }
    }
  }

  lemma {:induction false} EveryRunKeeps(limits: Limits, events: seq<Event>)
    ensures Inv(limits, After(limits, events))
  {
    if events != [] {
      var init, last := events[..|events| - 1], events[|events| - 1];
      EveryRunKeeps(limits, init);
      StepKeeps(limits, After(limits, init), last);
    }
  }

  /** In every run a folder's retries stay within the limit, the queue shows the same
      number, and since it was tracked or last retried by hand it was extracted at most
      once more than it was retried and the process restarted. */
  lemma RetriesBounded(limits: Limits, events: seq<Event>, name: string)
    ensures var s := After(limits, events);
            name in s.tracker ==>
              && s.tracker[name].retries <= limits.maxRetries
              && name in s.shown && s.shown[name] == s.tracker[name].retries
              && Starts(s, name) <= limits.maxRetries + 1 + s.restarts
  {
    EveryRunKeeps(limits, events);
    var s := After(limits, events);
    assert name in s.tracker ==> FolderOk(limits, s, name);
  }

  /** A folder is found and fails, and fails again after each of its retries; time passes by
      the delay between two of them. */
  function Failing(limits: Limits, name: string, retries: nat): seq<Event> {
    if retries == 0 then [Track(name, 0), Queue(name, 0), Began(name, 0), Done(name, Failed, 0)]
    else
      var now := retries * limits.retryDelay;
      Failing(limits, name, retries - 1)
      + [Tick(name, now), Queue(name, now), Began(name, now), Done(name, Failed, now)]
  }

  lemma AfterOne(limits: Limits, init: seq<Event>, last: Event)
    ensures After(limits, init + [last]) == Next(limits, After(limits, init), last)
  {
    assert (init + [last])[..|init|] == init;
  }

  lemma AfterFour(limits: Limits, init: seq<Event>, a: Event, b: Event, c: Event, d: Event)
    ensures After(limits, init + [a, b, c, d])
         == Next(limits, Next(limits, Next(limits, Next(limits, After(limits, init), a), b), c), d)
  {
    AfterOne(limits, init, a);
    AfterOne(limits, init + [a], b);
    AfterOne(limits, init + [a] + [b], c);
    AfterOne(limits, init + [a] + [b] + [c], d);
    assert init + [a, b, c, d] == init + [a] + [b] + [c] + [d];
  }

  /** Queued, begun and failed, a waiting folder has failed once more. */
  lemma WorkFails(limits: Limits, s: State, name: string, now: int)
    requires name in s.tracker && s.tracker[name].status == WAITING
    ensures var n := Next(limits, Next(limits, Next(limits, s, Queue(name, now)), Began(name, now)),
                          Done(name, Failed, now));
            && name in n.tracker && n.tracker[name] == s.tracker[name].(status := EXTRACTFAILED, updated := now)
            && Starts(n, name) == Starts(s, name) + 1 && n.restarts == s.restarts
  {
  }

  lemma TickRetries(limits: Limits, s: State, name: string, now: int)
    requires name in s.tracker && s.tracker[name].status == EXTRACTFAILED && !s.tracker[name].noRetry
    requires s.tracker[name].retries < limits.maxRetries && now - s.tracker[name].updated == limits.retryDelay
    ensures var n := Next(limits, s, Tick(name, now));
            && name in n.tracker && n.tracker[name] == Folder(WAITING, now, s.tracker[name].retries + 1, false)
            && Starts(n, name) == Starts(s, name) && n.restarts == s.restarts
  {
  }

  /** The bound is met: every number of retries up to the limit is reached by a run from the
      start that extracts the folder once more than it retries it. */
  lemma {:induction false} RetriesReached(limits: Limits, name: string, retries: nat)
    requires retries <= limits.maxRetries
    ensures var s := After(limits, Failing(limits, name, retries));
            && name in s.tracker
            && s.tracker[name] == Folder(EXTRACTFAILED, retries * limits.retryDelay, retries, false)
            && Starts(s, name) == retries + 1 && s.restarts == 0
  {
    var now := retries * limits.retryDelay;
    if retries == 0 {
      AfterFour(limits, [], Track(name, 0), Queue(name, 0), Began(name, 0), Done(name, Failed, 0));
      assert [] + Failing(limits, name, 0) == Failing(limits, name, 0);
      WorkFails(limits, Next(limits, Start(), Track(name, 0)), name, 0);
    } else {
      var before := Failing(limits, name, retries - 1);
      RetriesReached(limits, name, retries - 1);
      assert now - (retries - 1) * limits.retryDelay == limits.retryDelay;
      AfterFour(limits, before, Tick(name, now), Queue(name, now), Began(name, now), Done(name, Failed, now));
      TickRetries(limits, After(limits, before), name, now);
      WorkFails(limits, Next(limits, After(limits, before), Tick(name, now)), name, now);
    }
  }

  // ---------------------------------------------------------------- what becomes of a folder

  /** A finished extraction: the folder is extracted exactly when it succeeded, has nothing
      exactly when there was no archive, and has failed otherwise; it may not be retried
      exactly when that was so before or remnants stay and are not to be touched. */
  lemma DoneExactly(limits: Limits, s: State, name: string, report: Report, now: int)
    requires name in s.tracker
    ensures var f, n := s.tracker[name], Next(limits, s, Done(name, report, now));
            name in n.tracker &&
            var after := n.tracker[name];
            && (after.status == EXTRACTED <==> report == Succeeded)
            && (after.status == EXTRACTEDNOTHING <==> report == NoArchives)
            && (after.status == EXTRACTFAILED <==> report !in {Succeeded, NoArchives})
            && (after.noRetry <==> f.noRetry || report == RemnantsRemain(true))
            && after.updated == now && after.retries == f.retries
            && n == s.(tracker := s.tracker[name := after], shown := s.shown[name := after.retries],
                       rows := s.rows[name := after])
  {
  }

  /** A failed folder is given up exactly when it may not be retried or its retries are used
      up; else it starts again exactly when the delay is over. Given up, it leaves the
      tracker and its row says deleted. */
  lemma TickExactly(limits: Limits, s: State, name: string, now: int)
    requires name in s.tracker && s.tracker[name].status == EXTRACTFAILED
    requires name in s.shown && s.shown[name] == s.tracker[name].retries
    ensures var f, n := s.tracker[name], Next(limits, s, Tick(name, now));
            && (name !in n.tracker <==> f.noRetry || f.retries >= limits.maxRetries)
            && (name !in n.tracker ==>
                  n == s.(tracker := s.tracker - {name}, rows := s.rows[name := f.(status := DELETED, updated := now)]))
            && (name in n.tracker ==>
                  if now - f.updated < limits.retryDelay then n == s
                  else
                    var again := Folder(WAITING, now, f.retries + 1, false);
                    n == s.(tracker := s.tracker[name := again], shown := s.shown[name := f.retries + 1],
                            rows := s.rows[name := again]))
  {
    if name !in Next(limits, s, Tick(name, now)).tracker {
      assert s.shown[name := s.tracker[name].retries] == s.shown;
    }
  }

  /** A restart tracks exactly the folders whose row was kept and whose work was not over:
      what was queued waits again, what was going on has failed, and retries stay. */
  lemma RestartExactly(limits: Limits, s: State, kept: set<string>, name: string)
    ensures var n := Next(limits, s, Restart(kept));
            && (name in n.tracker <==> name in s.rows && name in kept
                                       && s.rows[name].status !in {IMPORTED, DELETEFAILED, DELETED})
            && (name in n.tracker ==>
                  var f, back := s.rows[name], n.tracker[name];
                  && (back.status == WAITING <==> f.status in {WAITING, QUEUED})
                  && (back.status == EXTRACTFAILED <==> f.status in {EXTRACTFAILED, EXTRACTING, DELETING})
                  && (back.status == f.status || f.status in {QUEUED, EXTRACTING, DELETING})
                  && back == f.(status := back.status) && name in n.shown && n.shown[name] == f.retries)
            && n.shown.Keys == n.tracker.Keys && n == s.(tracker := n.tracker, shown := n.shown, restarts := n.restarts)
  {
  }

  /** A manual retry starts anew with no retries, exactly when the folder has failed. */
  lemma RetryExactly(limits: Limits, s: State, name: string, now: int)
    ensures var n, again := Next(limits, s, RetryByHand(name, now)), Folder(WAITING, now, 0, false);
            if name in s.tracker && s.tracker[name].status == EXTRACTFAILED
            then n == State(s.tracker[name := again], s.shown[name := 0], s.rows[name := again], s.starts[name := 0],
                            s.restarts)
            else n == s
  {
  }

  /** A folder is tracked once, queued only while it waits, and then recorded as what it is. */
  lemma OthersExactly(limits: Limits, s: State, name: string, now: int)
    ensures var n := Next(limits, s, Track(name, now));
            if name in s.tracker then n == s
            else n == State(s.tracker[name := Folder(WAITING, now, 0, false)], s.shown[name := 0], s.rows,
                            s.starts[name := 0], s.restarts)
    ensures var n := Next(limits, s, Queue(name, now));
            if name in s.tracker && s.tracker[name].status == WAITING then
              var f := Folder(QUEUED, now, s.tracker[name].retries, s.tracker[name].noRetry);
              && n.tracker == s.tracker[name := f] && n.rows == s.rows[name := f]
              && n.shown == s.shown[name := f.retries] && n.restarts == s.restarts
            else n == s
    ensures name in s.tracker ==>
              var f := Folder(EXTRACTING, now, s.tracker[name].retries, s.tracker[name].noRetry);
              Next(limits, s, Began(name, now))
              == State(s.tracker[name := f], s.shown[name := f.retries], s.rows[name := f], s.starts, s.restarts)
    ensures name in s.tracker ==>
              Next(limits, s, Gone(name)) == State(s.tracker - {name}, s.shown - {name}, s.rows, s.starts, s.restarts)
  {
  }

  /** The extractions counted are those that were queued since the folder was tracked or
      last retried by hand. */
  lemma StartsExactly(limits: Limits, s: State, e: Event, name: string)
    ensures Starts(Next(limits, s, e), name)
         == if e.Queue? && e.name == name && name in s.tracker && s.tracker[name].status == WAITING
            then Starts(s, name) + 1
            else if e.Track? && e.name == name && name !in s.tracker then 0
            else if e.RetryByHand? && e.name == name && name in s.tracker && s.tracker[name].status == EXTRACTFAILED
            then 0
            else Starts(s, name)
    ensures Next(limits, s, e).restarts == s.restarts + if e.Restart? then 1 else 0
  {
  }

  // ---------------------------------------------------------------- the object

  class FolderTracker {
    const limits: Limits
    var folders: map<string, Folder>
    var shown: map<string, nat>
    var rows: map<string, Folder>
    ghost var starts: map<string, nat>
    ghost var restarts: nat

    ghost function View(): State
      reads this
    {
      State(folders, shown, rows, starts, restarts)
    }

    constructor (limits: Limits)
      ensures View() == Start() && this.limits == limits
    {
      this.limits := limits;
      folders, shown, rows, starts, restarts := map[], map[], map[], map[], 0;
    }

    method UpdateQueueStatus(name: string, f: Folder)
      modifies `folders, `shown, `rows
      ensures View() == Put(old(View()), name, f)
    {
      folders := folders[name := f];
      shown := shown[name := f.retries];
      rows := rows[name := f];
    }

    method GiveUp(name: string, now: int)
      requires name in folders
      modifies `folders, `shown, `rows
      ensures View() == GivenUp(old(View()), name, now)
    {
      shown := shown[name := folders[name].retries];
      rows := rows[name := folders[name].(status := DELETED, updated := now)];
      folders := folders - {name};
    }

    method CheckFailedFolder(name: string, now: int)
      requires Enabled(View(), Tick(name, now))
      modifies this
      ensures View() == Step(limits, old(View()), Tick(name, now))
    {
      var folder := folders[name];
      if folder.noRetry {
        GiveUp(name, now);
      } else if now - folder.updated >= limits.retryDelay && folder.retries < limits.maxRetries {
        UpdateQueueStatus(name, folder.(retries := folder.retries + 1, updated := now, status := WAITING));
      } else if folder.retries < limits.maxRetries {
        return;
      } else {
        GiveUp(name, now);
      }
    }

    method FolderDone(name: string, report: Report, now: int)
      requires Enabled(View(), Done(name, report, now))
      modifies this
      ensures View() == Step(limits, old(View()), Done(name, report, now))
    {
      var folder := folders[name].(updated := now);
      match report {
        case NoArchives => UpdateQueueStatus(name, folder.(status := EXTRACTEDNOTHING));
        case Succeeded => UpdateQueueStatus(name, folder.(status := EXTRACTED));
        case RemnantsRemain(off) =>
          if off {
            folder := folder.(noRetry := true);
          }
          UpdateQueueStatus(name, folder.(status := EXTRACTFAILED));
        case _ => UpdateQueueStatus(name, folder.(status := EXTRACTFAILED));
      }
    }

    method RetryFolder(name: string, now: int)
      requires Enabled(View(), RetryByHand(name, now))
      modifies this
      ensures View() == Step(limits, old(View()), RetryByHand(name, now))
    {
      UpdateQueueStatus(name, folders[name].(status := WAITING, noRetry := false, retries := 0, updated := now));
      starts := starts[name := 0];
    }
  }
}
