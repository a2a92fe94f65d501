/** The life of a Starr download: pkg/unpackerr/handlers.go, starrpoll.go,
    queue_actions.go, historyrestore.go, configput.go and configclone.go.

    Polls, queue checks, cleaner ticks, callbacks of the extractor, user actions, config
    changes and restarts are steps that may come in any order. Times are whole seconds. */
module Lifecycle {

  import opened HistoryLog

  /** Unknown: a row of an earlier version did not say, and no configured url tells. */
  datatype App = Lidarr | Radarr | Readarr | Sonarr | Unknown

  /** What an instance may be configured for. */
  type KnownApp = app: App | app != Unknown witness Lidarr

  const RESTORE_AGE: int := 72 * 3600
  const STALE_ITEM_TIMEOUT: int := 24 * 3600
  const DEFAULT_MAX_RETRIES: nat := 2

  /** One entry of u.Map. `files` counts the extracted files that are known; `byHand`, for the
      record, the retries a user asked for. */
  datatype Extract = Extract(
    app: App,
    url: string,
    status: Status,
    updated: int,
    deleteDelay: int,
    deleteOrig: bool,
    files: nat,
    retries: nat,
    noRetry: bool,
    byHand: nat)

  /** A record of a Starr queue. */
  datatype Record = Record(title: string, complete: bool)

  /** A configured Starr instance, and the queue of its last good poll in this process. */
  datatype Instance = Instance(
    app: KnownApp,
    url: string,
    key: string,
    deleteDelay: int,
    deleteOrig: bool,
    polled: bool,
    queue: seq<Record>)

  datatype HistoryRow = HistoryRow(item: Extract, forgotten: bool)

  datatype Settings = Settings(maxRetries: nat, retryDelay: int, deleteDelay: int, keepHistory: nat)

  /** A good poll, for the record. */
  datatype Poll = Poll(app: App, url: string, key: string, queue: seq<Record>)

  /** Files of an item were queued for deletion, and what was known then. */
  datatype Deletion = Deletion(title: string, item: Extract, now: int, instances: seq<Instance>, polls: set<Poll>)

  /** `rows` is the last written history row of every title still in the file, `kept` the
      titles whose row is in memory. polls (of this process), imports and deletions are for
      the record. */
  datatype State = State(
    items: map<string, Extract>,
    forgotten: set<string>,
    instances: seq<Instance>,
    rows: map<string, HistoryRow>,
    kept: set<string>,
    polls: set<Poll>,
    imports: set<(string, int)>,
    deletions: set<Deletion>)

  function Start(): State {
    State(map[], {}, [], map[], {}, {}, {}, {})
  }

  function MaxRetries(cfg: Settings): nat {
    if cfg.maxRetries == 0 then DEFAULT_MAX_RETRIES else cfg.maxRetries
  }

  function Rank(status: Status): nat {
    match status
    case WAITING => 0
    case QUEUED => 1
    case EXTRACTING => 2
    case EXTRACTFAILED => 3
    case EXTRACTED => 4
    case IMPORTED => 5
    case DELETING => 6
    case DELETEFAILED => 7
    case DELETED => 8
    case EXTRACTEDNOTHING => 9
  }

  // ---------------------------------------------------------------- what the queues say

  predicate HasTitle(queue: seq<Record>, title: string) {
    exists i :: 0 <= i < |queue| && queue[i].title == title
  }

  predicate HaveQueueItem(instances: seq<Instance>, app: App, title: string) {
    app != Unknown && exists i :: 0 <= i < |instances| && instances[i].app == app && HasTitle(instances[i].queue, title)
  }

  predicate IsInstance(inst: Instance, app: App, url: string) {
    inst.app == app && inst.url == url
  }

  /** The first instance of an app with this url, -1 when there is none. */
  function FirstWithUrl(instances: seq<Instance>, app: App, url: string): (i: int)
    ensures i == -1 || (0 <= i < |instances| && IsInstance(instances[i], app, url))
    ensures i == -1 ==> forall k :: 0 <= k < |instances| ==> !IsInstance(instances[k], app, url)
  {
    if instances == [] then -1
    else if IsInstance(instances[0], app, url) then 0
    else
      var i := FirstWithUrl(instances[1..], app, url);
      assert forall k :: 1 <= k < |instances| ==> instances[k] == instances[1..][k - 1];
      if i < 0 then -1 else i + 1
  }

  predicate AllPolled(instances: seq<Instance>, app: App) {
    forall i :: 0 <= i < |instances| && instances[i].app == app ==> instances[i].polled
  }

  /** Whether "not in the queue" may be believed. */
  predicate SnapshotReady(instances: seq<Instance>, item: Extract) {
    if item.app == Unknown then true
    else if item.url != "" then
      var i := FirstWithUrl(instances, item.app, item.url);
      i < 0 || instances[i].polled
    else AllPolled(instances, item.app)
  }

  predicate AllSnapshotsReady(instances: seq<Instance>) {
    forall i :: 0 <= i < |instances| ==> instances[i].polled
  }

  predicate Held(instances: seq<Instance>, title: string) {
    exists i :: 0 <= i < |instances| && HasTitle(instances[i].queue, title)
  }

  // ---------------------------------------------------------------- what a check makes of one item

  /** What happens to an item: it leaves the map, or stays as `item`, perhaps with a
      history row written and its files queued for deletion. */
  datatype Fate = Drop | Stay(item: Extract, recorded: bool, deleted: bool)

  function Same(item: Extract): Fate {
    Stay(item, false, false)
  }

  /** updateQueueStatus: a new status is recorded. */
  function Recorded(item: Extract, status: Status, now: int): Fate {
    Stay(item.(status := status, updated := now), true, false)
  }

  /** checkQueueChanges, for one item. */
  function AfterQueueChange(instances: seq<Instance>, title: string, item: Extract, now: int): Fate {
    if !HaveQueueItem(instances, item.app, title) then
      if !SnapshotReady(instances, item) then Same(item)
      else if item.status == WAITING then Drop
      else if Rank(item.status) >= Rank(IMPORTED) then Same(item)
      else Recorded(item, IMPORTED, now)
    else if item.status == IMPORTED then Same(item.(status := EXTRACTED))
    else if Rank(item.status) > Rank(IMPORTED) then Same(item.(status := WAITING, updated := now))
    else Same(item)
  }

  predicate DeletesFiles(item: Extract) {
    item.deleteOrig || (item.files > 0 && item.deleteDelay >= 0)
  }

  /** checkExtractDone, for one item. */
  function AfterCleaner(cfg: Settings, instances: seq<Instance>, title: string, item: Extract, now: int): Fate {
    var elapsed := now - item.updated;
    if item.status == DELETED && elapsed >= item.deleteDelay then Drop
    else if item.status == EXTRACTFAILED && item.noRetry then Same(item)
    else if item.status == EXTRACTFAILED && elapsed >= cfg.retryDelay && item.retries < MaxRetries(cfg) then
      Same(item.(retries := item.retries + 1, status := WAITING, updated := now))
    else if item.status == EXTRACTFAILED && item.retries >= MaxRetries(cfg) then
      Recorded(item.(noRetry := true), EXTRACTFAILED, now)
    else if (item.status == EXTRACTED || item.status == EXTRACTING || item.status == QUEUED)
            && elapsed >= STALE_ITEM_TIMEOUT then
      Recorded(item, DELETED, now)
    else if item.status == IMPORTED && elapsed >= item.deleteDelay then
      if !SnapshotReady(instances, item) || HaveQueueItem(instances, item.app, title) then Same(item)
      else Stay(item.(status := DELETED, updated := now), true, DeletesFiles(item))
    else Same(item)
  }

  /** What the extractor reports of an item, with what handleRemnants made of it. Every
      report brings its own list of files. */
  datatype Stage =
    | Began
    | RemnantsCleared
    | RemnantsRemain(off: bool)
    | Failed(limit: bool)
    | Succeeded

  datatype Report = Report(stage: Stage, files: nat)

  /** handleXtractrCallback, for the item it is about. */
  function AfterCallback(before: Extract, report: Report, now: int): Fate {
    var item := before.(files := report.files);
    match report.stage
    case Began => Recorded(item, EXTRACTING, now)
    case RemnantsCleared => Same(item.(retries := item.retries + 1, status := WAITING, updated := now))
    case RemnantsRemain(off) => Recorded(item.(noRetry := item.noRetry || off), EXTRACTFAILED, now)
    case Failed(limit) => Recorded(item.(noRetry := item.noRetry || limit), EXTRACTFAILED, now)
    case Succeeded => Recorded(item, EXTRACTED, now)
  }

  predicate Writes(fate: Fate) {
    fate.Stay? && fate.recorded
  }

  function NewRow(item: Extract): HistoryRow {
    HistoryRow(item, false)
  }

  function RowsFrom(fates: map<string, Fate>): map<string, HistoryRow> {
    map t | t in fates && Writes(fates[t]) :: NewRow(fates[t].item)
  }

  function ImportsOf(fates: map<string, Fate>): set<(string, int)> {
    set t | t in fates && Writes(fates[t]) && fates[t].item.status == IMPORTED :: (t, fates[t].item.updated)
  }

  function DeletionsOf(s: State, fates: map<string, Fate>, now: int): set<Deletion>
    requires fates.Keys <= s.items.Keys
  {
    set t | t in fates && fates[t].Stay? && fates[t].deleted :: Deletion(t, s.items[t], now, s.instances, s.polls)
  }

  /** Every item with a fate met it; the others stay as they are. */
  function ItemsAfter(items: map<string, Extract>, fates: map<string, Fate>): map<string, Extract> {
    map t | t in items && (t in fates ==> fates[t].Stay?) :: if t in fates then fates[t].item else items[t]
  }

  function WithFates(s: State, fates: map<string, Fate>, now: int): State
    requires fates.Keys <= s.items.Keys
  {
    s.(items := ItemsAfter(s.items, fates),
       rows := s.rows + RowsFrom(fates),
       kept := s.kept + RowsFrom(fates).Keys,
       imports := s.imports + ImportsOf(fates),
       deletions := s.deletions + DeletionsOf(s, fates, now))
  }

  /** One item met its fate. */
  function FateOn(s: State, t: string, fate: Fate, now: int): State
    requires t in s.items
  {
    match fate
    case Drop => s.(items := s.items - {t})
    case Stay(item, recorded, deleted) =>
      s.(items := s.items[t := item],
         rows := if recorded then s.rows[t := NewRow(item)] else s.rows,
         kept := if recorded then s.kept + {t} else s.kept,
         imports := if recorded && item.status == IMPORTED then s.imports + {(t, item.updated)} else s.imports,
         deletions := if deleted then s.deletions + {Deletion(t, s.items[t], now, s.instances, s.polls)}
                      else s.deletions)
  }

  // ---------------------------------------------------------------- polls and new items

  function NewItem(inst: Instance, now: int): Extract {
    Extract(inst.app, inst.url, WAITING, now, inst.deleteDelay, inst.deleteOrig, 0, 0, false, 0)
  }

  /** checkStarrQueue, for the records of one instance. */
  function WithRecords(items: map<string, Extract>, forgotten: set<string>, inst: Instance, recs: seq<Record>, now: int)
    : map<string, Extract>
  {
    if recs == [] then items
    else
      var before := WithRecords(items, forgotten, inst, recs[..|recs| - 1], now);
      var last := recs[|recs| - 1];
      if last.title !in before && last.complete && last.title !in forgotten
      then before[last.title := NewItem(inst, now)] else before
  }

  function WithInstances(items: map<string, Extract>, forgotten: set<string>, instances: seq<Instance>, now: int)
    : map<string, Extract>
  {
    if instances == [] then items
    else
      var last := instances[|instances| - 1];
      WithRecords(WithInstances(items, forgotten, instances[..|instances| - 1], now), forgotten, last, last.queue, now)
  }

  // ---------------------------------------------------------------- config changes

  predicate SameIdentity(a: Instance, b: Instance) {
    a.app == b.app && a.url == b.url && a.key == b.key
  }

  /** takeQueue: inst with the poll of an instance that was there. */
  function TakeQueue(was: Instance, inst: Instance): Instance {
    inst.(polled := was.polled, queue := was.queue)
  }

  /** inst has the poll of some instance with its app, url and key, or none when there was
      no such instance. */
  predicate Carried(prev: seq<Instance>, inst: Instance) {
    if exists i :: 0 <= i < |prev| && SameIdentity(prev[i], inst)
    then exists i :: 0 <= i < |prev| && SameIdentity(prev[i], inst) && inst == TakeQueue(prev[i], inst)
    else !inst.polled && inst.queue == []
  }

  // ---------------------------------------------------------------- restarts

  function RestoreStatus(status: Status): (r: Status)
  {
    match status
    case QUEUED => WAITING
    case EXTRACTING => EXTRACTFAILED
    case DELETING => EXTRACTFAILED
    case DELETEFAILED => IMPORTED
    case _ => status
  }

  predicate StarrStatus(status: Status) {
    status !in {DELETING, DELETEFAILED, EXTRACTEDNOTHING}
  }

  /** kindFromURL. */
  function KindFromUrl(instances: seq<Instance>, url: string): App {
    if url == "" then Unknown
    else if FirstWithUrl(instances, Sonarr, url) >= 0 then Sonarr
    else if FirstWithUrl(instances, Radarr, url) >= 0 then Radarr
    else if FirstWithUrl(instances, Lidarr, url) >= 0 then Lidarr
    else if FirstWithUrl(instances, Readarr, url) >= 0 then Readarr
    else Unknown
  }

  function KindOf(instances: seq<Instance>, item: Extract): App {
    if item.app != Unknown then item.app else KindFromUrl(instances, item.url)
  }

  predicate NeedsKind(status: Status) {
    status == EXTRACTED || status == WAITING || status == EXTRACTFAILED
  }

  /** historyRestoreGate, for a row that is not forgotten. */
  predicate Restorable(instances: seq<Instance>, row: HistoryRow, now: int) {
    && !row.forgotten && row.item.updated >= now - RESTORE_AGE
    && row.item.status != DELETED && row.item.status != WAITING
    && !(NeedsKind(RestoreStatus(row.item.status)) && KindOf(instances, row.item) == Unknown)
  }

  function Restored(cfg: Settings, instances: seq<Instance>, item: Extract, now: int): Extract {
    var status := RestoreStatus(item.status);
    var clock :=
      if status == EXTRACTED || status == WAITING then now
      else if status == EXTRACTFAILED && !item.noRetry && (item.status == EXTRACTING || item.status == DELETING)
      then now - cfg.retryDelay
      else item.updated;
    item.(app := KindOf(instances, item), status := status, updated := clock,
          deleteDelay := if item.deleteDelay == 0 then cfg.deleteDelay else item.deleteDelay)
  }

  // ---------------------------------------------------------------- the steps

  datatype Event =
    | PollOk(i: nat, queue: seq<Record>)
    | PollFailed(i: nat)
    | CheckQueues(now: int)
    | QueueChanges(now: int)
    | Cleaner(now: int)
    | StartExtract(title: string, now: int)
    | Callback(title: string, report: Report, now: int)
    | Retry(title: string, now: int)
    | Forget(title: string)
    | Sweep
    | ConfigPut(next: seq<Instance>)
    | Trim(title: string)
    | DeleteRow(title: string)
    | ClearHistory
    | Restart(loaded: set<string>, next: seq<Instance>, now: int)
    | OldRow(title: string, item: Extract)

  predicate RowIsDurable(s: State, title: string) {
    title in s.rows && IsDurable(s.rows[title].item.status)
  }

  function DurableTitles(s: State, titles: set<string>): set<string> {
    set t | t in titles && RowIsDurable(s, t)
  }

  /** What the program's own guards, the extractor and the history log allow. Rows are
      trimmed when more are durable than are to be kept; a reload brings at least the rows
      in memory, and besides them only durable ones that fit. Before anything is configured
      the history may hold rows of an earlier version, which may not name their app. */
  predicate Enabled(cfg: Settings, s: State, e: Event) {
    match e
    case PollOk(i, _) => i < |s.instances|
    case PollFailed(i) => i < |s.instances|
    case StartExtract(title, _) =>
      title in s.items && s.items[title].status == WAITING && SnapshotReady(s.instances, s.items[title])
    case Callback(title, report, _) =>
      title in s.items && (report.stage == RemnantsCleared ==> s.items[title].retries < MaxRetries(cfg))
    case Retry(title, _) => title in s.items && s.items[title].status == EXTRACTFAILED
    case Forget(title) => title in s.items && IsDurable(s.items[title].status)
    case Sweep => AllSnapshotsReady(s.instances)
    case ConfigPut(next) => forall i :: 0 <= i < |next| ==> Carried(s.instances, next[i])
    case Trim(title) => title in DurableTitles(s, s.kept) && |DurableTitles(s, s.kept)| > cfg.keepHistory
    case DeleteRow(title) => title in s.kept && RowIsDurable(s, title)
    case Restart(loaded, _, _) =>
      && s.kept <= loaded <= s.rows.Keys && (forall t :: t in loaded && t !in s.kept ==> RowIsDurable(s, t))
      && (loaded == s.kept || |DurableTitles(s, loaded)| <= cfg.keepHistory)
    case OldRow(title, item) =>
      && title !in s.rows && s.items == map[] && s.instances == []
      && StarrStatus(item.status) && item.retries <= item.byHand
    case _ => true
  }

  /** forgetQueueID: the row is flagged when it is still in memory. */
  function Forgotten(s: State, title: string): State {
    var flagged :=
      if title in s.kept && title in s.rows then s.rows[title := s.rows[title].(forgotten := true)] else s.rows;
    s.(items := s.items - {title}, forgotten := s.forgotten + {title}, rows := flagged)
  }

  function Polled(s: State, i: nat, queue: seq<Record>): State
    requires i < |s.instances|
  {
    var inst := s.instances[i].(polled := true, queue := queue);
    s.(instances := s.instances[i := inst], polls := s.polls + {Poll(inst.app, inst.url, inst.key, queue)})
  }

  function Unpolled(next: seq<Instance>): seq<Instance> {
    seq(|next|, i requires 0 <= i < |next| => next[i].(polled := false, queue := []))
  }

  function Restarted(cfg: Settings, s: State, loaded: set<string>, next: seq<Instance>, now: int): State {
    s.(items := (map t | t in loaded && t in s.rows && Restorable(next, s.rows[t], now)
                 :: Restored(cfg, next, s.rows[t].item, now)),
       forgotten := (set t | t in loaded && t in s.rows && s.rows[t].forgotten),
       instances := Unpolled(next),
       rows := (map t | t in loaded && t in s.rows :: s.rows[t]),
       kept := (set t | t in loaded && t in s.rows),
       polls := {})
  }

  function QueueFates(s: State, now: int): map<string, Fate> {
    map t | t in s.items :: AfterQueueChange(s.instances, t, s.items[t], now)
  }

  function CleanerFates(cfg: Settings, s: State, now: int): map<string, Fate> {
    map t | t in s.items :: AfterCleaner(cfg, s.instances, t, s.items[t], now)
  }

  /** retryQueueID. */
  function RetriedByHand(item: Extract, now: int): Extract {
    item.(retries := item.retries + 1, byHand := item.byHand + 1, noRetry := false, status := WAITING, updated := now)
  }

  /** The file is written again from the rows in memory, some of them gone. */
  function WithoutRows(s: State, titles: set<string>): State {
    s.(rows := (map t | t in s.rows && t in s.kept && t !in titles :: s.rows[t]), kept := s.kept - titles)
  }

  function Step(cfg: Settings, s: State, e: Event): State
    requires Enabled(cfg, s, e)
  {
    match e
    case PollOk(i, queue) => Polled(s, i, queue)
    case PollFailed(i) => s
    case CheckQueues(now) => s.(items := WithInstances(s.items, s.forgotten, s.instances, now))
    case QueueChanges(now) => WithFates(s, QueueFates(s, now), now)
    case Cleaner(now) => WithFates(s, CleanerFates(cfg, s, now), now)
    case StartExtract(title, now) => FateOn(s, title, Recorded(s.items[title], QUEUED, now), now)
    case Callback(title, report, now) => FateOn(s, title, AfterCallback(s.items[title], report, now), now)
    case Retry(title, now) => s.(items := s.items[title := RetriedByHand(s.items[title], now)])
    case Forget(title) => Forgotten(s, title)
    case Sweep => s.(forgotten := set t | t in s.forgotten && Held(s.instances, t))
    case ConfigPut(next) => s.(instances := next)
    case Trim(title) => s.(kept := s.kept - {title})
    case DeleteRow(title) => WithoutRows(s, {title})
    case ClearHistory => WithoutRows(s, set t | t in s.rows && RowIsDurable(s, t))
    case Restart(loaded, next, now) => Restarted(cfg, s, loaded, next, now)
    case OldRow(title, item) =>
      s.(rows := s.rows[title := NewRow(item)], kept := s.kept + {title},
         imports := if item.status == IMPORTED then s.imports + {(title, item.updated)} else s.imports)
  }

  /** A step that is not enabled does not happen. */
  function Next(cfg: Settings, s: State, e: Event): State {
    if Enabled(cfg, s, e) then Step(cfg, s, e) else s
  }

  /** The state after some steps, restarts included. */
  function From(cfg: Settings, s: State, events: seq<Event>): State {
    if events == [] then s else Next(cfg, From(cfg, s, events[..|events| - 1]), events[|events| - 1])
  }

  /** The state after a run of the program. */
  function After(cfg: Settings, events: seq<Event>): State {
    From(cfg, Start(), events)
  }
}
