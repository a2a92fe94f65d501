/** The main loop and its workers, as interleaved steps: pkg/unpackerr/history.go,
    webhook.go, start.go, restart.go and pkg/hooks/worker.go.

    The main loop queues hooks while it holds the history lock, sends them to the hook
    worker after it let go, applies what the worker reported, and restarts the process
    when idle. The hook worker and the delete worker run beside it. Every step below is
    one that cannot be seen half done by the other threads. */
module HookProtocol {

  import opened HookCache
  import opened Sequences

  const QUEUE_CAP: nat := 100

  // ---------------------------------------------------------------- the state

  /** A hook queued under the lock; `silent` when nothing is to be sent for it. */
  datatype Hook = Hook(itemId: string, live: Extract, slugs: seq<string>, silent: bool)

  datatype Delivery = Delivery(itemId: string, slug: string, live: Extract)

  /** Where the main loop is. Flushing: it sends the hooks of one locked section, and
      `counted` says that the next one is counted but not yet in the queue. Recording and
      Saving: it applies a list it took. SawCount, SawFails, SawSaves: how far the idle
      check has got. */
  datatype Main =
    | Free
    | Section
    | Flushing(hooks: seq<Hook>, sends: seq<Delivery>, counted: bool)
    | Recording(fails: seq<string>, restart: bool)
    | Saving(saves: seq<Save>, restart: bool)
    | SawCount
    | SawFails
    | SawSaves
    | Restarting

  datatype Worker = Waiting | Running(d: Delivery)

  /** The extracts and their message ids. `owner`, `initial` and `seeded` are for the
      record: the title each extract was made for, the ids it started with, and whether
      its cache entry was ever made. */
  datatype Book = Book(
    items: map<string, Extract>,
    msgs: map<Extract, Messages>,
    cache: Cache,
    next: Extract,
    owner: map<Extract, string>,
    initial: map<Extract, Messages>,
    seeded: set<Extract>)

  /** The hooks and deletes; `issued` and `finished` are for the record. */
  datatype Lane = Lane(
    pending: seq<Hook>,
    queue: seq<Delivery>,
    inFlight: int,
    deletes: nat,
    issued: seq<Delivery>,
    finished: seq<Delivery>)

  /** What the worker reported; all but `saves` and `fails` is for the record: `made` has every
      id that a delivery wanted stored, `stored` those that the cache took. */
  datatype Ledger = Ledger(
    saves: seq<Save>,
    fails: seq<string>,
    reported: seq<string>,
    recorded: seq<string>,
    made: seq<Save>,
    stored: seq<Save>,
    applied: seq<Save>)

  datatype Sys = Sys(book: Book, lane: Lane, log: Ledger, main: Main, worker: Worker)

  function Start(): Sys {
    Sys(Book(map[], map[], map[], 0, map[], map[], {}), Lane([], [], 0, 0, [], []), Ledger([], [], [], [], [], [], []),
        Free, Waiting)
  }

  function Deliveries(h: Hook): seq<Delivery> {
    if h.silent then [] else seq(|h.slugs|, i requires 0 <= i < |h.slugs| => Delivery(h.itemId, h.slugs[i], h.live))
  }

  function AllDeliveries(hooks: seq<Hook>): seq<Delivery> {
    if hooks == [] then [] else Deliveries(hooks[0]) + AllDeliveries(hooks[1..])
  }

  // ---------------------------------------------------------------- a locked section

  datatype LockedStep =
    | Lock
    | Create(itemId: string, restored: Messages)
    | Delete(itemId: string)
    | QueueHook(itemId: string, slugs: seq<string>, silent: bool)
    | QueueDelete
    | Unlock

  predicate LockedEnabled(s: Sys, e: LockedStep) {
    match e
    case Lock => s.main == Free
    case Create(id, _) => s.main == Section && id != "" && id !in s.book.items
    case Delete(id) => s.main == Section && id in s.book.items && forall h :: h in s.lane.pending ==> h.itemId != id
    case QueueHook(id, _, _) => s.main == Section && id in s.book.items
    case _ => s.main == Section
  }

  function Created(b: Book, id: string, restored: Messages): Book {
    b.(items := b.items[id := b.next], msgs := b.msgs[b.next := restored], initial := b.initial[b.next := restored],
       owner := b.owner[b.next := id], next := b.next + 1)
  }

  /** deleteExtract: the extract leaves the map and its cache entry goes with it. */
  function Forgotten(b: Book, id: string): Book
    requires id in b.items
  {
    b.(items := b.items - {id}, cache := Dropped(b.cache, id, b.items[id]))
  }

  function Queued(l: Lane, h: Hook): Lane {
    l.(pending := l.pending + [h], issued := l.issued + Deliveries(h))
  }

  function LockedNext(s: Sys, e: LockedStep): Sys
    requires LockedEnabled(s, e)
  {
    match e
    case Lock => s.(main := Section)
    case Create(id, restored) => s.(book := Created(s.book, id, restored))
    case Delete(id) => s.(book := Forgotten(s.book, id))
    case QueueHook(id, slugs, silent) => s.(lane := Queued(s.lane, Hook(id, s.book.items[id], slugs, silent)))
    case QueueDelete => s.(lane := s.lane.(inFlight := s.lane.inFlight + 1, deletes := s.lane.deletes + 1))
    case Unlock => s.(main := Flushing(s.lane.pending, [], false), lane := s.lane.(pending := []))
  }

  // ---------------------------------------------------------------- sending the hooks

  datatype FlushStep = SeedNext | CountSend | Send | FlushDone

  predicate FlushEnabled(s: Sys, e: FlushStep) {
    s.main.Flushing? &&
    match e
    case SeedNext => s.main.sends == [] && s.main.hooks != []
    case CountSend => s.main.sends != [] && !s.main.counted
    case Send => s.main.sends != [] && s.main.counted && |s.lane.queue| < QUEUE_CAP
    case FlushDone => s.main.sends == [] && s.main.hooks == []
  }

  /** seedHookMessages, before the first delivery of a hook is sent. */
  function SeededFor(b: Book, h: Hook): Book {
    if h.silent || h.live !in b.msgs then b
    else b.(cache := Seeded(b.cache, h.itemId, b.msgs[h.live], h.live), seeded := b.seeded + {h.live})
  }

  function FlushNext(s: Sys, e: FlushStep): Sys
    requires FlushEnabled(s, e)
  {
    match e
    case SeedNext =>
      s.(main := Flushing(s.main.hooks[1..], Deliveries(s.main.hooks[0]), false),
         book := SeededFor(s.book, s.main.hooks[0]))
    case CountSend => s.(main := s.main.(counted := true), lane := s.lane.(inFlight := s.lane.inFlight + 1))
    case Send =>
      s.(main := s.main.(sends := s.main.sends[1..], counted := false),
         lane := s.lane.(queue := s.lane.queue + [s.main.sends[0]]))
    case FlushDone => s.(main := Free)
  }

  // ---------------------------------------------------------------- applying what was reported

  datatype DrainStep = TakeFails(restart: bool) | RecordOne | RecordDone | TakeSaves | SaveOne | SaveDone

  predicate DrainEnabled(s: Sys, e: DrainStep) {
    match e
    case TakeFails(_) => s.main == Free
    case RecordOne => s.main.Recording? && s.main.fails != []
    case RecordDone => s.main.Recording? && s.main.fails == []
    case TakeSaves => s.main == Free
    case SaveOne => s.main.Saving? && s.main.saves != []
    case SaveDone => s.main.Saving? && s.main.saves == [] && !s.main.restart
  }

  /** saveHookMessage: the id goes to the extract it was sent for, if that is still there. */
  function SavedTo(b: Book, save: Save): Book {
    if save.itemId in b.items && b.items[save.itemId] == save.live && save.live in b.msgs
    then b.(msgs := b.msgs[save.live := b.msgs[save.live][save.key := save.msg]])
    else b
  }

  function DrainNext(s: Sys, e: DrainStep): Sys
    requires DrainEnabled(s, e)
  {
    match e
    case TakeFails(restart) => s.(main := Recording(s.log.fails, restart), log := s.log.(fails := []))
    case RecordOne =>
      s.(main := s.main.(fails := s.main.fails[1..]), log := s.log.(recorded := s.log.recorded + [s.main.fails[0]]))
    case RecordDone =>
      if s.main.restart then s.(main := Saving(s.log.saves, true), log := s.log.(saves := [])) else s.(main := Free)
    case TakeSaves => s.(main := Saving(s.log.saves, false), log := s.log.(saves := []))
    case SaveOne =>
      s.(main := s.main.(saves := s.main.saves[1..]), log := s.log.(applied := s.log.applied + [s.main.saves[0]]),
         book := SavedTo(s.book, s.main.saves[0]))
    case SaveDone => s.(main := Free)
  }

  // ---------------------------------------------------------------- the idle check

  datatype IdleStep = ReadCount | ReadFails | ReadSaves | ReadRest(quiet: bool)

  predicate IdleEnabled(s: Sys, e: IdleStep) {
    match e
    case ReadCount => s.main.Saving? && s.main.saves == [] && s.main.restart
    case ReadFails => s.main == SawCount
    case ReadSaves => s.main == SawFails
    case ReadRest(_) => s.main == SawSaves
  }

  function IdleNext(s: Sys, e: IdleStep): Sys
    requires IdleEnabled(s, e)
  {
    match e
    case ReadCount => s.(main := if s.lane.inFlight > 0 then Free else SawCount)
    case ReadFails => s.(main := if s.log.fails != [] then Free else SawFails)
    case ReadSaves => s.(main := if s.log.saves != [] then Free else SawSaves)
    case ReadRest(quiet) => s.(main := if quiet then Restarting else Free)
  }

  // ---------------------------------------------------------------- the workers

  datatype WorkStep = Take | Store(msg: string) | Fail | Finish | DeleteDone

  predicate WorkEnabled(s: Sys, e: WorkStep) {
    match e
    case Take => s.worker == Waiting && s.lane.queue != []
    case DeleteDone => s.lane.deletes > 0
    case _ => s.worker.Running?
  }

  function SaveOf(d: Delivery, msg: string): Save {
    Save(d.itemId, d.slug, msg, d.live)
  }

  /** Any number of stores and failures between Take and Finish: a delivery may save an id
      and still fail, and a command may fail after it. */
  function WorkNext(s: Sys, e: WorkStep): Sys
    requires WorkEnabled(s, e)
  {
    match e
    case Take => s.(worker := Running(s.lane.queue[0]), lane := s.lane.(queue := s.lane.queue[1..]))
    case Store(msg) =>
      var save := SaveOf(s.worker.d, msg);
      if Accepts(s.book.cache, save)
      then s.(book := s.book.(cache := Stored(s.book.cache, save)),
              log := s.log.(saves := s.log.saves + [save], made := s.log.made + [save],
                            stored := s.log.stored + [save]))
      else s.(log := s.log.(made := s.log.made + [save]))
    case Fail =>
      var id := s.worker.d.itemId;
      s.(log := s.log.(fails := s.log.fails + [id], reported := s.log.reported + [id]))
    case Finish =>
      s.(worker := Waiting,
         lane := s.lane.(inFlight := s.lane.inFlight - 1, finished := s.lane.finished + [s.worker.d]))
    case DeleteDone => s.(lane := s.lane.(inFlight := s.lane.inFlight - 1, deletes := s.lane.deletes - 1))
  }

  // ---------------------------------------------------------------- runs

  datatype Event =
    | Locked(locked: LockedStep)
    | Flush(flush: FlushStep)
    | Drain(drain: DrainStep)
    | CheckIdle(idle: IdleStep)
    | Work(work: WorkStep)

  predicate Enabled(s: Sys, e: Event) {
    match e
    case Locked(step) => LockedEnabled(s, step)
    case Flush(step) => FlushEnabled(s, step)
    case Drain(step) => DrainEnabled(s, step)
    case CheckIdle(step) => IdleEnabled(s, step)
    case Work(step) => WorkEnabled(s, step)
  }

  /** A step that is not enabled does not happen. */
  function Next(s: Sys, e: Event): Sys {
    if !Enabled(s, e) then s
    else
      match e
      case Locked(step) => LockedNext(s, step)
      case Flush(step) => FlushNext(s, step)
      case Drain(step) => DrainNext(s, step)
      case CheckIdle(step) => IdleNext(s, step)
      case Work(step) => WorkNext(s, step)
  }

  /** The state after a run of the program. */
  function After(events: seq<Event>): Sys {
    if events == [] then Start() else Next(After(events[..|events| - 1]), events[|events| - 1])
  }

  // ---------------------------------------------------------------- hooks: in order, exactly once

  function Busy(w: Worker): seq<Delivery> {
    if w.Running? then [w.d] else []
  }

  function ToSend(m: Main): seq<Delivery> {
    if m.Flushing? then m.sends + AllDeliveries(m.hooks) else []
  }

  function Counted(m: Main): nat {
    if m.Flushing? && m.counted then 1 else 0
  }

  /** Deliveries still on their way. */
  function OnTheWay(s: Sys): seq<Delivery> {
    Busy(s.worker) + (s.lane.queue + (ToSend(s.main) + AllDeliveries(s.lane.pending)))
  }

  predicate Flow(s: Sys) {
    && s.lane.issued == s.lane.finished + OnTheWay(s)
    && s.lane.inFlight == |Busy(s.worker)| + |s.lane.queue| + Counted(s.main) + s.lane.deletes
    && (s.main != Section ==> s.lane.pending == [])
    && (s.main.Flushing? && s.main.counted ==> s.main.sends != [])
    && |s.lane.queue| <= QUEUE_CAP
  }

  lemma {:induction false} AllDeliveriesSnoc(hooks: seq<Hook>, h: Hook)
    ensures AllDeliveries(hooks + [h]) == AllDeliveries(hooks) + Deliveries(h)
  {
    if hooks == [] {
      assert hooks + [h] == [h];
      assert AllDeliveries([h]) == Deliveries(h) + [];
    } else {
      assert (hooks + [h])[1..] == hooks[1..] + [h];
      AllDeliveriesSnoc(hooks[1..], h);
      Reassociate(Deliveries(hooks[0]), AllDeliveries(hooks[1..]), Deliveries(h));
    }
  }

  lemma FlowLocked(s: Sys, e: LockedStep)
    requires Flow(s) && LockedEnabled(s, e)
    ensures Flow(LockedNext(s, e))
  {
    match e {
      case QueueHook(id, slugs, silent) =>
        var h := Hook(id, s.book.items[id], slugs, silent);
        AllDeliveriesSnoc(s.lane.pending, h);
        FiveParts(Busy(s.worker), s.lane.queue, ToSend(s.main), AllDeliveries(s.lane.pending), Deliveries(h));
        Reassociate(s.lane.finished, OnTheWay(s), Deliveries(h));
      case Unlock =>
        Empties(AllDeliveries(s.lane.pending));
      case _ =>
    }
  }

  lemma SendOne(queue: seq<Delivery>, sends: seq<Delivery>, hooks: seq<Delivery>, rest: seq<Delivery>)
    requires sends != []
    ensures queue + ((sends + hooks) + rest) == (queue + [sends[0]]) + ((sends[1..] + hooks) + rest)
  {
  }

  lemma FlowFlush(s: Sys, e: FlushStep)
    requires Flow(s) && FlushEnabled(s, e)
    ensures Flow(FlushNext(s, e))
  {
    match e {
      case SeedNext => Empties(AllDeliveries(s.main.hooks));
      case Send => SendOne(s.lane.queue, s.main.sends, AllDeliveries(s.main.hooks), AllDeliveries(s.lane.pending));
      case _ =>
    }
  }

  lemma FlowDrain(s: Sys, e: DrainStep)
    requires Flow(s) && DrainEnabled(s, e)
    ensures Flow(DrainNext(s, e))
  {
  }

  lemma FlowIdle(s: Sys, e: IdleStep)
    requires Flow(s) && IdleEnabled(s, e)
    ensures Flow(IdleNext(s, e))
  {
  }

  lemma FlowWork(s: Sys, e: WorkStep)
    requires Flow(s) && WorkEnabled(s, e)
    ensures Flow(WorkNext(s, e))
  {
    var later := ToSend(s.main) + AllDeliveries(s.lane.pending);
    match e {
      case Take =>
        FirstAndRest(s.lane.queue);
        Reassociate([s.lane.queue[0]], s.lane.queue[1..], later);
        Empties(s.lane.queue + later);
      case Finish =>
        Reassociate(s.lane.finished, [s.worker.d], s.lane.queue + later);
        Empties(s.lane.queue + later);
      case _ =>
    }
  }

  // ---------------------------------------------------------------- what the worker reported

  function TakenFails(m: Main): seq<string> {
    if m.Recording? then m.fails else []
  }

  function TakenSaves(m: Main): seq<Save> {
    if m.Saving? then m.saves else []
  }

  /** Every failure and every accepted id is applied in order, or waits to be. */
  predicate Reports(s: Sys) {
    && s.log.reported == s.log.recorded + (TakenFails(s.main) + s.log.fails)
    && s.log.stored == s.log.applied + (TakenSaves(s.main) + s.log.saves)
  }

  lemma ReportsDrain(s: Sys, e: DrainStep)
    requires Reports(s) && DrainEnabled(s, e)
    ensures Reports(DrainNext(s, e))
  {
    Empties(s.log.fails);
    Empties(s.log.saves);
    match e {
      case RecordOne => TakeFirst(s.log.recorded, s.main.fails, s.log.fails);
      case SaveOne => TakeFirst(s.log.applied, s.main.saves, s.log.saves);
      case _ =>
    }
  }

  lemma ReportsWork(s: Sys, e: WorkStep)
    requires Reports(s) && WorkEnabled(s, e)
    ensures Reports(WorkNext(s, e))
  {
    match e {
      case Fail => OneMore(s.log.recorded, TakenFails(s.main), s.log.fails, s.worker.d.itemId);
      case Store(msg) => OneMore(s.log.applied, TakenSaves(s.main), s.log.saves, SaveOf(s.worker.d, msg));
      case _ =>
    }
  }

  lemma ReportsOther(s: Sys, e: Event)
    requires Reports(s) && Enabled(s, e) && !e.Drain? && !e.Work?
    ensures Reports(Next(s, e))
  {
    match e {
      case Locked(step) =>
      case Flush(step) =>
      case CheckIdle(step) =>
    }
  }

  // ---------------------------------------------------------------- the idle check

  predicate NothingInFlight(s: Sys) {
    s.lane.queue == [] && s.worker == Waiting && s.lane.deletes == 0
  }

  /** What the idle check has seen still holds: the counter is read first, and the worker
      reports before it counts down. */
  predicate Idle(s: Sys) {
    && (s.main in {SawCount, SawFails, SawSaves, Restarting} ==> NothingInFlight(s))
    && (s.main in {SawFails, SawSaves, Restarting} ==> s.log.fails == [])
    && (s.main in {SawSaves, Restarting} ==> s.log.saves == [])
  }

  lemma IdleCheck(s: Sys, e: IdleStep)
    requires Flow(s) && Idle(s) && IdleEnabled(s, e)
    ensures Idle(IdleNext(s, e))
  {
  }

  lemma IdleWork(s: Sys, e: WorkStep)
    requires Idle(s) && WorkEnabled(s, e)
    ensures Idle(WorkNext(s, e))
  {
  }

  lemma IdleOther(s: Sys, e: Event)
    requires Idle(s) && Enabled(s, e) && !e.CheckIdle? && !e.Work?
    ensures Idle(Next(s, e))
  {
    match e {
      case Locked(step) =>
      case Flush(step) =>
      case Drain(step) =>
    }
  }

  // ---------------------------------------------------------------- over whole runs

  predicate Sound(s: Sys) {
    Flow(s) && Reports(s) && Idle(s)
  }

  lemma SoundNext(s: Sys, e: Event)
    requires Sound(s)
    ensures Sound(Next(s, e))
  {
    if Enabled(s, e) {
      match e {
        case Locked(step) => FlowLocked(s, step); ReportsOther(s, e); IdleOther(s, e);
        case Flush(step) => FlowFlush(s, step); ReportsOther(s, e); IdleOther(s, e);
        case Drain(step) => FlowDrain(s, step); ReportsDrain(s, step); IdleOther(s, e);
        case CheckIdle(step) => FlowIdle(s, step); ReportsOther(s, e); IdleCheck(s, step);
        case Work(step) => FlowWork(s, step); ReportsWork(s, step); IdleWork(s, step);
      }
    }
  }

  lemma {:induction false} EveryRunSound(events: seq<Event>)
    ensures Sound(After(events))
  {
    if events != [] {
      EveryRunSound(events[..|events| - 1]);
      SoundNext(After(events[..|events| - 1]), events[|events| - 1]);
    }
  }

  /** Hooks are delivered in the order in which they were queued, each once; the
      deliveries still on their way are exactly the rest, and none waits under the lock
      when the lock is free. */
  lemma DeliveredInOrder(events: seq<Event>)
    ensures var s := After(events);
            && s.lane.issued == s.lane.finished + OnTheWay(s)
            && (s.main != Section ==> s.lane.pending == [])
  {
    EveryRunSound(events);
  }

  /** When the process is restarted nothing is lost: every hook and every delete is done,
      and every failure and every message id is applied. */
  lemma RestartLosesNothing(events: seq<Event>)
    ensures var s := After(events);
            s.main == Restarting ==>
              && s.lane.finished == s.lane.issued && s.lane.deletes == 0
              && s.log.recorded == s.log.reported && s.log.applied == s.log.stored
  {
    EveryRunSound(events);
  }

  // ---------------------------------------------------------------- progress

  /** Nothing is on its way, and the main loop is between its tasks or about to restart. */
  predicate AtRest(s: Sys) {
    (s.main == Free || s.main == Restarting) && NothingInFlight(s)
  }

  /** A step that brings the system nearer to rest: the worker's if there is one, else the
      main loop's, else the delete worker's. */
  function Helpful(s: Sys): Event {
    if s.worker.Running? then Work(Finish)
    else if s.lane.queue != [] then Work(Take)
    else
      match s.main
      case Section => Locked(Unlock)
      case Flushing(hooks, sends, counted) =>
        Flush(if sends != [] then (if counted then Send else CountSend)
              else if hooks != [] then SeedNext else FlushDone)
      case Recording(fails, _) => Drain(if fails != [] then RecordOne else RecordDone)
      case Saving(saves, restart) =>
        if saves != [] then Drain(SaveOne) else if restart then CheckIdle(ReadCount) else Drain(SaveDone)
      case SawCount => CheckIdle(ReadFails)
      case SawFails => CheckIdle(ReadSaves)
      case SawSaves => CheckIdle(ReadRest(false))
      case _ => Work(DeleteDone)
  }

  function HooksLeft(hooks: seq<Hook>): nat {
    if hooks == [] then 0 else 1 + 4 * |Deliveries(hooks[0])| + HooksLeft(hooks[1..])
  }

  function SendsLeft(sends: seq<Delivery>, counted: bool): nat {
    if sends == [] then 0 else 4 * |sends| - if counted then 1 else 0
  }

  function MainLeft(s: Sys): nat {
    match s.main
    case Section => 2 + HooksLeft(s.lane.pending)
    case Flushing(hooks, sends, counted) => 1 + HooksLeft(hooks) + SendsLeft(sends, counted)
    case Recording(fails, restart) => |fails| + 1 + if restart then |s.log.saves| + 6 else 0
    case Saving(saves, restart) => |saves| + 1 + if restart then 4 else 0
    case SawCount => 3
    case SawFails => 2
    case SawSaves => 1
    case _ => 0
  }

  /** How many helpful steps are left. */
  function StepsLeft(s: Sys): nat {
    |Busy(s.worker)| + 2 * |s.lane.queue| + s.lane.deletes + MainLeft(s)
  }

  /** The system is never stuck: away from rest the helpful step is enabled, with a full
      queue too, for then the worker has one. */
  lemma NeverStuck(s: Sys)
    requires Flow(s) && !AtRest(s)
    ensures Enabled(s, Helpful(s)) && StepsLeft(Next(s, Helpful(s))) < StepsLeft(s)
    ensures Next(s, Helpful(s)).lane.issued == s.lane.issued
  {
    if s.worker.Running? {
    } else if s.lane.queue != [] {
    } else if s.main.Section? {
    } else if s.main.Flushing? {
    } else {
    }
  }

  /** The state after more steps. */
  function Then(s: Sys, events: seq<Event>): Sys {
    if events == [] then s else Next(Then(s, events[..|events| - 1]), events[|events| - 1])
  }

  lemma {:induction false} AfterThen(events: seq<Event>, more: seq<Event>)
    ensures After(events + more) == Then(After(events), more)
    decreases |more|
  {
    if more == [] {
      assert events + more == events;
    } else {
      AfterThen(events, more[..|more| - 1]);
      assert (events + more)[..|events + more| - 1] == events + more[..|more| - 1];
    }
  }

  lemma {:induction false} ThenFirst(s: Sys, e: Event, more: seq<Event>)
    ensures Then(s, [e] + more) == Then(Next(s, e), more)
    decreases |more|
  {
    if more == [] {
      assert [e] + more == [e] && [e][..0] == [];
      assert Then(s, []) == s;
    } else {
      ThenFirst(s, e, more[..|more| - 1]);
      assert ([e] + more)[..|[e] + more| - 1] == [e] + more[..|more| - 1];
    }
  }

  lemma {:induction false} ComesToRest(s: Sys) returns (more: seq<Event>)
    requires Sound(s)
    ensures |more| <= StepsLeft(s) && AtRest(Then(s, more)) && Sound(Then(s, more))
    ensures Then(s, more).lane.issued == s.lane.issued
    decreases StepsLeft(s)
  {
    if AtRest(s) {
      more := [];
    } else {
      NeverStuck(s);
      SoundNext(s, Helpful(s));
      var rest := ComesToRest(Next(s, Helpful(s)));
      ThenFirst(s, Helpful(s), rest);
      more := [Helpful(s)] + rest;
    }
  }

  /** From every reachable state finitely many steps, which queue nothing new, deliver every
      hook queued so far, do every delete, and leave nothing counted as in flight. */
  lemma EverythingDelivered(events: seq<Event>) returns (more: seq<Event>)
    ensures var s, n := After(events), After(events + more);
            && |more| <= StepsLeft(s) && AtRest(n) && n.lane.issued == s.lane.issued
            && n.lane.finished == s.lane.issued && OnTheWay(n) == [] && n.lane.inFlight == 0
  {
    EveryRunSound(events);
    more := ComesToRest(After(events));
    AfterThen(events, more);
  }
}
