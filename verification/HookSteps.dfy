/** What was asked for in a run of the steps in HookProtocol and what came of it: every hook,
    failure, id and delete is on the record, extracts come and go with their cache entries,
    and the process can always be brought to a restart. */
module HookSteps {

  import opened HookCache
  import opened HookProtocol

  // ---------------------------------------------------------------- what a run asked for

  /** One delivery for each slug of a hook that is not silent. */
  function ForSlugs(itemId: string, slugs: seq<string>, live: Extract): seq<Delivery> {
    if slugs == [] then []
    else ForSlugs(itemId, slugs[..|slugs| - 1], live) + [Delivery(itemId, slugs[|slugs| - 1], live)]
  }

  /** The deliveries that an event asks for, in a state. */
  function Asks(s: Sys, e: Event): seq<Delivery> {
    if e.Locked? && e.locked.QueueHook? && s.main == Section && e.locked.itemId in s.book.items && !e.locked.silent
    then ForSlugs(e.locked.itemId, e.locked.slugs, s.book.items[e.locked.itemId]) else []
  }

  function Asked(events: seq<Event>): seq<Delivery> {
    if events == [] then []
    else Asked(events[..|events| - 1]) + Asks(After(events[..|events| - 1]), events[|events| - 1])
  }

  /** The ids that the deliveries of a run wanted stored. */
  function Wanted(events: seq<Event>): seq<Save> {
    if events == [] then []
    else
      var s, last := After(events[..|events| - 1]), events[|events| - 1];
      Wanted(events[..|events| - 1])
      + if last.Work? && last.work.Store? && s.worker.Running?
        then [Save(s.worker.d.itemId, s.worker.d.slug, last.work.msg, s.worker.d.live)] else []
  }

  /** The titles whose deliveries failed. */
  function Failures(events: seq<Event>): seq<string> {
    if events == [] then []
    else
      var s, last := After(events[..|events| - 1]), events[|events| - 1];
      Failures(events[..|events| - 1])
      + if last == Work(Fail) && s.worker.Running? then [s.worker.d.itemId] else []
  }

  /** The deletes asked for less those done. */
  function DeletesOpen(events: seq<Event>): int {
    if events == [] then 0
    else
      var s, last := After(events[..|events| - 1]), events[|events| - 1];
      DeletesOpen(events[..|events| - 1])
      + (if last == Locked(QueueDelete) && s.main == Section then 1 else 0)
      - (if last == Work(DeleteDone) && s.lane.deletes > 0 then 1 else 0)
  }

  lemma {:induction false} ForSlugsIs(itemId: string, slugs: seq<string>, live: Extract)
    ensures ForSlugs(itemId, slugs, live) == Deliveries(Hook(itemId, live, slugs, false))
  {
    if slugs != [] {
      ForSlugsIs(itemId, slugs[..|slugs| - 1], live);
    }
  }

  lemma IssuedNext(s: Sys, e: Event)
    ensures Next(s, e).lane.issued == s.lane.issued + Asks(s, e)
  {
    if e.Locked? && e.locked.QueueHook? && e.locked.itemId in s.book.items {
      ForSlugsIs(e.locked.itemId, e.locked.slugs, s.book.items[e.locked.itemId]);
    }
  }

  lemma MadeNext(s: Sys, e: Event)
    ensures Next(s, e).log.made
         == s.log.made + if e.Work? && e.work.Store? && s.worker.Running?
                         then [Save(s.worker.d.itemId, s.worker.d.slug, e.work.msg, s.worker.d.live)] else []
  {
  }

  lemma ReportedNext(s: Sys, e: Event)
    ensures Next(s, e).log.reported
         == s.log.reported + if e == Work(Fail) && s.worker.Running? then [s.worker.d.itemId] else []
  {
  }

  lemma DeletesNext(s: Sys, e: Event)
    ensures Next(s, e).lane.deletes
         == s.lane.deletes + (if e == Locked(QueueDelete) && s.main == Section then 1 else 0)
            - (if e == Work(DeleteDone) && s.lane.deletes > 0 then 1 else 0)
  {
  }

  /** In every run the deliveries on the record are those that were asked for, the ids those
      that were to be stored, the failures those reported, and the deletes waiting those
      asked for and not done. */
  lemma {:induction false} AllOnRecord(events: seq<Event>)
    ensures var s := After(events);
            && s.lane.issued == Asked(events) && s.log.made == Wanted(events)
            && s.log.reported == Failures(events) && s.lane.deletes == DeletesOpen(events)
  {
    if events != [] {
      var s, last := After(events[..|events| - 1]), events[|events| - 1];
      AllOnRecord(events[..|events| - 1]);
      assert After(events) == Next(s, last);
      IssuedNext(s, last);
      MadeNext(s, last);
      ReportedNext(s, last);
      DeletesNext(s, last);
    }
  }

  /** So when everything is delivered, it is everything that was asked for. */
  lemma AskedIsDelivered(events: seq<Event>) returns (more: seq<Event>)
    ensures After(events + more).lane.finished == Asked(events)
  {
    more := EverythingDelivered(events);
    AllOnRecord(events);
  }

  // ---------------------------------------------------------------- extracts come and go

  /** A new extract gets a number of its own, the title, and the ids it was restored with. */
  lemma CreatedExactly(s: Sys, id: string, restored: Messages)
    requires s.main == Section && id != "" && id !in s.book.items
    ensures var n := Next(s, Locked(Create(id, restored)));
            && n.book.items == s.book.items[id := s.book.next] && n.book.next > s.book.next
            && s.book.next in n.book.msgs && n.book.msgs[s.book.next] == restored && n.book.cache == s.book.cache
            && (forall live :: live in s.book.msgs && live != s.book.next ==>
                  live in n.book.msgs && n.book.msgs[live] == s.book.msgs[live])
  {
  }

  /** A deleted extract leaves the map, and no delivery finds an id for it any more; what
      other extracts find stays. */
  lemma DeletedExactly(s: Sys, id: string, other: string, key: string, live: Extract)
    requires s.main == Section && id in s.book.items && forall h :: h in s.lane.pending ==> h.itemId != id
    ensures var n := Next(s, Locked(Delete(id)));
            && n.book.items == s.book.items - {id} && n.book.msgs == s.book.msgs
            && (id != "" ==> Found(n.book.cache, id, key, s.book.items[id]) == "")
            && (other != id || live != s.book.items[id] ==>
                  Found(n.book.cache, other, key, live) == Found(s.book.cache, other, key, live))
  {
  }

  /** The main loop writes an id to the extract it was saved for, exactly when that still has
      the title; else no extract changes. */
  lemma SavedExactly(s: Sys)
    requires s.main.Saving? && s.main.saves != []
    ensures var x, n := s.main.saves[0], Next(s, Drain(SaveOne));
            n.book == if x.itemId in s.book.items && s.book.items[x.itemId] == x.live && x.live in s.book.msgs
                      then s.book.(msgs := s.book.msgs[x.live := s.book.msgs[x.live][x.key := x.msg]]) else s.book
  {
  }

  // ---------------------------------------------------------------- the restart

  /** Each read of the idle check goes on exactly when there is nothing to wait for. */
  lemma IdleExactly(s: Sys, quiet: bool)
    ensures s.main.Saving? && s.main.saves == [] && s.main.restart ==>
              Next(s, CheckIdle(ReadCount)).main == if s.lane.inFlight <= 0 then SawCount else Free
    ensures s.main == SawCount ==> Next(s, CheckIdle(ReadFails)).main == if s.log.fails == [] then SawFails else Free
    ensures s.main == SawFails ==> Next(s, CheckIdle(ReadSaves)).main == if s.log.saves == [] then SawSaves else Free
    ensures s.main == SawSaves ==> Next(s, CheckIdle(ReadRest(quiet))).main == if quiet then Restarting else Free
  {
  }

  /** Nothing is on its way, and what the worker reported was taken for a restart. */
  predicate Drained(s: Sys) {
    Sound(s) && NothingInFlight(s) && s.log.fails == []
    && (s.main.Saving? ==> s.log.saves == [] && s.main.restart) && (s.main.Recording? ==> s.main.restart)
  }

  /** The four reads of the idle check. */
  lemma ChecksPass(s: Sys) returns (more: seq<Event>)
    requires Drained(s) && s.main.Saving? && s.main.saves == []
    ensures Then(s, more).main == Restarting
  {
    var a := Next(s, CheckIdle(ReadCount));
    assert a.main == SawCount;
    var b := Next(a, CheckIdle(ReadFails));
    assert b.main == SawFails;
    var c := Next(b, CheckIdle(ReadSaves));
    assert c.main == SawSaves;
    more := [];
    ThenFirst(c, CheckIdle(ReadRest(true)), more);
    more := [CheckIdle(ReadRest(true))] + more;
    ThenFirst(b, CheckIdle(ReadSaves), more);
    more := [CheckIdle(ReadSaves)] + more;
    ThenFirst(a, CheckIdle(ReadFails), more);
    more := [CheckIdle(ReadFails)] + more;
    ThenFirst(s, CheckIdle(ReadCount), more);
    more := [CheckIdle(ReadCount)] + more;
  }

  lemma {:induction false} SavesDrain(s: Sys) returns (more: seq<Event>)
    requires Drained(s) && s.main.Saving?
    ensures Then(s, more).main == Restarting
    decreases |s.main.saves|
  {
    if s.main.saves == [] {
      more := ChecksPass(s);
    } else {
      SoundNext(s, Drain(SaveOne));
      var rest := SavesDrain(Next(s, Drain(SaveOne)));
      ThenFirst(s, Drain(SaveOne), rest);
      more := [Drain(SaveOne)] + rest;
    }
  }

  lemma {:induction false} FailsDrain(s: Sys) returns (more: seq<Event>)
    requires Drained(s) && s.main.Recording?
    ensures Then(s, more).main == Restarting
    decreases |s.main.fails|
  {
    var e := if s.main.fails == [] then Drain(RecordDone) else Drain(RecordOne);
    SoundNext(s, e);
    var rest: seq<Event>;
    if s.main.fails == [] {
      rest := SavesDrain(Next(s, e));
    } else {
      rest := FailsDrain(Next(s, e));
    }
    ThenFirst(s, e, rest);
    more := [e] + rest;
  }

  lemma {:induction false} ThenAppend(s: Sys, a: seq<Event>, b: seq<Event>)
    ensures Then(s, a + b) == Then(Then(s, a), b)
    decreases |b|
  {
    if b == [] {
      assert a + b == a;
    } else {
      ThenAppend(s, a, b[..|b| - 1]);
      assert (a + b)[..|a + b| - 1] == a + b[..|b| - 1];
    }
  }

  /** From every reachable state finitely many steps, in which the rest of the program is
      quiet, bring the process to a restart: nothing keeps it from one for good. */
  lemma RestartReached(events: seq<Event>) returns (more: seq<Event>)
    ensures After(events + more).main == Restarting
  {
    EveryRunSound(events);
    var s := After(events);
    var first := ComesToRest(s);
    var rested := Then(s, first);
    more := first;
    if rested.main == Free {
      SoundNext(rested, Drain(TakeFails(true)));
      var rest := FailsDrain(Next(rested, Drain(TakeFails(true))));
      ThenFirst(rested, Drain(TakeFails(true)), rest);
      ThenAppend(s, first, [Drain(TakeFails(true))] + rest);
      more := first + ([Drain(TakeFails(true))] + rest);
    }
    AfterThen(events, more);
  }
}
