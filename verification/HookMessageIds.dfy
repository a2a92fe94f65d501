/** Which message id a delivery edits, over every run of the steps in HookProtocol
    (pkg/unpackerr/webhook.go): only ids of its own extract, and the newest of them. */
module HookMessageIds {

  import opened HookCache
  import opened HookProtocol
  import opened Sequences

  // ---------------------------------------------------------------- ids in order

  /** A save that names a key and an id. */
  predicate Brings(x: Save) {
    x.key != "" && x.msg != ""
  }

  /** m with the ids that some saves bring for one extract, the later ones last. */
  function Written(m: Messages, saves: seq<Save>, live: Extract): Messages {
    if saves == [] then m
    else
      var before, last := Written(m, saves[..|saves| - 1], live), saves[|saves| - 1];
      if last.live == live && Brings(last) then before[last.key := last.msg] else before
  }

  lemma WrittenSnoc(m: Messages, saves: seq<Save>, x: Save, live: Extract)
    ensures Written(m, saves + [x], live)
         == if x.live == live && Brings(x) then Written(m, saves, live)[x.key := x.msg] else Written(m, saves, live)
  {
    assert (saves + [x])[..|saves|] == saves;
  }

  lemma {:induction false} WrittenFront(m: Messages, x: Save, rest: seq<Save>, live: Extract)
    ensures Written(m, [x] + rest, live)
         == Written(if x.live == live && Brings(x) then m[x.key := x.msg] else m, rest, live)
  {
    if rest == [] {
      assert [x] + rest == [] + [x];
      WrittenSnoc(m, [], x, live);
    } else {
      assert ([x] + rest)[..|rest|] == [x] + rest[..|rest| - 1];
      WrittenFront(m, x, rest[..|rest| - 1], live);
    }
  }

  lemma {:induction false} WrittenNone(m: Messages, saves: seq<Save>, live: Extract)
    requires forall x :: x in saves ==> x.live != live
    ensures Written(m, saves, live) == m
  {
    if saves != [] {
      assert forall x :: x in saves[..|saves| - 1] ==> x in saves;
      WrittenNone(m, saves[..|saves| - 1], live);
    }
  }

  lemma {:induction false} WrittenKeys(m: Messages, saves: seq<Save>, live: Extract)
    ensures m.Keys <= Written(m, saves, live).Keys
  {
    if saves != [] {
      WrittenKeys(m, saves[..|saves| - 1], live);
    }
  }

  /** msg came to live under key: it was saved by a delivery for it, or it was there when
      the extract was made or restored. */
  predicate OwnId(made: seq<Save>, initial: map<Extract, Messages>, live: Extract, key: string, msg: string) {
    || (exists x :: x in made && x.live == live && x.key == key && x.msg == msg)
    || (live in initial && key in initial[live] && initial[live][key] == msg)
  }

  // ---------------------------------------------------------------- the invariant

  predicate Known(b: Book) {
    && (forall id :: id in b.items ==> id != "" && b.items[id] in b.owner && b.owner[b.items[id]] == id)
    && (forall live :: live in b.owner ==> live < b.next && live in b.initial && live in b.msgs)
    && (forall live :: live in b.seeded ==> live in b.owner)
  }

  predicate Sent(b: Book, itemId: string, live: Extract) {
    live in b.seeded && live in b.owner && b.owner[live] == itemId
  }

  /** The cache entry and the ids of the extract that has the title now. */
  predicate Fits(b: Book, made: seq<Save>, waiting: seq<Save>, id: string)
    requires Known(b) && id in b.items
  {
    var live := b.items[id];
    if live in b.seeded then
      && OwnedBy(b.cache, id, live)
      && b.cache[id].msgs == Written(b.initial[live], made, live)
      && b.cache[id].msgs == Written(b.msgs[live], waiting, live)
    else b.msgs[live] == b.initial[live]
  }

  predicate Honest(b: Book, made: seq<Save>, id: string)
    requires id in b.cache
  {
    && Sent(b, id, b.cache[id].live)
    && forall key :: key in b.cache[id].msgs ==> OwnId(made, b.initial, b.cache[id].live, key, b.cache[id].msgs[key])
  }

  /** `waiting` are the saves that the main loop has not applied yet. */
  predicate Books(b: Book, made: seq<Save>, waiting: seq<Save>) {
    && Known(b)
    && (forall x :: x in made ==> Sent(b, x.itemId, x.live))
    && (forall x :: x in waiting ==> x in made && Brings(x))
    && (forall id :: id in b.items ==> Fits(b, made, waiting, id))
    && (forall id :: id in b.cache ==> Honest(b, made, id))
  }

  lemma KnownCreated(b: Book, id: string, restored: Messages)
    requires Known(b) && id != "" && id !in b.items
    ensures Known(Created(b, id, restored))
    ensures forall k, live :: Sent(b, k, live) ==> Sent(Created(b, id, restored), k, live)
  {
  }

  lemma FitsCreated(b: Book, made: seq<Save>, waiting: seq<Save>, id: string, restored: Messages, k: string)
    requires Known(b) && id != "" && id !in b.items
    requires Known(Created(b, id, restored)) && k in Created(b, id, restored).items
    requires k in b.items ==> Fits(b, made, waiting, k)
    ensures Fits(Created(b, id, restored), made, waiting, k)
  {
  }

  lemma HonestCreated(b: Book, made: seq<Save>, id: string, restored: Messages, k: string)
    requires Known(b) && k in b.cache && Honest(b, made, k)
    ensures Honest(Created(b, id, restored), made, k)
  {
    var live := b.cache[k].live;
    forall key | key in b.cache[k].msgs
      ensures OwnId(made, Created(b, id, restored).initial, live, key, b.cache[k].msgs[key]) {
      assert OwnId(made, b.initial, live, key, b.cache[k].msgs[key]);
    }
  }

  lemma BooksCreated(b: Book, made: seq<Save>, waiting: seq<Save>, id: string, restored: Messages)
    requires Books(b, made, waiting) && id != "" && id !in b.items
    ensures Books(Created(b, id, restored), made, waiting)
  {
    var now := Created(b, id, restored);
    KnownCreated(b, id, restored);
    forall k | k in now.items ensures Fits(now, made, waiting, k) {
      FitsCreated(b, made, waiting, id, restored, k);
    }
    forall k | k in now.cache ensures Honest(now, made, k) {
      HonestCreated(b, made, id, restored, k);
    }
  }

  lemma BooksForgotten(b: Book, made: seq<Save>, waiting: seq<Save>, id: string)
    requires Books(b, made, waiting) && id in b.items
    ensures Books(Forgotten(b, id), made, waiting)
  {
    var now := Forgotten(b, id);
    forall k | k in now.items ensures Fits(now, made, waiting, k) {
      assert Fits(b, made, waiting, k);
    }
    forall k | k in now.cache ensures Honest(now, made, k) {
      assert Honest(b, made, k);
    }
  }

  lemma BooksSeeded(b: Book, made: seq<Save>, waiting: seq<Save>, h: Hook)
    requires Books(b, made, waiting) && h.itemId in b.items && b.items[h.itemId] == h.live
    ensures Books(SeededFor(b, h), made, waiting)
    ensures !h.silent ==> Sent(SeededFor(b, h), h.itemId, h.live)
  {
    var now := SeededFor(b, h);
    if !h.silent {
      var id, live := h.itemId, h.live;
      SeedingFits(b, made, waiting, id, live);
      forall k | k in now.items ensures Fits(now, made, waiting, k) {
        assert Fits(b, made, waiting, k);
      }
      forall k | k in now.cache ensures Honest(now, made, k) {
        assert k != id ==> Honest(b, made, k);
      }
    }
  }

  /** The entry that seeding leaves for the extract that has the title. */
  lemma SeedingFits(b: Book, made: seq<Save>, waiting: seq<Save>, id: string, live: Extract)
    requires Books(b, made, waiting) && id in b.items && b.items[id] == live
    ensures var cache := Seeded(b.cache, id, b.msgs[live], live);
            && OwnedBy(cache, id, live) && cache == b.cache[id := cache[id]]
            && cache[id].msgs == Written(b.initial[live], made, live)
            && cache[id].msgs == Written(b.msgs[live], waiting, live)
            && forall key :: key in cache[id].msgs ==> OwnId(made, b.initial, live, key, cache[id].msgs[key])
  {
    assert Fits(b, made, waiting, id);
    if live in b.seeded {
      WrittenKeys(b.msgs[live], waiting, live);
      assert WithMissing(b.cache[id].msgs, b.msgs[live]) == b.cache[id].msgs;
      assert Honest(b, made, id);
    } else {
      WrittenNone(b.msgs[live], waiting, live);
      WrittenNone(b.initial[live], made, live);
      assert id in b.cache ==> Honest(b, made, id);
    }
  }

  lemma BooksSaved(b: Book, made: seq<Save>, x: Save, rest: seq<Save>, waiting: seq<Save>)
    requires waiting == [x] + rest && Books(b, made, waiting)
    ensures Books(SavedTo(b, x), made, rest)
  {
    var now := SavedTo(b, x);
    assert x in waiting && forall y :: y in rest ==> y in waiting;
    assert Sent(b, x.itemId, x.live);
    forall k | k in now.items ensures Fits(now, made, rest, k) {
      assert Fits(b, made, waiting, k);
      WrittenFront(b.msgs[b.items[k]], x, rest, b.items[k]);
    }
    forall k | k in now.cache ensures Honest(now, made, k) {
      assert Honest(b, made, k);
    }
  }

  /** What the cache does not take brings nothing, or its extract no longer has the title. */
  lemma BooksRefused(b: Book, made: seq<Save>, waiting: seq<Save>, x: Save)
    requires Books(b, made, waiting) && Sent(b, x.itemId, x.live) && !Accepts(b.cache, x)
    ensures Books(b, made + [x], waiting)
  {
    forall k | k in b.items ensures Fits(b, made + [x], waiting, k) {
      assert Fits(b, made, waiting, k);
      WrittenSnoc(b.initial[b.items[k]], made, x, b.items[k]);
    }
    forall k | k in b.cache ensures Honest(b, made + [x], k) {
      assert Honest(b, made, k);
      forall key | key in b.cache[k].msgs
        ensures OwnId(made + [x], b.initial, b.cache[k].live, key, b.cache[k].msgs[key]) {
        OwnIdStays(made, x, b.initial, b.cache[k].live, key, b.cache[k].msgs[key]);
      }
    }
  }

  lemma BooksStored(b: Book, made: seq<Save>, waiting: seq<Save>, x: Save)
    requires Books(b, made, waiting) && Sent(b, x.itemId, x.live) && Accepts(b.cache, x)
    ensures Books(b.(cache := Stored(b.cache, x)), made + [x], waiting + [x])
  {
    var now := b.(cache := Stored(b.cache, x));
    forall k | k in now.items ensures Fits(now, made + [x], waiting + [x], k) {
      assert Fits(b, made, waiting, k);
      WrittenSnoc(b.initial[b.items[k]], made, x, b.items[k]);
      WrittenSnoc(b.msgs[b.items[k]], waiting, x, b.items[k]);
    }
    forall k | k in now.cache ensures Honest(now, made + [x], k) {
      StoredHonest(b, made, x, k);
    }
  }

  lemma StoredHonest(b: Book, made: seq<Save>, x: Save, k: string)
    requires Sent(b, x.itemId, x.live) && Accepts(b.cache, x)
    requires (k in b.cache ==> Honest(b, made, k)) && k in Stored(b.cache, x)
    ensures Honest(b.(cache := Stored(b.cache, x)), made + [x], k)
  {
    var cache := Stored(b.cache, x);
    var live := cache[k].live;
    forall key | key in cache[k].msgs ensures OwnId(made + [x], b.initial, live, key, cache[k].msgs[key]) {
      if k == x.itemId && key == x.key {
        assert x in made + [x];
      } else {
        OwnIdStays(made, x, b.initial, live, key, cache[k].msgs[key]);
      }
    }
  }

  lemma OwnIdStays(made: seq<Save>, x: Save, initial: map<Extract, Messages>, live: Extract, key: string, msg: string)
    requires OwnId(made, initial, live, key, msg)
    ensures OwnId(made + [x], initial, live, key, msg)
  {
    assert forall y :: y in made ==> y in made + [x];
  }

  // ---------------------------------------------------------------- over whole runs

  function Waiting(s: Sys): seq<Save> {
    TakenSaves(s.main) + s.log.saves
  }

  /** A hook is queued, and sent, while its extract still has the title. */
  predicate Current(b: Book, hooks: seq<Hook>) {
    forall h :: h in hooks ==> h.itemId in b.items && b.items[h.itemId] == h.live
  }

  predicate AllSent(b: Book, ds: seq<Delivery>) {
    forall d :: d in ds ==> Sent(b, d.itemId, d.live)
  }

  predicate Traceable(s: Sys) {
    && Books(s.book, s.log.made, Waiting(s))
    && Current(s.book, s.lane.pending)
    && (s.main.Flushing? ==> Current(s.book, s.main.hooks) && AllSent(s.book, s.main.sends))
    && AllSent(s.book, s.lane.queue)
    && (s.worker.Running? ==> Sent(s.book, s.worker.d.itemId, s.worker.d.live))
  }

  lemma CarriedCreated(s: Sys, id: string, restored: Messages)
    requires Traceable(s) && id != "" && id !in s.book.items
    ensures var now := Created(s.book, id, restored);
            && Current(now, s.lane.pending) && AllSent(now, s.lane.queue)
            && (s.worker.Running? ==> Sent(now, s.worker.d.itemId, s.worker.d.live))
  {
    KnownCreated(s.book, id, restored);
  }

  lemma TraceableLocked(s: Sys, e: LockedStep)
    requires Flow(s) && Traceable(s) && LockedEnabled(s, e)
    ensures Traceable(LockedNext(s, e))
  {
    match e {
      case Create(id, restored) =>
        BooksCreated(s.book, s.log.made, Waiting(s), id, restored);
        CarriedCreated(s, id, restored);
      case Delete(id) =>
        BooksForgotten(s.book, s.log.made, Waiting(s), id);
      case _ =>
    }
  }

  lemma TraceableFlush(s: Sys, e: FlushStep)
    requires Traceable(s) && FlushEnabled(s, e)
    ensures Traceable(FlushNext(s, e))
  {
    if e == SeedNext {
      var h := s.main.hooks[0];
      assert h in s.main.hooks && forall g :: g in s.main.hooks[1..] ==> g in s.main.hooks;
      BooksSeeded(s.book, s.log.made, Waiting(s), h);
      SeededKeeps(s.book, h);
      assert forall d :: d in Deliveries(h) ==> !h.silent && d.itemId == h.itemId && d.live == h.live;
    } else if e == Send {
      assert s.main.sends[0] in s.main.sends && forall d :: d in s.main.sends[1..] ==> d in s.main.sends;
    }
  }

  lemma SeededKeeps(b: Book, h: Hook)
    ensures forall id, live :: Sent(b, id, live) ==> Sent(SeededFor(b, h), id, live)
    ensures SeededFor(b, h).items == b.items
  {
  }

  lemma TraceableDrain(s: Sys, e: DrainStep)
    requires Traceable(s) && DrainEnabled(s, e)
    ensures Traceable(DrainNext(s, e))
  {
    Empties(s.log.saves);
    if e == SaveOne {
      FirstAndRest(s.main.saves);
      Reassociate([s.main.saves[0]], s.main.saves[1..], s.log.saves);
      BooksSaved(s.book, s.log.made, s.main.saves[0], s.main.saves[1..] + s.log.saves, Waiting(s));
    }
  }

  lemma TraceableIdle(s: Sys, e: IdleStep)
    requires Traceable(s) && IdleEnabled(s, e)
    ensures Traceable(IdleNext(s, e))
  {
  }

  lemma TraceableWork(s: Sys, e: WorkStep)
    requires Traceable(s) && WorkEnabled(s, e)
    ensures Traceable(WorkNext(s, e))
  {
    match e {
      case Take =>
        assert s.lane.queue[0] in s.lane.queue && forall d :: d in s.lane.queue[1..] ==> d in s.lane.queue;
      case Store(msg) =>
        var x := SaveOf(s.worker.d, msg);
        if Accepts(s.book.cache, x) {
          BooksStored(s.book, s.log.made, Waiting(s), x);
          Reassociate(TakenSaves(s.main), s.log.saves, [x]);
        } else {
          BooksRefused(s.book, s.log.made, Waiting(s), x);
        }
      case _ =>
    }
  }

  lemma TraceableNext(s: Sys, e: Event)
    requires Flow(s) && Traceable(s)
    ensures Traceable(Next(s, e))
  {
    if Enabled(s, e) {
      match e {
        case Locked(step) => TraceableLocked(s, step);
        case Flush(step) => TraceableFlush(s, step);
        case Drain(step) => TraceableDrain(s, step);
        case CheckIdle(step) => TraceableIdle(s, step);
        case Work(step) => TraceableWork(s, step);
      }
    }
  }

  lemma {:induction false} EveryRunTraceable(events: seq<Event>)
    ensures Traceable(After(events))
  {
    if events != [] {
      EveryRunTraceable(events[..|events| - 1]);
      EveryRunSound(events[..|events| - 1]);
      TraceableNext(After(events[..|events| - 1]), events[|events| - 1]);
    }
  }

  // ---------------------------------------------------------------- what a delivery finds

  /** What the delivery that runs now would edit. */
  function Edits(s: Sys): string
    requires s.worker.Running?
  {
    Found(s.book.cache, s.worker.d.itemId, s.worker.d.slug, s.worker.d.live)
  }

  /** In every run, the id that a delivery finds was saved by a delivery for its own
      extract or came with that extract; never by an earlier extract with the same title. */
  lemma FindsOwnIds(events: seq<Event>)
    ensures var s := After(events);
            s.worker.Running? && Edits(s) != "" ==>
              OwnId(s.log.made, s.book.initial, s.worker.d.live, s.worker.d.slug, Edits(s))
  {
    EveryRunTraceable(events);
    var s := After(events);
    if s.worker.Running? && Edits(s) != "" {
      assert Honest(s.book, s.log.made, s.worker.d.itemId);
    }
  }

  /** While its extract has the title, a delivery finds the newest of all the ids that its
      deliveries wanted stored, or else the one it started with: none is refused. */
  lemma FindsNewest(events: seq<Event>)
    ensures var s := After(events);
            s.worker.Running? && s.worker.d.slug != ""
            && s.worker.d.itemId in s.book.items && s.book.items[s.worker.d.itemId] == s.worker.d.live
            && s.worker.d.live in s.book.initial ==>
              var newest := Written(s.book.initial[s.worker.d.live], s.log.made, s.worker.d.live);
              Edits(s) == if s.worker.d.slug in newest then newest[s.worker.d.slug] else ""
  {
    EveryRunTraceable(events);
    var s := After(events);
    if s.worker.Running? && s.worker.d.itemId in s.book.items && s.book.items[s.worker.d.itemId] == s.worker.d.live {
      assert Fits(s.book, s.log.made, Waiting(s), s.worker.d.itemId);
    }
  }

  /** Once no save waits, the extract that has the title has the newest of all those ids,
      and the cache the same. */
  lemma DrainedCacheAgrees(events: seq<Event>, id: string)
    ensures var s := After(events);
            Waiting(s) == [] && id in s.book.items ==>
              var live := s.book.items[id];
              live in s.book.seeded && live in s.book.msgs && live in s.book.initial ==>
                && OwnedBy(s.book.cache, id, live) && s.book.cache[id].msgs == s.book.msgs[live]
                && s.book.msgs[live] == Written(s.book.initial[live], s.log.made, live)
  {
    EveryRunTraceable(events);
    var s := After(events);
    if Waiting(s) == [] && id in s.book.items {
      assert Fits(s.book, s.log.made, Waiting(s), id);
    }
  }
}
