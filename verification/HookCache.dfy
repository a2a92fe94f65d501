/** The worker-visible cache of Discord and Telegram message ids in
    pkg/unpackerr/webhook.go. An entry belongs to one extract, named by a number; a later
    extract with the same title gets an entry of its own. */
module HookCache {

  type Extract = nat
  type Messages = map<string, string>

  datatype Entry = Entry(live: Extract, msgs: Messages)

  type Cache = map<string, Entry>

  /** One message id on its way to the main loop. */
  datatype Save = Save(itemId: string, key: string, msg: string, live: Extract)

  predicate OwnedBy(cache: Cache, itemId: string, live: Extract) {
    itemId in cache && cache[itemId].live == live
  }

  // ---------------------------------------------------------------- the operations on values

  /** `have` with the non-empty ids of `more` under keys that it lacks. */
  function WithMissing(have: Messages, more: Messages): Messages {
    map key | key in have.Keys + more.Keys && (key in have || more[key] != "")
    :: if key in have then have[key] else more[key]
  }

  function Seeded(cache: Cache, itemId: string, msgs: Messages, live: Extract): Cache {
    if itemId == "" then cache
    else if OwnedBy(cache, itemId, live) then cache[itemId := Entry(live, WithMissing(cache[itemId].msgs, msgs))]
    else cache[itemId := Entry(live, msgs)]
  }

  /** The id that the next delivery edits, "" when there is none. */
  function Found(cache: Cache, itemId: string, key: string, live: Extract): string {
    if itemId == "" || key == "" || !OwnedBy(cache, itemId, live) || key !in cache[itemId].msgs then ""
    else cache[itemId].msgs[key]
  }

  predicate Accepts(cache: Cache, save: Save) {
    && save.itemId != "" && save.key != "" && save.msg != ""
    && (save.itemId in cache ==> cache[save.itemId].live == save.live)
  }

  function Stored(cache: Cache, save: Save): Cache {
    if !Accepts(cache, save) then cache
    else
      var msgs := if save.itemId in cache then cache[save.itemId].msgs else map[];
      cache[save.itemId := Entry(save.live, msgs[save.key := save.msg])]
  }

  function Dropped(cache: Cache, itemId: string, live: Extract): Cache {
    if itemId != "" && OwnedBy(cache, itemId, live) then cache - {itemId} else cache
  }

  // ---------------------------------------------------------------- what they mean for a lookup

  /** A lookup right after a store finds the id just stored, exactly when no other extract
      owns the entry. Ids under other keys stay, and a store without a title, a key or an id
      changes nothing. */
  lemma FoundAfterStore(cache: Cache, itemId: string, key: string, msg: string, live: Extract)
    ensures var after := Stored(cache, Save(itemId, key, msg, live));
            && (itemId == "" || key == "" || msg == "" ==> after == cache)
            && (itemId != "" && key != "" && msg != "" ==>
                  (Found(after, itemId, key, live) == msg <==> !(itemId in cache && cache[itemId].live != live)))
            && forall other :: other != key ==> Found(after, itemId, other, live) == Found(cache, itemId, other, live)
  {
  }

  /** A lookup right after seeding finds what the extract had found before, or else the id
      that came with it; an extract that is new to the entry finds only those. */
  lemma FoundAfterSeed(cache: Cache, itemId: string, key: string, msgs: Messages, live: Extract)
    requires itemId != "" && key != ""
    ensures var was, brought := Found(cache, itemId, key, live), if key in msgs then msgs[key] else "";
            Found(Seeded(cache, itemId, msgs, live), itemId, key, live)
            == if itemId in cache && cache[itemId].live == live && key in cache[itemId].msgs then was else brought
  {
  }

  /** Seeding again adds exactly the ids that say something, under keys that are missing. */
  lemma SeededAgain(cache: Cache, itemId: string, key: string, msgs: Messages, live: Extract)
    requires itemId != "" && OwnedBy(cache, itemId, live)
    ensures var after := Seeded(cache, itemId, msgs, live);
            && OwnedBy(after, itemId, live)
            && (key in after[itemId].msgs <==> key in cache[itemId].msgs || (key in msgs && msgs[key] != ""))
  {
  }

  /** Without a title or a key nothing is kept, found or dropped. */
  lemma NothingWithoutNames(cache: Cache, key: string, msgs: Messages, live: Extract, itemId: string)
    ensures Seeded(cache, "", msgs, live) == cache && Dropped(cache, "", live) == cache
    ensures Found(cache, "", key, live) == "" && Found(cache, itemId, "", live) == ""
  {
  }

  /** Dropping an entry forgets what its owner found, and only its owner can drop it. */
  lemma FoundAfterDrop(cache: Cache, itemId: string, live: Extract, id: string, key: string, other: Extract)
    ensures Found(Dropped(cache, itemId, live), id, key, other)
         == if id == itemId && other == live then "" else Found(cache, id, key, other)
  {
  }

  /** No operation for one extract changes what another extract finds, but for a new
      extract taking over the title: then the former one finds nothing. */
  lemma OthersUntouched(cache: Cache, save: Save, itemId: string, key: string, other: Extract)
    requires other != save.live
    ensures Found(Stored(cache, save), itemId, key, other) == Found(cache, itemId, key, other)
    ensures forall msgs :: Found(Seeded(cache, save.itemId, msgs, save.live), itemId, key, other)
                        == if itemId == save.itemId then "" else Found(cache, itemId, key, other)
  {
  }

  // ---------------------------------------------------------------- the object

  class HookMessages {
    var hookMsgs: Cache
    var saves: seq<Save>
    var wake: bool  // the one-place wake channel

    constructor ()
      ensures hookMsgs == map[] && saves == [] && !wake
    {
      hookMsgs, saves, wake := map[], [], false;
    }

    method SeedHookMessages(itemId: string, msgs: Messages, live: Extract)
      modifies this`hookMsgs
      ensures hookMsgs == Seeded(old(hookMsgs), itemId, msgs, live)
    {
      if itemId == "" {
        return;
      }
      if !OwnedBy(hookMsgs, itemId, live) {
        hookMsgs := hookMsgs[itemId := Entry(live, msgs)];
        return;
      }
      var have := hookMsgs[itemId].msgs;
      var todo := msgs.Keys;
      ghost var before := have;
      assert have == WithMissing(before, map[]);
      while todo != {}
        invariant todo <= msgs.Keys
        invariant have == WithMissing(before, map key | key in msgs.Keys - todo :: msgs[key])
      {
        var key :| key in todo;
        todo := todo - {key};
        if msgs[key] != "" && key !in have {
          have := have[key := msgs[key]];
        }
      }
      assert (map key | key in msgs.Keys - {} :: msgs[key]) == msgs;
      hookMsgs := hookMsgs[itemId := Entry(live, have)];
    }

    method LookupHookMessage(itemId: string, key: string, live: Extract) returns (msg: string)
      ensures msg == Found(hookMsgs, itemId, key, live)
    {
      if itemId == "" || key == "" {
        return "";
      }
      if !OwnedBy(hookMsgs, itemId, live) || key !in hookMsgs[itemId].msgs {
        return "";
      }
      return hookMsgs[itemId].msgs[key];
    }

    method StoreHookMessage(itemId: string, key: string, msg: string, live: Extract)
      modifies this
      ensures var save := Save(itemId, key, msg, live);
              && hookMsgs == Stored(old(hookMsgs), save)
              && saves == old(saves) + (if Accepts(old(hookMsgs), save) then [save] else [])
              && wake == (old(wake) || Accepts(old(hookMsgs), save))
    {
      if itemId == "" || key == "" || msg == "" {
        return;
      }
      if itemId in hookMsgs && hookMsgs[itemId].live != live {
        return;
      }
      if itemId !in hookMsgs {
        hookMsgs := hookMsgs[itemId := Entry(live, map[])];
      }
      hookMsgs := hookMsgs[itemId := Entry(live, hookMsgs[itemId].msgs[key := msg])];
      saves := saves + [Save(itemId, key, msg, live)];
      wake := true;
    }

    method DropHookMessages(itemId: string, live: Extract)
      modifies this`hookMsgs
      ensures hookMsgs == Dropped(old(hookMsgs), itemId, live)
    {
      if itemId == "" {
        return;
      }
      if OwnedBy(hookMsgs, itemId, live) {
        hookMsgs := hookMsgs - {itemId};
      }
    }

    method DrainHookMessages() returns (taken: seq<Save>)
      modifies this`saves
      ensures taken == old(saves) && saves == []
    {
      taken := saves;
      saves := [];
    }
  }
}
