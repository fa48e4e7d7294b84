/** The notices that announce a held post: to the list's owners and moderators, each once,
    and to the sender if the list wants it. */
module HeldNotices {
  import opened Model
  import opened QueueTable
  import opened SqliteStore
  import opened FanOut

  /** The texts of the notices: to a moderator, with the held post; to the sender. */
  type ModeratorText = (List, HeldMessage, string) -> string
  type SenderText = (List, HeldMessage) -> string

  /** A notice of the list itself: it bounces to the list, and nobody is its poster. */
  function NoticeRow(l: List, to: string, body: string, clock: Time): QueuedMessage {
    NewRow(l.id, l.Address(), to, body, l.Address(), "", clock)
  }

  ghost predicate IsModerator(owners: set<(Id, Id)>, moderators: set<(Id, Id)>, l: List, id: Id) {
    (l.id, id) in owners || (l.id, id) in moderators
  }

  /** The rows a held post must leave in the queue, by subscriber. */
  ghost function ModeratorRows(emails: map<Id, string>, owners: set<(Id, Id)>, moderators: set<(Id, Id)>,
                               l: List, m: HeldMessage, text: ModeratorText): map<Id, QueuedMessage> {
    map id | id in emails && IsModerator(owners, moderators, l, id) ::
      NoticeRow(l, emails[id], text(l, m, emails[id]), 0)
  }

  /** `emails` are the addresses of different known owners and moderators `ids`; `seen` are
      those looked up so far. */
  ghost predicate Addressed(store: Store, l: List, seen: set<Id>, emails: seq<string>, ids: seq<Id>)
    reads store`subscribers, store`owners, store`moderators
  {
    && |emails| == |ids| && (forall i, j :: 0 <= i < j < |ids| ==> ids[i] != ids[j])
    && forall i :: 0 <= i < |ids| ==>
         && ids[i] in seen && ids[i] in store.subscribers && emails[i] == store.subscribers[ids[i]]
         && IsModerator(store.owners, store.moderators, l, ids[i])
  }

  /** None that is known was passed over. */
  ghost predicate NoneSkipped(store: Store, seen: set<Id>, ids: seq<Id>)
    reads store`subscribers
  {
    forall id :: id in seen && id in store.subscribers ==> id in ids
  }

  lemma AddressedMore(store: Store, l: List, seen: set<Id>, emails: seq<string>, ids: seq<Id>, id: Id)
    requires Addressed(store, l, seen, emails, ids) && id !in seen
    ensures Addressed(store, l, seen + {id}, emails, ids)
    ensures id in store.subscribers && IsModerator(store.owners, store.moderators, l, id) ==>
      Addressed(store, l, seen + {id}, emails + [store.subscribers[id]], ids + [id])
    ensures NoneSkipped(store, seen, ids) ==> NoneSkipped(store, seen + {id}, ids + [id])
    ensures NoneSkipped(store, seen, ids) && id !in store.subscribers ==> NoneSkipped(store, seen + {id}, ids)
  {
  }

  lemma NobodyAddressed(store: Store, l: List)
    ensures Addressed(store, l, {}, [], []) && NoneSkipped(store, {}, [])
  {
  }

  lemma AddressedRow(store: Store, l: List, seen: set<Id>, emails: seq<string>, ids: seq<Id>, i: nat,
                     m: HeldMessage, text: ModeratorText)
    requires Addressed(store, l, seen, emails, ids) && i < |ids|
    ensures var rows := ModeratorRows(store.subscribers, store.owners, store.moderators, l, m, text);
      && i < |emails| && ids[i] !in ids[..i] && ids[i] in rows
      && rows[ids[i]] == NoticeRow(l, emails[i], text(l, m, emails[i]), 0)
  {
  }

  lemma AllAddressed(store: Store, l: List, seen: set<Id>, ids: seq<Id>, m: HeldMessage, text: ModeratorText)
    requires NoneSkipped(store, seen, ids)
    requires forall id :: IsModerator(store.owners, store.moderators, l, id) ==> id in seen
    ensures forall id :: id in ModeratorRows(store.subscribers, store.owners, store.moderators, l, m, text) ==>
      id in ids
  {
  }

  class Notifier {
    const store: Store
    const moderatorText: ModeratorText
    const senderText: SenderText

    constructor (store: Store, moderatorText: ModeratorText, senderText: SenderText)
      ensures this.store == store && this.moderatorText == moderatorText && this.senderText == senderText
    {
      this.store, this.moderatorText, this.senderText := store, moderatorText, senderText;
    }

    /** Looks up the holders of one role who were not looked up before. */
    method Add(l: List, holders: seq<Id>, seen0: set<Id>, emails0: seq<string>, ghost ids0: seq<Id>)
      returns (seen: set<Id>, emails: seq<string>, ghost ids: seq<Id>)
      requires Addressed(store, l, seen0, emails0, ids0)
      requires forall id :: id in holders ==> IsModerator(store.owners, store.moderators, l, id)
      modifies store`faults, store`calls
      ensures store.faults >= old(store.faults) && old(store.calls) <= store.calls
      ensures Addressed(store, l, seen, emails, ids) && seen == seen0 + set id | id in holders
      ensures store.faults == old(store.faults) && NoneSkipped(store, seen0, ids0) ==> NoneSkipped(store, seen, ids)
    {
      hide Addressed, NoneSkipped, IsModerator;
      seen, emails, ids := seen0, emails0, ids0;
      for i := 0 to |holders|
        invariant store.faults >= old(store.faults) && old(store.calls) <= store.calls
        invariant Addressed(store, l, seen, emails, ids) && seen == seen0 + set id | id in holders[..i]
        invariant store.faults == old(store.faults) && NoneSkipped(store, seen0, ids0) ==> NoneSkipped(store, seen, ids)
      {
        var id := holders[i];
        assert id in holders && holders[..i + 1] == holders[..i] + [id];
        if id !in seen {
          AddressedMore(store, l, seen, emails, ids, id);
          seen := seen + {id};
          var email := store.GetSubscriberByID(id);
          if email.Some? {
            emails, ids := emails + [email.value], ids + [id];
          }
        }
      }
      assert holders[..|holders|] == holders;
    }

    /** The addresses of all owners and moderators, each once, whatever roles they hold. */
    method Moderators(l: List) returns (emails: seq<string>, seen: set<Id>, ghost ids: seq<Id>)
      modifies store`faults, store`calls
      ensures store.faults >= old(store.faults) && old(store.calls) < store.calls
      ensures Addressed(store, l, seen, emails, ids)
      ensures store.faults == old(store.faults) ==>
        && NoneSkipped(store, seen, ids)
        && forall id :: IsModerator(store.owners, store.moderators, l, id) ==> id in seen
    {
      hide Addressed, NoneSkipped;
      NobodyAddressed(store, l);
      seen, emails, ids := {}, [], [];
      var ok, holders := store.ListOwners(l.id);
      if ok {
        seen, emails, ids := Add(l, holders, seen, emails, ids);
      }
      ok, holders := store.ListModerators(l.id);
      if ok {
        seen, emails, ids := Add(l, holders, seen, emails, ids);
      }
    }

    /** Queues a notice for every owner and moderator. `found` are those whose address was
        found, and `ids` those whose notice was queued; it stops with an error at the first
        that cannot be queued. Without failures they are all of them. */
    method NotifyModerators(l: List, m: HeldMessage) returns (ok: bool, ghost ids: seq<Id>, ghost found: seq<Id>)
      requires FreshIds(store.queue, store.nextQueueId)
      modifies store`queue, store`nextQueueId, store`faults, store`calls
      ensures FreshIds(store.queue, store.nextQueueId)
      ensures store.faults >= old(store.faults)
      ensures var rows := ModeratorRows(store.subscribers, store.owners, store.moderators, l, m, moderatorText);
        && Grown(old(store.queue), old(store.nextQueueId), store.queue, store.nextQueueId, ids, rows)
        && (store.faults == old(store.faults) ==> ok && forall id :: id in rows ==> id in ids)
      ensures ids <= found && (ok <==> ids == found) && old(store.calls) < store.calls
      ensures !ok ==> !store.calls[|store.calls| - 1]
      ensures ok && ids != [] ==> store.calls[|store.calls| - 1]
    {
      hide Addressed, NoneSkipped, IsModerator, ModeratorRows, Grown, FreshIds;
      ghost var rows := ModeratorRows(store.subscribers, store.owners, store.moderators, l, m, moderatorText);
      var emails, seen;
      emails, seen, found := Moderators(l);
      if store.faults == old(store.faults) {
        AllAddressed(store, l, seen, found, m, moderatorText);
      }
      ids := [];
      GrownStart(store.queue, store.nextQueueId, rows);
      GrownFresh(store.queue, store.nextQueueId, store.queue, store.nextQueueId, ids, rows);
      SameLength(store, l, seen, emails, found);
      for i := 0 to |emails|
        invariant store.faults >= old(store.faults) && old(store.calls) < store.calls && ids == found[..i]
        invariant i > 0 ==> store.calls[|store.calls| - 1]
        invariant FreshIds(store.queue, store.nextQueueId)
        invariant Grown(old(store.queue), old(store.nextQueueId), store.queue, store.nextQueueId, ids, rows)
        invariant store.faults == old(store.faults) ==> forall id :: id in rows ==> id in found
      {
        AddressedRow(store, l, seen, emails, found, i, m, moderatorText);
        ghost var queue, next := store.queue, store.nextQueueId;
        var clock: Time := *;
        ok := store.Enqueue(l.id, l.Address(), emails[i], moderatorText(l, m, emails[i]), l.Address(), "", clock);
        if !ok {
          return;
        }
        GrowOne(old(store.queue), old(store.nextQueueId), queue, next, ids, rows, found[i],
                store.queue[next]);
        ids := ids + [found[i]];
        GrownFresh(old(store.queue), old(store.nextQueueId), store.queue, store.nextQueueId, ids, rows);
      }
      assert found[..|found|] == found;
      ok := true;
    }

    lemma SameLength(store: Store, l: List, seen: set<Id>, emails: seq<string>, ids: seq<Id>)
      requires Addressed(store, l, seen, emails, ids)
      ensures |emails| == |ids|
    {
    }

    method NotifySenderHeld(l: List, m: HeldMessage, clock: Time) returns (ok: bool)
      modifies store`queue, store`nextQueueId, store`faults, store`calls
      ensures store.faults == if ok then old(store.faults) else old(store.faults) + 1
      ensures store.calls == old(store.calls) + [ok]
      ensures store.queue ==
        if ok then old(store.queue)[old(store.nextQueueId) := NoticeRow(l, m.sender, senderText(l, m), clock)]
        else old(store.queue)
      ensures store.nextQueueId == if ok then old(store.nextQueueId) + 1 else old(store.nextQueueId)
    {
      ok := store.Enqueue(l.id, l.Address(), m.sender, senderText(l, m), l.Address(), "", clock);
    }

    /** From `before` to `after` the queue gained one notice for each of the owners and
        moderators `ids` and, if `sender`, one for the sender; and nothing else. */
    ghost predicate AnnouncedTo(l: List, m: HeldMessage, clock: Time,
                                before: Queue, from: Id, after: Queue, to: Id, ids: seq<Id>, sender: bool)
      reads store`subscribers, store`owners, store`moderators
    {
      var rows := ModeratorRows(store.subscribers, store.owners, store.moderators, l, m, moderatorText);
      var last := from + |ids|;
      if sender then
        && to == last + 1 && last in after && after[last] == NoticeRow(l, m.sender, senderText(l, m), clock)
        && Grown(before, from, after - {last}, last, ids, rows)
      else Grown(before, from, after, to, ids, rows)
    }

    /** Every known owner and moderator has a notice, and the sender if the list is set so. */
    ghost predicate Announced(l: List, m: HeldMessage, clock: Time,
                              before: Queue, from: Id, after: Queue, to: Id, ids: seq<Id>)
      reads store`subscribers, store`owners, store`moderators
    {
      var rows := ModeratorRows(store.subscribers, store.owners, store.moderators, l, m, moderatorText);
      && (forall id :: id in rows ==> id in ids)
      && AnnouncedTo(l, m, clock, before, from, after, to, ids, l.settings.senderHeldNotice)
    }

    /** Announces a post that was just held. It stops with an error at the first notice it
        cannot queue, and without failures it announces it to all. */
    method Announce(l: List, m: HeldMessage, clock: Time) returns (ok: bool, ghost ids: seq<Id>, ghost found: seq<Id>)
      requires FreshIds(store.queue, store.nextQueueId)
      modifies store`queue, store`nextQueueId, store`faults, store`calls
      ensures FreshIds(store.queue, store.nextQueueId)
      ensures store.faults >= old(store.faults)
      ensures AnnouncedTo(l, m, clock, old(store.queue), old(store.nextQueueId), store.queue, store.nextQueueId, ids,
                          ok && l.settings.senderHeldNotice)
      ensures store.faults == old(store.faults) ==>
        ok && Announced(l, m, clock, old(store.queue), old(store.nextQueueId), store.queue, store.nextQueueId, ids)
      ensures ids <= found && (ok ==> ids == found) && old(store.calls) < store.calls
      ensures !ok ==> !store.calls[|store.calls| - 1] && (ids != found || l.settings.senderHeldNotice)
      ensures ok && store.nextQueueId != old(store.nextQueueId) ==> store.calls[|store.calls| - 1]
    {
      hide Grown, ModeratorRows;
      ok, ids, found := NotifyModerators(l, m);
      ghost var rows := ModeratorRows(store.subscribers, store.owners, store.moderators, l, m, moderatorText);
      GrownTo(old(store.queue), old(store.nextQueueId), store.queue, store.nextQueueId, ids, rows);
      if ok && l.settings.senderHeldNotice {
        ghost var queue, last := store.queue, store.nextQueueId;
        ok := NotifySenderHeld(l, m, clock);
        if ok {
          assert store.queue - {last} == queue;
        }
      }
    }

    lemma GrownTo(before: Queue, from: Id, after: Queue, to: Id, ids: seq<Id>, rows: map<Id, QueuedMessage>)
      requires Grown(before, from, after, to, ids, rows)
      ensures to == from + |ids|
    {
    }
  }
}
