/** The digest worker: claim the window, then queue the digest for digest members. */
module DigestWorkers {
  import opened Wrappers
  import opened Model
  import opened QueueTable
  import opened ArchiveTable
  import opened SqliteStore
  import opened DigestSchedule
  import opened FanOut
  import opened Verp

  /** The text of a digest of some entries, for each recipient. */
  type Builder = (List, map<Id, ArchiveEntry>) -> (string -> string)

  /** The snapshot `l` of a list still has its watermark, as far as the guard can tell. */
  predicate IsCurrent(l: List, lists: map<Id, List>) {
    l.id in lists && Matches(lists[l.id].lastDigestSentAt, l.lastDigestSentAt)
  }

  predicate IsDue(l: List, now: Time) { DigestDue(l.lastDigestSentAt, l.settings.digestFrequency, now) }

  ghost predicate OnlyDueMoved(before: map<Id, List>, after: map<Id, List>, now: Time) {
    && after.Keys == before.Keys
    && forall id :: id in before ==>
         || after[id] == before[id]
         || (IsDue(before[id], now) && after[id] == before[id].(lastDigestSentAt := Some(now)))
  }

  /** The keys of rows that belong to subscriptions `ids` of list `l`. */
  function Pairs(l: Id, ids: seq<Id>): seq<(Id, Id)> {
    seq(|ids|, i requires 0 <= i < |ids| => (l, ids[i]))
  }

  /** The queue grew for earlier lists, and then for list `l`. */
  lemma GrownTwice(q0: Queue, n0: Id, q1: Queue, n1: Id, origin: seq<(Id, Id)>, due: map<(Id, Id), QueuedMessage>,
                   q2: Queue, n2: Id, l: Id, ids: seq<Id>, rows: map<Id, QueuedMessage>)
    requires FreshIds(q0, n0) && Grown(q0, n0, q1, n1, origin, due) && Grown(q1, n1, q2, n2, ids, rows)
    requires forall k :: k in rows ==> (l, k) in due && due[(l, k)] == rows[k]
    requires forall p :: p in origin ==> p.0 != l
    ensures Grown(q0, n0, q2, n2, origin + Pairs(l, ids), due)
  {
    var keys := origin + Pairs(l, ids);
    forall i, j | 0 <= i < j < |keys| ensures keys[i] != keys[j] {
      assert i < |origin| ==> keys[i] in origin;
    }
    forall i | 0 <= i < |keys|
      ensures keys[i] in due && q2[n0 + i] == due[keys[i]].(nextAttempt := q2[n0 + i].nextAttempt)
    {
      if i < |origin| {
        assert q2[n0 + i] == q1[n0 + i];
      } else {
        assert keys[i] == (l, ids[i - |origin|]) && q2[n0 + i] == q2[n1 + (i - |origin|)];
      }
    }
  }

  lemma GrownByNothing(before: Queue, from: Id, after: Queue, to: Id,
                       rows: map<Id, QueuedMessage>, rows': map<Id, QueuedMessage>)
    requires Grown(before, from, after, to, [], rows)
    ensures Grown(before, from, after, to, [], rows')
  {
  }

  ghost predicate DistinctLists(all: seq<List>) { forall i, j :: 0 <= i < j < |all| ==> all[i].id != all[j].id }

  /** From the `n`th on the lists are still as they were read. */
  ghost predicate AsRead(all: seq<List>, n: nat, lists: map<Id, List>) {
    forall k :: n <= k < |all| ==> all[k].id in lists && lists[all[k].id] == all[k]
  }

  /** List `l` was left alone, or its watermark moved to `now`, as its digest was due. */
  ghost predicate MovedOnly(l: List, now: Time, before: map<Id, List>, after: map<Id, List>) {
    after == before || (IsDue(l, now) && after == before[l.id := l.(lastDigestSentAt := Some(now))])
  }

  lemma MoveOne(all: seq<List>, n: nat, lists0: map<Id, List>, lists: map<Id, List>, lists': map<Id, List>, now: Time)
    requires DistinctLists(all) && n < |all| && AsRead(all, n, lists) && AsRead(all, 0, lists0)
    requires OnlyDueMoved(lists0, lists, now) && MovedOnly(all[n], now, lists, lists')
    ensures AsRead(all, n + 1, lists') && OnlyDueMoved(lists0, lists', now)
  {
  }

  lemma WatermarkKeepsLists(lists: map<Id, List>, id: Id, now: Time)
    requires ValidLists(lists) && id in lists
    ensures ValidLists(lists[id := lists[id].(lastDigestSentAt := Some(now))])
  {
  }

  lemma ReceivedSinceIs(archive: map<Id, ArchiveEntry>, listId: Id, since: Time)
    ensures ReceivedSince(archive, listId, since) ==
      map id | id in archive && archive[id].listId == listId && archive[id].receivedAt > since :: archive[id]
  {
  }

  class DigestWorker {
    const store: Store
    const build: Builder

    constructor (store: Store, build: Builder)
      ensures this.store == store && this.build == build
    {
      this.store, this.build := store, build;
    }

    /** The body of the digest loop, for one subscription. */
    method QueueDigestFor(l: List, digest: string -> string, sub: Subscription) returns (queued: bool)
      requires sub.listId == l.id
      modifies store`queue, store`nextQueueId, store`faults, store`calls
      ensures queued ==>
        && Delivers(store.subscribers, l, Digest, sub)
        && var email := store.subscribers[sub.subscriberId];
           exists clock: Time :: store.queue == old(store.queue)[old(store.nextQueueId) :=
             RowTo(l, email, digest(email), "").(nextAttempt := clock)]
      ensures !queued ==> store.queue == old(store.queue)
      ensures store.nextQueueId == old(store.nextQueueId) + if queued then 1 else 0
      ensures store.faults >= old(store.faults)
      ensures store.faults == old(store.faults) ==> (queued <==> Delivers(store.subscribers, l, Digest, sub))
    {
      queued := false;
      if sub.status != Active || sub.deliveryMode != Digest {
        return;
      }
      var email := store.GetSubscriberByID(sub.subscriberId);
      if email.None? {
        return;
      }
      var verp := EncodeVERP(l.Address(), email.value);
      if verp.None? {
        return;
      }
      var clock: Time := *;
      queued := store.Enqueue(l.id, l.Address(), email.value, digest(email.value), verp.value, "", clock);
    }

    method QueueDigest(l: List, digest: string -> string, subs: seq<Subscription>, ghost rows: map<Id, QueuedMessage>)
      returns (ghost ids: seq<Id>)
      requires FreshIds(store.queue, store.nextQueueId) && Listed(subs, store.subscriptions, l)
      requires rows == DigestRows(store.subscriptions, store.subscribers, l, digest)
      modifies store`queue, store`nextQueueId, store`faults, store`calls
      ensures Grown(old(store.queue), old(store.nextQueueId), store.queue, store.nextQueueId, ids, rows)
      ensures |Missed(subs, |subs|, rows, ids)| <= store.faults - old(store.faults)
    {
      hide Delivers, DigestRows, RowTo, EncodeVERP, Grown, FreshIds, Listed, Missed, Untouched;
      ids := [];
      GrownStart(store.queue, store.nextQueueId, rows);
      NothingMissed(subs, rows);
      for i := 0 to |subs|
        invariant Untouched(subs, i, ids)
        invariant Grown(old(store.queue), old(store.nextQueueId), store.queue, store.nextQueueId, ids, rows)
        invariant |Missed(subs, i, rows, ids)| <= store.faults - old(store.faults)
      {
        var sub := subs[i];
        NextListed(subs, store.subscriptions, l, i, ids);
        MissedNext(subs, i, rows, ids);
        DigestRowOf(store.subscriptions, store.subscribers, l, digest, sub.id);
        ghost var queue, next := store.queue, store.nextQueueId;
        var queued := QueueDigestFor(l, digest, sub);
        if queued {
          GrowOne(old(store.queue), old(store.nextQueueId), queue, next, ids, rows, sub.id, store.queue[next]);
          ids := ids + [sub.id];
        }
      }
    }

    /** One list's digest, from the snapshot `l`. The worker claims at most the window of
        its snapshot; only a claim that found posts queues anything, and then, unless the
        store failed, one row for each digest member. */
    method DigestList(l: List, now: Time) returns (claimed: bool, ghost ids: seq<Id>)
      requires store.Valid()
      modifies store`queue, store`nextQueueId, store`lists, store`faults, store`calls
      ensures store.Valid() && store.faults >= old(store.faults)
      ensures claimed ==> IsCurrent(l, old(store.lists))
      ensures store.lists ==
        if claimed then old(store.lists)[l.id := old(store.lists)[l.id].(lastDigestSentAt := Some(now))]
        else old(store.lists)
      ensures var entries := ReceivedSince(store.archive, l.id, SinceWatermark(l.lastDigestSentAt));
        && Grown(old(store.queue), old(store.nextQueueId), store.queue, store.nextQueueId, ids,
                 DigestRows(store.subscriptions, store.subscribers, l, build(l, entries)))
        && (!claimed || entries == map[] ==> ids == [])
        && (store.faults == old(store.faults) ==>
              && (claimed <==> IsCurrent(l, old(store.lists)))
              && (claimed && entries != map[] ==>
                    forall id :: id in DigestRows(store.subscriptions, store.subscribers, l, build(l, entries)) ==>
                      id in ids))
    {
      hide RowTo, DigestRows, EncodeVERP, Grown, ValidSubscriptions, ValidLists, ReceivedSince;
      ids := [];
      claimed := false;
      ghost var all := ReceivedSince(store.archive, l.id, SinceWatermark(l.lastDigestSentAt));
      ghost var rows := DigestRows(store.subscriptions, store.subscribers, l, build(l, all));
      GrownStart(store.queue, store.nextQueueId, rows);
      var ok, entries := store.ListArchiveSince(l.id, SinceWatermark(l.lastDigestSentAt));
      if !ok {
        return;
      }
      ReceivedSinceIs(store.archive, l.id, SinceWatermark(l.lastDigestSentAt));
      ok, claimed := store.AdvanceDigestWatermark(l.id, l.lastDigestSentAt, now);
      if claimed {
        WatermarkKeepsLists(old(store.lists), l.id, now);
      }
      if !claimed || |entries| == 0 {
        return;
      }
      ids := QueueDigestForList(l, build(l, entries), rows);
    }

    method QueueDigestForList(l: List, digest: string -> string, ghost rows: map<Id, QueuedMessage>)
      returns (ghost ids: seq<Id>)
      requires store.Valid() && rows == DigestRows(store.subscriptions, store.subscribers, l, digest)
      modifies store`queue, store`nextQueueId, store`faults, store`calls
      ensures store.Valid() && store.faults >= old(store.faults)
      ensures Grown(old(store.queue), old(store.nextQueueId), store.queue, store.nextQueueId, ids, rows)
      ensures store.faults == old(store.faults) ==> forall id :: id in rows ==> id in ids
    {
      hide DigestRows, Grown, FreshIds, ValidLists, ValidSubscriptions, Lists, Listed, RowsOfList, Missed, Missing;
      ids := [];
      GrownStart(store.queue, store.nextQueueId, rows);
      DigestRowsOfList(store.subscriptions, store.subscribers, l, digest);
      var ok, subs := store.ListSubscriptions(l.id);
      if ok {
        ListsAll(store, l, subs);
        ids := QueueDigest(l, digest, subs, rows);
        GrownFresh(old(store.queue), old(store.nextQueueId), store.queue, store.nextQueueId, ids, rows);
        MissingAreMissed(store.subscriptions, l, subs, rows, ids);
        NoneMissing(rows, ids);
      }
    }

    /** The rows that the digest of list `l` must leave in the queue: none without posts. */
    ghost function RowsDue(l: List): map<Id, QueuedMessage>
      reads store`archive, store`subscriptions, store`subscribers
    {
      var entries := ReceivedSince(store.archive, l.id, SinceWatermark(l.lastDigestSentAt));
      if entries == map[] then map[] else DigestRows(store.subscriptions, store.subscribers, l, build(l, entries))
    }

    ghost function RowsDueAt(l: List, now: Time): map<Id, QueuedMessage>
      reads store`archive, store`subscriptions, store`subscribers
    {
      if IsDue(l, now) then RowsDue(l) else map[]
    }

    /** The rows that a run over these lists must leave in the queue, by list and
        subscription. */
    ghost function AllRowsDue(lists: map<Id, List>, now: Time): map<(Id, Id), QueuedMessage>
      reads store`archive, store`subscriptions, store`subscribers
    {
      map l, k | l in lists && k in RowsDueAt(lists[l], now) :: (l, k) := RowsDueAt(lists[l], now)[k]
    }

    /** One list of a run: if its digest is due the window is claimed and the rows queued. */
    method ProcessList(l: List, now: Time) returns (ghost ids: seq<Id>)
      requires store.Valid() && l.id in store.lists && store.lists[l.id] == l
      modifies store`queue, store`nextQueueId, store`lists, store`faults, store`calls
      ensures store.Valid() && store.faults >= old(store.faults)
      ensures MovedOnly(l, now, old(store.lists), store.lists)
      ensures Grown(old(store.queue), old(store.nextQueueId), store.queue, store.nextQueueId, ids, RowsDueAt(l, now))
      ensures store.faults == old(store.faults) ==>
        && (IsDue(l, now) ==> l.id in store.lists && store.lists[l.id] == l.(lastDigestSentAt := Some(now)))
        && (forall k :: k in RowsDueAt(l, now) ==> k in ids)
    {
      hide ValidSubscriptions, ValidLists, FreshIds, Grown, DigestRows, ReceivedSince;
      ids := [];
      GrownStart(store.queue, store.nextQueueId, RowsDueAt(l, now));
      if DigestDue(l.lastDigestSentAt, l.settings.digestFrequency, now) {
        var claimed;
        claimed, ids := DigestList(l, now);
        ghost var entries := ReceivedSince(store.archive, l.id, SinceWatermark(l.lastDigestSentAt));
        if entries == map[] {
          GrownByNothing(old(store.queue), old(store.nextQueueId), store.queue, store.nextQueueId,
                         DigestRows(store.subscriptions, store.subscribers, l, build(l, entries)), map[]);
        }
      }
    }

    /** If its digest was due, the list's window is claimed and its digest queued. */
    ghost predicate IsDone(l: List, now: Time, lists: map<Id, List>, origin: seq<(Id, Id)>)
      reads store`archive, store`subscriptions, store`subscribers
    {
      && (IsDue(l, now) ==> l.id in lists && lists[l.id] == l.(lastDigestSentAt := Some(now)))
      && (forall k :: k in RowsDueAt(l, now) ==> (l.id, k) in origin)
    }

    ghost predicate AllDone(all: seq<List>, n: nat, now: Time, lists: map<Id, List>, origin: seq<(Id, Id)>)
      requires n <= |all|
      reads store`archive, store`subscriptions, store`subscribers
    {
      forall k :: 0 <= k < n ==> IsDone(all[k], now, lists, origin)
    }

    lemma DoOne(all: seq<List>, n: nat, now: Time, lists: map<Id, List>, origin: seq<(Id, Id)>,
                lists': map<Id, List>, ids: seq<Id>)
      requires DistinctLists(all) && n < |all| && AllDone(all, n, now, lists, origin)
      requires MovedOnly(all[n], now, lists, lists')
      requires IsDue(all[n], now) ==>
        all[n].id in lists' && lists'[all[n].id] == all[n].(lastDigestSentAt := Some(now))
      requires forall k :: k in RowsDueAt(all[n], now) ==> k in ids
      ensures AllDone(all, n + 1, now, lists', origin + Pairs(all[n].id, ids))
    {
      hide RowsDueAt, IsDue;
      var origin' := origin + Pairs(all[n].id, ids);
      forall k | 0 <= k < n + 1 ensures IsDone(all[k], now, lists', origin') {
        if k < n {
          assert IsDone(all[k], now, lists, origin);
        } else {
          forall sub | sub in RowsDueAt(all[n], now) ensures (all[n].id, sub) in origin' {
            var i :| 0 <= i < |ids| && ids[i] == sub;
            assert Pairs(all[n].id, ids)[i] == (all[n].id, sub);
          }
        }
      }
    }

    /** No list from the `n`th on has a row yet. */
    ghost predicate NotYet(all: seq<List>, n: nat, origin: seq<(Id, Id)>) {
      forall k, p :: n <= k < |all| && p in origin ==> p.0 != all[k].id
    }

    lemma GrowList(all: seq<List>, n: nat, now: Time, lists: map<Id, List>, q0: Queue, n0: Id, q1: Queue, n1: Id,
                   origin: seq<(Id, Id)>, q2: Queue, n2: Id, ids: seq<Id>)
      requires DistinctLists(all) && n < |all| && AsRead(all, 0, lists) && NotYet(all, n, origin)
      requires FreshIds(q0, n0) && Grown(q0, n0, q1, n1, origin, AllRowsDue(lists, now))
      requires Grown(q1, n1, q2, n2, ids, RowsDueAt(all[n], now))
      ensures Grown(q0, n0, q2, n2, origin + Pairs(all[n].id, ids), AllRowsDue(lists, now))
      ensures NotYet(all, n + 1, origin + Pairs(all[n].id, ids))
    {
      hide Grown, FreshIds, RowsDueAt;
      GrownTwice(q0, n0, q1, n1, origin, AllRowsDue(lists, now), q2, n2, all[n].id, ids, RowsDueAt(all[n], now));
    }

    /** The list's digest of its posts since the watermark is queued for all its digest
        members, if there are any such posts. */
    ghost predicate DigestSent(l: List, before: Queue, after: Queue)
      reads store`archive, store`subscriptions, store`subscribers
    {
      var since := if l.lastDigestSentAt.None? then 0 else l.lastDigestSentAt.value;
      var entries := map e | e in store.archive && store.archive[e].listId == l.id
                             && store.archive[e].receivedAt > since :: store.archive[e];
      entries != map[] ==>
        AllMembersGetDigest(store.subscriptions, store.subscribers, l, build(l, entries), before, after)
    }

    /** Every new row takes a digest to a digest member of one of the lists. */
    ghost predicate OnlyDigestsSent(lists: map<Id, List>, before: Queue, after: Queue)
      reads store`subscriptions, store`subscribers
    {
      forall r :: r in after && r !in before ==>
        && after[r].originalSender == ""
        && exists l, k :: l in lists && k in store.subscriptions
             && store.subscriptions[k].subscriberId in store.subscribers
             && IsMailTo(after[r], lists[l], Digest, store.subscriptions[k],
                         store.subscribers[store.subscriptions[k].subscriberId])
    }

    lemma DueRowIsMail(all: map<Id, List>, now: Time, key: (Id, Id), row: QueuedMessage)
      requires key in AllRowsDue(all, now) && row == AllRowsDue(all, now)[key].(nextAttempt := row.nextAttempt)
      ensures var (l, k) := key;
        && l in all && k in store.subscriptions && store.subscriptions[k].subscriberId in store.subscribers
        && row.originalSender == ""
        && IsMailTo(row, all[l], Digest, store.subscriptions[k],
                    store.subscribers[store.subscriptions[k].subscriberId])
    {
      hide EncodeVERP, IsDue, ReceivedSince;
    }

    lemma NothingElseSent(now: Time, all: map<Id, List>, before: Queue, from: Id, after: Queue, to: Id,
                          origin: seq<(Id, Id)>)
      requires FreshIds(before, from) && Grown(before, from, after, to, origin, AllRowsDue(all, now))
      ensures OnlyDigestsSent(all, before, after)
    {
      hide Grown, FreshIds, AllRowsDue, IsMailTo;
      forall r | r in after && r !in before
        ensures after[r].originalSender == ""
        ensures exists l, k :: l in all && k in store.subscriptions
                  && store.subscriptions[k].subscriberId in store.subscribers
                  && IsMailTo(after[r], all[l], Digest, store.subscriptions[k],
                              store.subscribers[store.subscriptions[k].subscriberId])
      {
        var key := KeyOf(before, from, after, to, origin, AllRowsDue(all, now), r);
        DueRowIsMail(all, now, key, after[r]);
      }
    }

    lemma DoneIsSent(l: List, now: Time, all: map<Id, List>, lists: map<Id, List>,
                     before: Queue, from: Id, after: Queue, to: Id, origin: seq<(Id, Id)>)
      requires l.id in all && all[l.id] == l && IsDue(l, now) && IsDone(l, now, lists, origin)
      requires FreshIds(before, from) && Grown(before, from, after, to, origin, AllRowsDue(all, now))
      ensures DigestSent(l, before, after)
    {
      hide Grown, FreshIds, DigestRows, AllMembersGetDigest;
      var entries := ReceivedSince(store.archive, l.id, SinceWatermark(l.lastDigestSentAt));
      if entries != map[] {
        DigestReachesAll(store.subscriptions, store.subscribers, l, build(l, entries), before, from, after, to, origin,
                         AllRowsDue(all, now));
      }
    }

    /** A run over all lists moves a watermark only to `now`, and only where there was none
        or it was a week old, for a weekly list, or a day, for any other. The queue gains
        nothing but rows of due digests, each at most once: `origin` says, in order, which
        list and subscription each new row is for. Unless the store failed, the watermark
        of every such list moved and its digest is queued for all its digest members. */
    method ProcessDue(now: Time) returns (ghost origin: seq<(Id, Id)>)
      requires store.Valid()
      modifies store`queue, store`nextQueueId, store`lists, store`faults, store`calls
      ensures store.Valid() && OnlyDueMoved(old(store.lists), store.lists, now)
      ensures Grown(old(store.queue), old(store.nextQueueId), store.queue, store.nextQueueId, origin,
                    AllRowsDue(old(store.lists), now))
      ensures store.faults == old(store.faults) ==>
        forall id :: id in old(store.lists) ==> IsDone(old(store.lists)[id], now, store.lists, origin)
      ensures forall id :: id in old(store.lists) ==>
        var l := old(store.lists)[id];
        var due := l.lastDigestSentAt.None? ||
          now - l.lastDigestSentAt.value >= if l.settings.digestFrequency == Weekly then 7 * 24 * HOUR else 24 * HOUR;
        && id in store.lists && (store.lists[id] == l || (due && store.lists[id] == l.(lastDigestSentAt := Some(now))))
        && (store.faults == old(store.faults) && due ==>
              store.lists[id].lastDigestSentAt == Some(now) && DigestSent(l, old(store.queue), store.queue))
      ensures OnlyDigestsSent(old(store.lists), old(store.queue), store.queue)
    {
      hide ValidSubscriptions, ValidLists, FreshIds, AllDone, IsDone, AsRead, OnlyDueMoved, MovedOnly, Grown,
           NotYet, RowsDueAt, AllRowsDue, DistinctLists, DigestSent, OnlyDigestsSent;
      origin := [];
      GrownStart(store.queue, store.nextQueueId, AllRowsDue(store.lists, now));
      var ok, all := store.ListLists();
      NoneYet(all, now);
      for i := 0 to |all|
        invariant store.Valid() && store.faults >= old(store.faults) && (ok || store.faults > old(store.faults))
        invariant OnlyDueMoved(old(store.lists), store.lists, now) && AsRead(all, i, store.lists)
        invariant NotYet(all, i, origin)
        invariant Grown(old(store.queue), old(store.nextQueueId), store.queue, store.nextQueueId, origin,
                        AllRowsDue(old(store.lists), now))
        invariant store.faults == old(store.faults) ==> AllDone(all, i, now, store.lists, origin)
      {
        ghost var lists, queue, next := store.lists, store.queue, store.nextQueueId;
        AsReadAt(all, i, lists);
        ghost var ids := ProcessList(all[i], now);
        MoveOne(all, i, old(store.lists), lists, store.lists, now);
        GrowList(all, i, now, old(store.lists), old(store.queue), old(store.nextQueueId), queue, next, origin,
                 store.queue, store.nextQueueId, ids);
        if store.faults == old(store.faults) {
          DoOne(all, i, now, lists, origin, store.lists, ids);
        }
        origin := origin + Pairs(all[i].id, ids);
      }
      if store.faults == old(store.faults) {
        EachDone(all, now, store.lists, origin);
      }
      NothingElseSent(now, old(store.lists), old(store.queue), old(store.nextQueueId), store.queue,
                      store.nextQueueId, origin);
      AllSent(now, old(store.lists), store.lists, old(store.queue), old(store.nextQueueId), store.queue,
              store.nextQueueId, origin, store.faults == old(store.faults));
    }

    /** What a run did, said without the predicates that the run itself consults. */
    lemma AllSent(now: Time, before: map<Id, List>, after: map<Id, List>,
                  q: Queue, n: Id, q': Queue, n': Id, origin: seq<(Id, Id)>, whole: bool)
      requires ValidLists(before) && OnlyDueMoved(before, after, now)
      requires FreshIds(q, n) && Grown(q, n, q', n', origin, AllRowsDue(before, now))
      requires whole ==> forall id :: id in before ==> IsDone(before[id], now, after, origin)
      ensures forall id :: id in before ==>
        var l := before[id];
        var due := l.lastDigestSentAt.None? ||
          now - l.lastDigestSentAt.value >= if l.settings.digestFrequency == Weekly then 7 * 24 * HOUR else 24 * HOUR;
        && id in after && (after[id] == l || (due && after[id] == l.(lastDigestSentAt := Some(now))))
        && (whole && due ==> after[id].lastDigestSentAt == Some(now) && DigestSent(l, q, q'))
    {
      hide Grown, FreshIds, DigestSent, AllRowsDue, RowsDueAt;
      forall id | id in before && whole && IsDue(before[id], now)
        ensures before[id].id == id && DigestSent(before[id], q, q')
      {
        DoneIsSent(before[id], now, before, after, q, n, q', n', origin);
      }
    }

    lemma NoneYet(all: seq<List>, now: Time)
      requires forall l :: l in all ==> l.id in store.lists && store.lists[l.id] == l
      requires forall i, j :: 0 <= i < j < |all| ==> all[i].id != all[j].id
      ensures DistinctLists(all) && NotYet(all, 0, [])
      ensures AsRead(all, 0, store.lists) && OnlyDueMoved(store.lists, store.lists, now)
      ensures AllDone(all, 0, now, store.lists, [])
    {
    }

    lemma AsReadAt(all: seq<List>, n: nat, lists: map<Id, List>)
      requires AsRead(all, n, lists) && n < |all|
      ensures all[n].id in lists && lists[all[n].id] == all[n]
    {
    }

    lemma EachDone(all: seq<List>, now: Time, lists: map<Id, List>, origin: seq<(Id, Id)>)
      requires AllDone(all, |all|, now, lists, origin)
      ensures forall l :: l in all ==> IsDone(l, now, lists, origin)
    {
      hide IsDone;
    }
  }
}
