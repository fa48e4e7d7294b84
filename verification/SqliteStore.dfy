/** The store: tables behind atomic calls, any of which may fail and then changes nothing. */
module SqliteStore {
  import opened Wrappers
  import opened CallLog
  import opened Model
  import opened QueueTable
  import opened DigestSchedule
  import opened ArchiveTable

  ghost predicate ValidLists(lists: map<Id, List>) {
    && (forall id :: id in lists ==> lists[id].id == id)
    && (forall a, b :: a in lists && b in lists && a != b ==>
          lists[a].listName != lists[b].listName || lists[a].domain != lists[b].domain)
  }

  ghost predicate ValidSubscriptions(subscribers: map<Id, string>, nextSubscriberId: Id,
                                     subscriptions: map<Id, Subscription>, nextSubscriptionId: Id) {
    && FreshIds(subscribers, nextSubscriberId)
    && (forall a, b :: a in subscribers && b in subscribers && subscribers[a] == subscribers[b] ==> a == b)
    && FreshIds(subscriptions, nextSubscriptionId)
    && (forall id :: id in subscriptions ==>
          subscriptions[id].id == id && subscriptions[id].subscriberId in subscribers)
    && (forall a, b :: a in subscriptions && b in subscriptions && a != b ==>
          subscriptions[a].listId != subscriptions[b].listId ||
          subscriptions[a].subscriberId != subscriptions[b].subscriberId)
  }

  ghost predicate DistinctIds(subs: seq<Subscription>) {
    forall i, j :: 0 <= i < j < |subs| ==> subs[i].id != subs[j].id
  }

  /** The keys of the rows that refer to a list. */
  function HeldOf(held: map<Id, HeldMessage>, listId: Id): set<Id> {
    set id | id in held && held[id].listId == listId
  }

  function SubscriptionsOf(subs: map<Id, Subscription>, listId: Id): set<Id> {
    set id | id in subs && subs[id].listId == listId
  }

  function QueuedOf(queue: Queue, listId: Id): set<Id> {
    set id | id in queue && queue[id].listId == listId
  }

  /** A role table without the rows of a list. */
  function RolesWithout(roles: set<(Id, Id)>, listId: Id): set<(Id, Id)> {
    set r | r in roles && r.0 != listId
  }

  lemma FewerSubscriptions(subscribers: map<Id, string>, nextSubscriber: Id,
                           subs: map<Id, Subscription>, next: Id, gone: set<Id>)
    requires ValidSubscriptions(subscribers, nextSubscriber, subs, next)
    ensures ValidSubscriptions(subscribers, nextSubscriber, subs - gone, next)
  {
  }

  /** Neither a count nor a status is part of a key. */
  lemma SameKeys(subscribers: map<Id, string>, nextSubscriber: Id, subs: map<Id, Subscription>, next: Id, id: Id)
    requires ValidSubscriptions(subscribers, nextSubscriber, subs, next) && id in subs
    ensures forall n: nat, status: SubscriptionStatus ::
      ValidSubscriptions(subscribers, nextSubscriber, subs[id := subs[id].(bounceCount := n, status := status)], next)
  {
  }

  lemma FewerRows<T>(table: map<Id, T>, next: Id, gone: set<Id>)
    requires FreshIds(table, next)
    ensures FreshIds(table - gone, next)
  {
  }

  lemma FewerLists(lists: map<Id, List>, gone: Id)
    requires ValidLists(lists)
    ensures ValidLists(lists - {gone})
  {
  }

  predicate Taken(subs: map<Id, Subscription>, listId: Id, subscriberId: Id) {
    exists k :: k in subs && subs[k].listId == listId && subs[k].subscriberId == subscriberId
  }

  function WithText(archive: map<Id, ArchiveEntry>, id: Id, text: string): map<Id, ArchiveEntry>
    requires id in archive
  {
    archive[id := archive[id].(bodyText := text)]
  }

  function WithFtsText(fts: map<Id, FtsRow>, id: Id, text: string): map<Id, FtsRow> {
    if id in fts then fts[id := fts[id].(bodyText := text)] else fts
  }

  lemma BackfillNothing(s: Index, extractText: string -> string)
    ensures Apply(s, Backfill(extractText, {}, None)) == s
  {
    assert WithTexts(s.archive, extractText, {}) == s.archive;
    assert WithFtsTexts(s.archive, s.fts, extractText, {}) == s.fts;
  }

  lemma FullBackfillFills(s: Index, extractText: string -> string)
    ensures var s' := Apply(s, FullBackfill(s, extractText));
      && s'.archive == (map k | k in s.archive ::
           if s.archive[k].bodyText != "" then s.archive[k]
           else s.archive[k].(bodyText := extractText(s.archive[k].body)))
      && s'.fts == (map k | k in s.fts ::
           if !(k in s.archive && s.archive[k].bodyText == "") then s.fts[k]
           else s.fts[k].(bodyText := extractText(s.archive[k].body)))
  {
  }

  /** The two statements for one more entry, of which the second may fail. */
  lemma BackfillOneMore(s: Index, extractText: string -> string, filled: set<Id>, id: Id)
    requires id in Textless(s.archive) && id !in filled
    ensures var s' := Apply(s, Backfill(extractText, filled, None));
      && id in s'.archive
      && var text := extractText(s'.archive[id].body);
         && Apply(s, Backfill(extractText, filled, Some(id))) == Index(WithText(s'.archive, id, text), s'.fts, s.next)
         && Apply(s, Backfill(extractText, filled + {id}, None)) ==
              Index(WithText(s'.archive, id, text), WithFtsText(s'.fts, id, text), s.next)
  {
    var s' := Apply(s, Backfill(extractText, filled, None));
    var text := extractText(s'.archive[id].body);
    assert WithTexts(s.archive, extractText, filled + {id}) == WithText(s'.archive, id, text);
    assert WithFtsTexts(s.archive, s.fts, extractText, filled + {id}) == WithFtsText(s'.fts, id, text);
  }

  /** The subscribers that hold a role on the list, once each, in some order. */
  method Holders(roles: set<(Id, Id)>, listId: Id) returns (ids: seq<Id>)
    ensures forall i, j :: 0 <= i < j < |ids| ==> ids[i] != ids[j]
    ensures forall id :: id in ids <==> (listId, id) in roles
  {
    ids := [];
    var todo := roles;
    while todo != {}
      invariant todo <= roles
      invariant forall i, j :: 0 <= i < j < |ids| ==> ids[i] != ids[j]
      invariant forall id :: id in ids <==> (listId, id) in roles - todo
      decreases todo
    {
      var r :| r in todo;
      todo := todo - {r};
      if r.0 == listId {
        ids := ids + [r.1];
      }
    }
  }

  class Store {
    var queue: Queue
    var nextQueueId: Id
    var lists: map<Id, List>
    /** Email addresses by subscriber id. */
    var subscribers: map<Id, string>
    var nextSubscriberId: Id
    var subscriptions: map<Id, Subscription>
    var nextSubscriptionId: Id
    var archive: map<Id, ArchiveEntry>
    var archiveFts: map<Id, FtsRow>
    var nextArchiveId: Id
    var held: map<Id, HeldMessage>
    var nextHeldId: Id
    /** Roles, as (list, subscriber) pairs. */
    var owners: set<(Id, Id)>
    var moderators: set<(Id, Id)>
    var designatedSenders: set<(Id, Id)>
    /** How many calls have failed. */
    ghost var faults: nat
    /** How each call went, in order. */
    ghost var calls: seq<bool>

    constructor ()
      ensures queue == map[] && lists == map[] && subscribers == map[]
      ensures subscriptions == map[] && archive == map[] && archiveFts == map[] && Valid()
    {
      queue, nextQueueId, lists, faults, calls := map[], 0, map[], 0, [];
      subscribers, nextSubscriberId, subscriptions, nextSubscriptionId := map[], 0, map[], 0;
      archive, archiveFts, nextArchiveId := map[], map[], 0;
      held, nextHeldId := map[], 0;
      owners, moderators, designatedSenders := {}, {}, {};
    }

    /** Keys, fresh ids and the unique indexes of the schema. */
    ghost predicate Valid()
      reads this
    {
      && FreshIds(queue, nextQueueId)
      && FreshIds(archive, nextArchiveId)
      && FreshIds(held, nextHeldId)
      && ValidLists(lists)
      && ValidSubscriptions(subscribers, nextSubscriberId, subscriptions, nextSubscriptionId)
    }

    function IndexView(): Index
      reads this
    {
      Index(archive, archiveFts, nextArchiveId)
    }

    /** Decides whether the database is reachable for the next call. */
    method Reach() returns (ok: bool)
      modifies this`faults, this`calls
      ensures faults == if ok then old(faults) else old(faults) + 1
      ensures calls == old(calls) + [ok]
    {
      ok := *;
      calls := calls + [ok];
      if !ok {
        faults := faults + 1;
      }
    }

    // ----- Queue -----

    method Enqueue(listId: Id, from: string, to: string, body: string,
                   envelopeSender: string, originalSender: string, clock: Time) returns (ok: bool)
      modifies this`queue, this`nextQueueId, this`faults, this`calls
      ensures calls == old(calls) + [ok]
      ensures faults == if ok then old(faults) else old(faults) + 1
      ensures queue ==
        if ok then old(queue)[old(nextQueueId) :=
                     QueuedMessage(listId, from, to, body, envelopeSender, originalSender, 0, clock, None)]
        else old(queue)
      ensures nextQueueId == if ok then old(nextQueueId) + 1 else old(nextQueueId)
    {
      ok := Reach();
      if ok {
        queue := queue[nextQueueId := NewRow(listId, from, to, body, envelopeSender, originalSender, clock)];
        nextQueueId := nextQueueId + 1;
      }
    }

    /** The unclaimed due row that is first by next attempt and then by id, if any is. */
    method FirstEligible(now: Time) returns (next: Option<Id>)
      ensures next.Some? ==>
        && next.value in queue && queue[next.value].claimedAt.None? && queue[next.value].nextAttempt <= now
        && forall j :: j in queue && queue[j].claimedAt.None? && queue[j].nextAttempt <= now ==>
             || queue[next.value].nextAttempt < queue[j].nextAttempt
             || (queue[next.value].nextAttempt == queue[j].nextAttempt && next.value <= j)
      ensures next.None? ==> forall id :: id in queue ==> queue[id].claimedAt.Some? || queue[id].nextAttempt > now
    {
      var todo := queue.Keys;
      next := None;
      while todo != {}
        invariant todo <= queue.Keys
        invariant next.Some? ==>
          && next.value in queue && Eligible(queue[next.value], now)
          && forall j :: j in queue.Keys - todo && Eligible(queue[j], now) ==> NoLater(queue, next.value, j)
        invariant next.None? ==> forall j :: j in queue.Keys - todo ==> !Eligible(queue[j], now)
        decreases todo
      {
        var id :| id in todo;
        todo := todo - {id};
        if Eligible(queue[id], now) && (next.None? || NoLater(queue, id, next.value)) {
          next := Some(id);
        }
      }
    }

    /** Claims the unclaimed due row with the least next attempt, then id, in one
        transaction, and returns it as it was; nothing only if no row is unclaimed and due. */
    method ClaimNextQueued(now: Time) returns (ok: bool, q: Option<(Id, QueuedMessage)>)
      modifies this`queue, this`faults, this`calls
      ensures faults == if ok then old(faults) else old(faults) + 1
      ensures !ok ==> q.None?
      ensures q.None? ==> queue == old(queue)
      ensures ok && q.None? ==> forall id :: id in queue ==> queue[id].claimedAt.Some? || queue[id].nextAttempt > now
      ensures q.Some? ==>
        var (id, row) := q.value;
        && id in old(queue) && row == old(queue)[id] && row.claimedAt.None? && row.nextAttempt <= now
        && (forall j :: j in old(queue) && old(queue)[j].claimedAt.None? && old(queue)[j].nextAttempt <= now ==>
              || row.nextAttempt < old(queue)[j].nextAttempt
              || (row.nextAttempt == old(queue)[j].nextAttempt && id <= j))
        && queue == old(queue)[id := row.(claimedAt := Some(now))]
    {
      q := None;
      ok := Reach();
      if ok {
        var next := FirstEligible(now);
        if next.Some? {
          q := Some((next.value, queue[next.value]));
          queue := Claim(queue, next.value, now);
        }
      }
    }

    /** Deletes the row, which DiscardQueued does as well. */
    method MarkQueuedSent(id: Id) returns (ok: bool)
      modifies this`queue, this`faults, this`calls
      ensures faults == if ok then old(faults) else old(faults) + 1
      ensures queue == if ok then old(queue) - {id} else old(queue)
    {
      ok := Reach();
      if ok {
        queue := Remove(queue, id);
      }
    }

    method RequeueWithBackoff(id: Id, nextAttempt: Time) returns (ok: bool)
      modifies this`queue, this`faults, this`calls
      ensures faults == if ok then old(faults) else old(faults) + 1
      ensures queue ==
        if ok && id in old(queue)
        then old(queue)[id := old(queue)[id].(claimedAt := None, retries := old(queue)[id].retries + 1,
                                              nextAttempt := nextAttempt)]
        else old(queue)
    {
      ok := Reach();
      if ok {
        queue := Requeue(queue, id, nextAttempt);
      }
    }

    // ----- Lists, subscribers and subscriptions -----

    method GetSubscriberByID(id: Id) returns (email: Option<string>)
      modifies this`faults, this`calls
      ensures OneCall(old(calls), calls, old(faults), faults)
      ensures email.Some? ==> id in subscribers && email.value == subscribers[id]
      ensures email.Some? <==> calls[|old(calls)|] && id in subscribers
    {
      email := None;
      var ok := Reach();
      if ok && id in subscribers {
        email := Some(subscribers[id]);
      }
    }

    method GetSubscriber(email: string) returns (id: Option<Id>)
      modifies this`faults, this`calls
      ensures OneCall(old(calls), calls, old(faults), faults)
      ensures id.Some? ==> id.value in subscribers && subscribers[id.value] == email
      ensures id.None? <==> calls[|old(calls)|] ==> forall k :: k in subscribers ==> subscribers[k] != email
    {
      id := None;
      var ok := Reach();
      if ok && exists k :: k in subscribers && subscribers[k] == email {
        var k :| k in subscribers && subscribers[k] == email;
        id := Some(k);
      }
    }

    method GetList(listName: string, domain: string) returns (l: Option<List>)
      requires Valid()
      modifies this`faults, this`calls
      ensures OneCall(old(calls), calls, old(faults), faults)
      ensures l.Some? ==>
        l.value.id in lists && lists[l.value.id] == l.value && l.value.listName == listName && l.value.domain == domain
      ensures l.None? <==>
        (calls[|old(calls)|] ==> forall k :: k in lists ==> lists[k].listName != listName || lists[k].domain != domain)
    {
      l := None;
      var ok := Reach();
      if ok && exists k :: k in lists && lists[k].listName == listName && lists[k].domain == domain {
        var k :| k in lists && lists[k].listName == listName && lists[k].domain == domain;
        l := Some(lists[k]);
      }
    }

    method GetSubscription(listId: Id, subscriberId: Id) returns (sub: Option<Subscription>)
      requires Valid()
      modifies this`faults, this`calls
      ensures OneCall(old(calls), calls, old(faults), faults)
      ensures sub.Some? ==>
        && sub.value.id in subscriptions && subscriptions[sub.value.id] == sub.value
        && sub.value.listId == listId && sub.value.subscriberId == subscriberId
      ensures sub.Some? <==> calls[|old(calls)|] && Taken(subscriptions, listId, subscriberId)
    {
      sub := None;
      var ok := Reach();
      if ok && Taken(subscriptions, listId, subscriberId) {
        var k :| k in subscriptions && subscriptions[k].listId == listId
          && subscriptions[k].subscriberId == subscriberId;
        sub := Some(subscriptions[k]);
      }
    }

    method GetOrCreateSubscriber(email: string) returns (id: Option<Id>)
      requires Valid()
      modifies this`subscribers, this`nextSubscriberId, this`faults, this`calls
      ensures Valid() && faults >= old(faults)
      ensures id.Some? ==> id.value in subscribers && subscribers[id.value] == email
      ensures faults == old(faults) ==> id.Some?
      ensures
        || (subscribers == old(subscribers) && nextSubscriberId == old(nextSubscriberId))
        || (&& id == Some(old(nextSubscriberId))
            && (forall k :: k in old(subscribers) ==> old(subscribers)[k] != email)
            && subscribers == old(subscribers)[old(nextSubscriberId) := email]
            && nextSubscriberId == old(nextSubscriberId) + 1)
    {
      id := None;
      var ok := Reach();
      if !ok {
        return;
      }
      if exists k :: k in subscribers && subscribers[k] == email {
        var k :| k in subscribers && subscribers[k] == email;
        return Some(k);
      }
      ok := Reach();
      if ok {
        id := Some(nextSubscriberId);
        subscribers := subscribers[nextSubscriberId := email];
        nextSubscriberId := nextSubscriberId + 1;
      }
    }

    /** Fails if the unique index on (list, subscriber) forbids the row. */
    method CreateSubscription(listId: Id, subscriberId: Id) returns (sub: Option<Subscription>)
      requires Valid() && subscriberId in subscribers
      modifies this`subscriptions, this`nextSubscriptionId, this`faults, this`calls
      ensures Valid() && faults >= old(faults)
      ensures Taken(old(subscriptions), listId, subscriberId) ==> sub.None?
      ensures faults == old(faults) && !Taken(old(subscriptions), listId, subscriberId) ==> sub.Some?
      ensures sub.None? ==> subscriptions == old(subscriptions) && nextSubscriptionId == old(nextSubscriptionId)
      ensures old(nextSubscriptionId) !in old(subscriptions)
      ensures sub.Some? ==>
        && sub.value == Subscription(old(nextSubscriptionId), listId, subscriberId, Regular, Pending, 0)
        && subscriptions == old(subscriptions)[old(nextSubscriptionId) := sub.value]
        && nextSubscriptionId == old(nextSubscriptionId) + 1
    {
      sub := None;
      var ok := Reach();
      if ok && !Taken(subscriptions, listId, subscriberId) {
        sub := Some(Subscription(nextSubscriptionId, listId, subscriberId, Regular, Pending, 0));
        subscriptions := subscriptions[nextSubscriptionId := sub.value];
        nextSubscriptionId := nextSubscriptionId + 1;
      }
    }

    method IncrementBounceCount(id: Id) returns (ok: bool)
      requires Valid()
      modifies this`subscriptions, this`faults, this`calls
      ensures calls == old(calls) + [ok]
      ensures Valid()
      ensures faults == if ok then old(faults) else old(faults) + 1
      ensures subscriptions ==
        if ok && id in old(subscriptions)
        then old(subscriptions)[id := old(subscriptions)[id].(bounceCount := old(subscriptions)[id].bounceCount + 1)]
        else old(subscriptions)
    {
      ok := Reach();
      if ok && id in subscriptions {
        hide ValidSubscriptions;
        SameKeys(subscribers, nextSubscriberId, subscriptions, nextSubscriptionId, id);
        subscriptions := subscriptions[id := subscriptions[id].(bounceCount := subscriptions[id].bounceCount + 1)];
      }
    }

    method SetSubscriptionStatus(id: Id, status: SubscriptionStatus) returns (ok: bool)
      requires Valid()
      modifies this`subscriptions, this`faults, this`calls
      ensures calls == old(calls) + [ok]
      ensures Valid()
      ensures faults == if ok then old(faults) else old(faults) + 1
      ensures subscriptions ==
        if ok && id in old(subscriptions)
        then old(subscriptions)[id := old(subscriptions)[id].(status := status)]
        else old(subscriptions)
    {
      ok := Reach();
      if ok && id in subscriptions {
        hide ValidSubscriptions;
        SameKeys(subscribers, nextSubscriberId, subscriptions, nextSubscriptionId, id);
        subscriptions := subscriptions[id := subscriptions[id].(status := status)];
      }
    }

    /** Every subscription of the list, once, in some order. */
    method ListSubscriptions(listId: Id) returns (ok: bool, subs: seq<Subscription>)
      requires Valid()
      modifies this`faults, this`calls
      ensures calls == old(calls) + [ok]
      ensures faults == if ok then old(faults) else old(faults) + 1
      ensures !ok ==> subs == []
      ensures DistinctIds(subs)
      ensures forall s :: s in subs ==> s.id in subscriptions && subscriptions[s.id] == s && s.listId == listId
      ensures ok ==>
        forall id :: id in subscriptions && subscriptions[id].listId == listId ==> subscriptions[id] in subs
    {
      subs := [];
      ok := Reach();
      if ok {
        var todo := subscriptions.Keys;
        while todo != {}
          invariant todo <= subscriptions.Keys && DistinctIds(subs)
          invariant forall s :: s in subs ==>
            s.id in subscriptions.Keys - todo && subscriptions[s.id] == s && s.listId == listId
          invariant forall id :: id in subscriptions.Keys - todo && subscriptions[id].listId == listId ==>
            subscriptions[id] in subs
          decreases todo
        {
          var id :| id in todo;
          todo := todo - {id};
          if subscriptions[id].listId == listId {
            subs := subs + [subscriptions[id]];
          }
        }
      }
    }

    /** Every list, once: the snapshots a digest run starts from. */
    method ListLists() returns (ok: bool, all: seq<List>)
      requires Valid()
      modifies this`faults, this`calls
      ensures faults == if ok then old(faults) else old(faults) + 1
      ensures forall l :: l in all ==> l.id in lists && lists[l.id] == l
      ensures forall i, j :: 0 <= i < j < |all| ==> all[i].id != all[j].id
      ensures ok ==> forall id :: id in lists ==> lists[id] in all
    {
      all := [];
      ok := Reach();
      if ok {
        var todo := lists.Keys;
        while todo != {}
          invariant todo <= lists.Keys
          invariant forall l :: l in all ==> l.id in lists.Keys - todo && lists[l.id] == l
          invariant forall i, j :: 0 <= i < j < |all| ==> all[i].id != all[j].id
          invariant forall id :: id in lists.Keys - todo ==> lists[id] in all
          decreases todo
        {
          var id :| id in todo;
          todo := todo - {id};
          all := all + [lists[id]];
        }
      }
    }

    // ----- Digest -----

    method AdvanceDigestWatermark(listId: Id, from: Option<Time>, to: Time) returns (ok: bool, claimed: bool)
      modifies this`lists, this`faults, this`calls
      ensures faults == if ok then old(faults) else old(faults) + 1
      ensures claimed <==>
        && ok && listId in old(lists)
        && var stored := old(lists)[listId].lastDigestSentAt;
           if from.None? then stored.None? else stored.Some? && stored.value <= from.value
      ensures lists == if claimed then old(lists)[listId := old(lists)[listId].(lastDigestSentAt := Some(to))]
                       else old(lists)
    {
      ok := Reach();
      claimed := ok && listId in lists && Matches(lists[listId].lastDigestSentAt, from);
      if claimed {
        lists := lists[listId := lists[listId].(lastDigestSentAt := Some(to))];
      }
    }

    /** The list's posts received after `since`, by id; the digest puts them in order. */
    method ListArchiveSince(listId: Id, since: Time) returns (ok: bool, entries: map<Id, ArchiveEntry>)
      modifies this`faults, this`calls
      ensures faults == if ok then old(faults) else old(faults) + 1
      ensures ok ==>
        entries == map id | id in archive && archive[id].listId == listId
                            && archive[id].receivedAt > since :: archive[id]
    {
      entries := map[];
      ok := Reach();
      if ok {
        entries := ReceivedSince(archive, listId, since);
      }
    }

    // ----- Archive -----

    /** Two statements, not one transaction: the entry, then its index row. */
    method ArchiveMessage(listId: Id, subject: string, from: string, body: string, bodyText: string, clock: Time)
      returns (ok: bool)
      modifies this`archive, this`archiveFts, this`nextArchiveId, this`faults, this`calls
      ensures faults == if ok then old(faults) else old(faults) + 1
      ensures calls == old(calls) + [true, ok] || (!ok && calls == old(calls) + [false])
      ensures var e := ArchiveEntry(listId, subject, from, body, bodyText, clock);
        IndexView() ==
          if calls[|old(calls)|] then Apply(old(IndexView()), Archive(e, ok)) else old(IndexView())
    {
      ok := Reach();
      if ok {
        var id := nextArchiveId;
        archive := archive[id := ArchiveEntry(listId, subject, from, body, bodyText, clock)];
        nextArchiveId := nextArchiveId + 1;
        ok := Reach();
        if ok {
          archiveFts := archiveFts[id := FtsRow(subject, bodyText)];
        }
      }
    }

    /** Fills in the text of entries that have none, in the entry and in the index. It
        stops at the first statement that fails. */
    method BackfillArchive(extractText: string -> string)
      returns (ok: bool, ghost filled: set<Id>, ghost torn: Option<Id>)
      modifies this`archive, this`archiveFts, this`faults, this`calls
      ensures faults == if ok then old(faults) else old(faults) + 1
      ensures filled <= Textless(old(archive)) && (torn.Some? ==> torn.value in Textless(old(archive)) - filled)
      ensures IndexView() == Apply(old(IndexView()), Backfill(extractText, filled, torn))
      ensures ok ==> Backfill(extractText, filled, torn) == FullBackfill(old(IndexView()), extractText)
      ensures ok ==>
        && archive == (map k | k in old(archive) ::
             if old(archive)[k].bodyText != "" then old(archive)[k]
             else old(archive)[k].(bodyText := extractText(old(archive)[k].body)))
        && archiveFts == (map k | k in old(archiveFts) ::
             if !(k in old(archive) && old(archive)[k].bodyText == "") then old(archiveFts)[k]
             else old(archiveFts)[k].(bodyText := extractText(old(archive)[k].body)))
    {
      hide Textless, ArchiveTable.Apply, WithText, WithFtsText;
      filled, torn := {}, None;
      BackfillNothing(IndexView(), extractText);
      ok := Reach();
      if !ok {
        return;
      }
      var todo := Textless(archive);
      while todo != {}
        invariant ok && faults == old(faults)
        invariant filled + todo == Textless(old(archive)) && filled !! todo
        invariant IndexView() == Apply(old(IndexView()), Backfill(extractText, filled, None))
        decreases todo
      {
        var id :| id in todo;
        BackfillOneMore(old(IndexView()), extractText, filled, id);
        ghost var written;
        ok, written := BackfillEntry(id, extractText(archive[id].body));
        if !ok {
          torn := if written then Some(id) else None;
          return;
        }
        todo, filled := todo - {id}, filled + {id};
      }
      FullBackfillFills(old(IndexView()), extractText);
    }

    /** The two updates for one entry; `written` says whether the first succeeded. */
    method BackfillEntry(id: Id, text: string) returns (ok: bool, ghost written: bool)
      requires id in archive
      modifies this`archive, this`archiveFts, this`faults, this`calls
      ensures faults == if ok then old(faults) else old(faults) + 1
      ensures ok ==> written
      ensures archive == if written then WithText(old(archive), id, text) else old(archive)
      ensures archiveFts == if ok then WithFtsText(old(archiveFts), id, text) else old(archiveFts)
    {
      ok := Reach();
      written := ok;
      if ok {
        archive := archive[id := archive[id].(bodyText := text)];
        ok := Reach();
        if ok && id in archiveFts {
          archiveFts := archiveFts[id := archiveFts[id].(bodyText := text)];
        }
      }
    }

    /** Removes a list and every row that refers to it, in one transaction. */
    method DeleteList(listName: string, domain: string) returns (gone: Option<Id>)
      requires Valid()
      modifies this
      ensures Valid() && faults >= old(faults)
      ensures subscribers == old(subscribers)
      ensures gone.Some? ==>
        && gone.value in old(lists)
        && old(lists)[gone.value].listName == listName && old(lists)[gone.value].domain == domain
        && lists == old(lists) - {gone.value}
        && IndexView() == Apply(old(IndexView()), ArchiveTable.DeleteList(gone.value))
        && archive == (map k | k in old(archive) && old(archive)[k].listId != gone.value :: old(archive)[k])
        && archiveFts == (map k | k in old(archiveFts) &&
                                  !(k in old(archive) && old(archive)[k].listId == gone.value) :: old(archiveFts)[k])
        && held == (map k | k in old(held) && old(held)[k].listId != gone.value :: old(held)[k])
        && subscriptions ==
             (map k | k in old(subscriptions) && old(subscriptions)[k].listId != gone.value :: old(subscriptions)[k])
        && queue == (map k | k in old(queue) && old(queue)[k].listId != gone.value :: old(queue)[k])
        && owners == (set r | r in old(owners) && r.0 != gone.value)
        && moderators == (set r | r in old(moderators) && r.0 != gone.value)
        && designatedSenders == (set r | r in old(designatedSenders) && r.0 != gone.value)
      ensures faults == old(faults) ==>
        (gone.None? <==> forall k :: k in old(lists) ==>
           old(lists)[k].listName != listName || old(lists)[k].domain != domain)
      ensures gone.None? ==>
        && unchanged(`lists, `archive, `archiveFts, `held, `subscriptions, `queue)
        && unchanged(`owners, `moderators, `designatedSenders)
    {
      hide FreshIds, ValidLists, ValidSubscriptions, EntriesOf, HeldOf, SubscriptionsOf, QueuedOf, RolesWithout;
      gone := None;
      var l := GetList(listName, domain);
      if l.Some? {
        RowsKept(l.value.id);
        Purge(l.value.id);
        gone := Some(l.value.id);
      }
    }

    /** What is left when the rows of a list are gone, row by row. */
    lemma RowsKept(id: Id)
      ensures archive - EntriesOf(archive, id) == (map k | k in archive && archive[k].listId != id :: archive[k])
      ensures archiveFts - EntriesOf(archive, id) ==
        (map k | k in archiveFts && !(k in archive && archive[k].listId == id) :: archiveFts[k])
      ensures held - HeldOf(held, id) == (map k | k in held && held[k].listId != id :: held[k])
      ensures subscriptions - SubscriptionsOf(subscriptions, id) ==
        (map k | k in subscriptions && subscriptions[k].listId != id :: subscriptions[k])
      ensures queue - QueuedOf(queue, id) == (map k | k in queue && queue[k].listId != id :: queue[k])
      ensures RolesWithout(owners, id) == (set r | r in owners && r.0 != id)
      ensures RolesWithout(moderators, id) == (set r | r in moderators && r.0 != id)
      ensures RolesWithout(designatedSenders, id) == (set r | r in designatedSenders && r.0 != id)
    {
    }

    /** The statements of that transaction. */
    method Purge(id: Id)
      requires Valid()
      modifies this`lists, this`archive, this`archiveFts, this`held, this`subscriptions, this`queue,
               this`owners, this`moderators, this`designatedSenders
      ensures Valid()
      ensures lists == old(lists) - {id}
      ensures archive == old(archive) - EntriesOf(old(archive), id)
      ensures archiveFts == old(archiveFts) - EntriesOf(old(archive), id)
      ensures held == old(held) - HeldOf(old(held), id)
      ensures subscriptions == old(subscriptions) - SubscriptionsOf(old(subscriptions), id)
      ensures queue == old(queue) - QueuedOf(old(queue), id)
      ensures owners == RolesWithout(old(owners), id)
      ensures moderators == RolesWithout(old(moderators), id)
      ensures designatedSenders == RolesWithout(old(designatedSenders), id)
    {
      hide FreshIds, ValidLists, ValidSubscriptions, EntriesOf, HeldOf, SubscriptionsOf, QueuedOf, RolesWithout;
      FewerRows(queue, nextQueueId, QueuedOf(queue, id));
      FewerRows(archive, nextArchiveId, EntriesOf(archive, id));
      FewerRows(held, nextHeldId, HeldOf(held, id));
      FewerLists(lists, id);
      FewerSubscriptions(subscribers, nextSubscriberId, subscriptions, nextSubscriptionId,
                         SubscriptionsOf(subscriptions, id));
      archiveFts := archiveFts - EntriesOf(archive, id);
      archive := archive - EntriesOf(archive, id);
      held := held - HeldOf(held, id);
      subscriptions := subscriptions - SubscriptionsOf(subscriptions, id);
      owners := RolesWithout(owners, id);
      moderators := RolesWithout(moderators, id);
      designatedSenders := RolesWithout(designatedSenders, id);
      queue := queue - QueuedOf(queue, id);
      lists := lists - {id};
    }

    // ----- Roles and held messages -----

    method ListOwners(listId: Id) returns (ok: bool, ids: seq<Id>)
      modifies this`faults, this`calls
      ensures calls == old(calls) + [ok]
      ensures faults == if ok then old(faults) else old(faults) + 1
      ensures ok ==> forall id :: id in ids <==> (listId, id) in owners
    {
      ids := [];
      ok := Reach();
      if ok {
        ids := Holders(owners, listId);
      }
    }

    method ListModerators(listId: Id) returns (ok: bool, ids: seq<Id>)
      modifies this`faults, this`calls
      ensures calls == old(calls) + [ok]
      ensures faults == if ok then old(faults) else old(faults) + 1
      ensures ok ==> forall id :: id in ids <==> (listId, id) in moderators
    {
      ids := [];
      ok := Reach();
      if ok {
        ids := Holders(moderators, listId);
      }
    }

    method IsOwner(listId: Id, subscriberId: Id) returns (yes: bool)
      modifies this`faults, this`calls
      ensures OneCall(old(calls), calls, old(faults), faults)
      ensures yes <==> calls[|old(calls)|] && (listId, subscriberId) in owners
    {
      var ok := Reach();
      yes := ok && (listId, subscriberId) in owners;
    }

    method IsDesignatedSender(listId: Id, subscriberId: Id) returns (yes: bool)
      modifies this`faults, this`calls
      ensures OneCall(old(calls), calls, old(faults), faults)
      ensures yes <==> calls[|old(calls)|] && (listId, subscriberId) in designatedSenders
    {
      var ok := Reach();
      yes := ok && (listId, subscriberId) in designatedSenders;
    }

    method GetListByID(id: Id) returns (l: Option<List>)
      modifies this`faults, this`calls
      ensures OneCall(old(calls), calls, old(faults), faults)
      ensures l.Some? ==> id in lists && l.value == lists[id]
      ensures l.Some? <==> calls[|old(calls)|] && id in lists
    {
      var ok := Reach();
      l := if ok && id in lists then Some(lists[id]) else None;
    }

    method CreateHeldMessage(m: HeldMessage) returns (ok: bool)
      modifies this`held, this`nextHeldId, this`faults, this`calls
      ensures calls == old(calls) + [ok]
      ensures faults == if ok then old(faults) else old(faults) + 1
      ensures held == if ok then old(held)[old(nextHeldId) := m] else old(held)
      ensures nextHeldId == if ok then old(nextHeldId) + 1 else old(nextHeldId)
    {
      ok := Reach();
      if ok {
        held := held[nextHeldId := m];
        nextHeldId := nextHeldId + 1;
      }
    }

    method GetHeldMessageByID(id: Id) returns (m: Option<HeldMessage>)
      modifies this`faults, this`calls
      ensures OneCall(old(calls), calls, old(faults), faults)
      ensures m.Some? ==> id in held && m.value == held[id]
      ensures m.Some? <==> calls[|old(calls)|] && id in held
    {
      var ok := Reach();
      m := if ok && id in held then Some(held[id]) else None;
    }

    method DeleteHeldMessage(id: Id) returns (ok: bool)
      modifies this`held, this`faults, this`calls
      ensures calls == old(calls) + [ok]
      ensures faults == if ok then old(faults) else old(faults) + 1
      ensures held == if ok then old(held) - {id} else old(held)
    {
      ok := Reach();
      if ok {
        held := held - {id};
      }
    }

    /** The sweeper's call. */
    method DeleteExpiredHeldMessages(now: Time) returns (ok: bool)
      modifies this`held, this`faults, this`calls
      ensures calls == old(calls) + [ok]
      ensures faults == if ok then old(faults) else old(faults) + 1
      ensures held == if ok then map id | id in old(held) && !(old(held)[id].expiresAt < now) :: old(held)[id]
                      else old(held)
    {
      ok := Reach();
      if ok {
        held := map id | id in held && !(held[id].expiresAt < now) :: held[id];
      }
    }
  }
}
