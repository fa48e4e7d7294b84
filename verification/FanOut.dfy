/** Delivery to a list's members: posts to regular members, digests to digest members. */
module FanOut {
  import opened Wrappers
  import opened Model
  import opened QueueTable
  import opened ArchiveTable
  import opened SqliteStore
  import opened CallLog
  import opened Verp
  import Text

  /** What ModifyMessage makes of a raw message for one recipient, if it parses. */
  type Modifier = (string, string) -> Option<string>

  predicate Delivers(emails: map<Id, string>, l: List, mode: DeliveryMode, sub: Subscription) {
    && sub.listId == l.id && sub.status == Active && sub.deliveryMode == mode
    && sub.subscriberId in emails
    && EncodeVERP(l.Address(), emails[sub.subscriberId]).Some?
  }

  /** A message of the list to a member, bouncing to the member's VERP address. */
  function RowTo(l: List, email: string, body: string, originalSender: string): QueuedMessage
    requires EncodeVERP(l.Address(), email).Some?
  {
    NewRow(l.id, l.Address(), email, body, EncodeVERP(l.Address(), email).value, originalSender, 0)
  }

  predicate GetsPost(emails: map<Id, string>, l: List, sender: string, raw: string, modifier: Modifier,
                     sub: Subscription) {
    && Delivers(emails, l, Regular, sub)
    && !Text.EqualFold(emails[sub.subscriberId], sender)
    && modifier(raw, emails[sub.subscriberId]).Some?
  }

  /** The rows a post must leave in the queue, by subscription. */
  ghost function PostRows(subs: map<Id, Subscription>, emails: map<Id, string>, l: List,
                          sender: string, raw: string, modifier: Modifier): map<Id, QueuedMessage> {
    map id | id in subs && GetsPost(emails, l, sender, raw, modifier, subs[id]) ::
      var email := emails[subs[id].subscriberId];
      RowTo(l, email, modifier(raw, email).value, sender)
  }

  /** The rows a digest must leave in the queue, by subscription. */
  ghost function DigestRows(subs: map<Id, Subscription>, emails: map<Id, string>, l: List,
                            digest: string -> string): map<Id, QueuedMessage> {
    map id | id in subs && Delivers(emails, l, Digest, subs[id]) ::
      var email := emails[subs[id].subscriberId];
      RowTo(l, email, digest(email), "")
  }

  /** The queue grew, under fresh ids, by the rows `rows` prescribes for `ids`. */
  ghost predicate Grown<K>(before: Queue, from: Id, after: Queue, to: Id,
                           ids: seq<K>, rows: map<K, QueuedMessage>) {
    && to == from + |ids| && (forall i, j :: 0 <= i < j < |ids| ==> ids[i] != ids[j])
    && (forall k :: k in after <==> k in before || from <= k < to)
    && (forall k :: k in before ==> k in after && after[k] == before[k])
    && (forall i :: 0 <= i < |ids| ==>
          ids[i] in rows && after[from + i] == rows[ids[i]].(nextAttempt := after[from + i].nextAttempt))
  }

  lemma GrownStart<K>(queue: Queue, next: Id, rows: map<K, QueuedMessage>)
    ensures Grown(queue, next, queue, next, [], rows)
  {
  }

  lemma GrowOne<K>(before: Queue, from: Id, after: Queue, to: Id, ids: seq<K>, rows: map<K, QueuedMessage>,
                   id: K, row: QueuedMessage)
    requires FreshIds(before, from)
    requires Grown(before, from, after, to, ids, rows)
    requires id !in ids && id in rows && row == rows[id].(nextAttempt := row.nextAttempt)
    ensures Grown(before, from, after[to := row], to + 1, ids + [id], rows)
  {
    var after', ids' := after[to := row], ids + [id];
    forall i | 0 <= i < |ids'|
      ensures ids'[i] in rows && after'[from + i] == rows[ids'[i]].(nextAttempt := after'[from + i].nextAttempt)
    {
      if i < |ids| {
        assert ids'[i] == ids[i];
      }
    }
  }

  lemma GrownFresh<K>(before: Queue, from: Id, after: Queue, to: Id, ids: seq<K>, rows: map<K, QueuedMessage>)
    requires Grown(before, from, after, to, ids, rows) && FreshIds(before, from)
    ensures FreshIds(after, to)
  {
  }

  /** What a new row of a queue that grew is for. */
  lemma KeyOf<K>(before: Queue, from: Id, after: Queue, to: Id, ids: seq<K>, rows: map<K, QueuedMessage>, r: Id)
    returns (k: K)
    requires Grown(before, from, after, to, ids, rows) && FreshIds(before, from) && r in after && r !in before
    ensures k in rows && after[r] == rows[k].(nextAttempt := after[r].nextAttempt)
  {
    k := ids[r - from];
    assert after[from + (r - from)] == after[r];
  }

  lemma RowFor<K>(before: Queue, from: Id, after: Queue, to: Id, ids: seq<K>, rows: map<K, QueuedMessage>, k: K)
    returns (r: Id)
    requires Grown(before, from, after, to, ids, rows) && FreshIds(before, from) && k in ids
    ensures r in after && r !in before && k in rows && after[r] == rows[k].(nextAttempt := after[r].nextAttempt)
  {
    var i :| 0 <= i < |ids| && ids[i] == k;
    r := from + i;
  }

  /** `row` takes mail of list `l` to its member `sub`, who is Active and in that mode. */
  predicate IsMailTo(row: QueuedMessage, l: List, mode: DeliveryMode, sub: Subscription, email: string) {
    && sub.listId == l.id && sub.status == Active && sub.deliveryMode == mode
    && row.listId == l.id && row.from == l.listName + "@" + l.domain && row.to == email
    && EncodeVERP(row.from, email) == Some(row.envelopeSender)
    && row.retries == 0 && row.claimedAt.None?
  }

  ghost predicate HasPost(l: List, sub: Subscription, email: string, sender: string, body: string,
                          before: Queue, after: Queue) {
    exists r :: r in after && r !in before && IsMailTo(after[r], l, Regular, sub, email)
             && after[r].originalSender == sender && after[r].body == body
  }

  ghost predicate HasDigest(l: List, sub: Subscription, email: string, body: string, before: Queue, after: Queue) {
    exists r :: r in after && r !in before && IsMailTo(after[r], l, Digest, sub, email)
             && after[r].originalSender == "" && after[r].body == body
  }

  /** Every new row takes the post to a member other than its poster. */
  ghost predicate OnlyMembersGetPost(subs: map<Id, Subscription>, emails: map<Id, string>, l: List, sender: string,
                                     raw: string, modifier: Modifier, before: Queue, after: Queue) {
    forall r :: r in after && r !in before ==>
      && after[r].originalSender == sender && Text.Lower(after[r].to) != Text.Lower(sender)
      && modifier(raw, after[r].to) == Some(after[r].body)
      && exists k :: k in subs && subs[k].subscriberId in emails
                     && IsMailTo(after[r], l, Regular, subs[k], emails[subs[k].subscriberId])
  }

  /** Every Active member of the list who wants posts as they come, and is not the poster,
      has a new row, if a VERP address and a message for it can be made. */
  ghost predicate AllMembersGetPost(subs: map<Id, Subscription>, emails: map<Id, string>, l: List, sender: string,
                                    raw: string, modifier: Modifier, before: Queue, after: Queue) {
    forall k :: k in subs && subs[k].listId == l.id && subs[k].status == Active && subs[k].deliveryMode == Regular
                && subs[k].subscriberId in emails ==>
      var email := emails[subs[k].subscriberId];
      var body := modifier(raw, email);
      Text.Lower(email) != Text.Lower(sender) && EncodeVERP(l.listName + "@" + l.domain, email).Some? && body.Some? ==>
        HasPost(l, subs[k], email, sender, body.value, before, after)
  }

  /** Every Active digest member of the list whose VERP address can be printed has a new row
      with the digest. */
  ghost predicate AllMembersGetDigest(subs: map<Id, Subscription>, emails: map<Id, string>, l: List,
                                      digest: string -> string, before: Queue, after: Queue) {
    forall k :: k in subs && subs[k].listId == l.id && subs[k].status == Active && subs[k].deliveryMode == Digest
                && subs[k].subscriberId in emails ==>
      var email := emails[subs[k].subscriberId];
      EncodeVERP(l.listName + "@" + l.domain, email).Some? ==>
        HasDigest(l, subs[k], email, digest(email), before, after)
  }

  lemma PostReachesOnly(subs: map<Id, Subscription>, emails: map<Id, string>, l: List, sender: string, raw: string,
                        modifier: Modifier, before: Queue, from: Id, after: Queue, to: Id, ids: seq<Id>)
    requires FreshIds(before, from)
    requires Grown(before, from, after, to, ids, PostRows(subs, emails, l, sender, raw, modifier))
    ensures OnlyMembersGetPost(subs, emails, l, sender, raw, modifier, before, after)
  {
    hide Grown, FreshIds, EncodeVERP, Text.Lower;
    forall r | r in after && r !in before
      ensures && after[r].originalSender == sender && Text.Lower(after[r].to) != Text.Lower(sender)
              && modifier(raw, after[r].to) == Some(after[r].body)
      ensures exists k :: k in subs && subs[k].subscriberId in emails
                          && IsMailTo(after[r], l, Regular, subs[k], emails[subs[k].subscriberId])
    {
      var k := KeyOf(before, from, after, to, ids, PostRows(subs, emails, l, sender, raw, modifier), r);
      assert IsMailTo(after[r], l, Regular, subs[k], emails[subs[k].subscriberId]);
    }
  }

  lemma PostReachesAll(subs: map<Id, Subscription>, emails: map<Id, string>, l: List, sender: string, raw: string,
                       modifier: Modifier, before: Queue, from: Id, after: Queue, to: Id, ids: seq<Id>)
    requires FreshIds(before, from)
    requires Grown(before, from, after, to, ids, PostRows(subs, emails, l, sender, raw, modifier))
    requires forall k :: k in PostRows(subs, emails, l, sender, raw, modifier) ==> k in ids
    ensures AllMembersGetPost(subs, emails, l, sender, raw, modifier, before, after)
  {
    hide Grown, FreshIds, PostRows, EncodeVERP, Text.Lower;
    forall k | k in subs && GetsPost(emails, l, sender, raw, modifier, subs[k])
      ensures var email := emails[subs[k].subscriberId];
        HasPost(l, subs[k], email, sender, modifier(raw, email).value, before, after)
    {
      PostRowOf(subs, emails, l, sender, raw, modifier, k);
      var r := RowFor(before, from, after, to, ids, PostRows(subs, emails, l, sender, raw, modifier), k);
      assert IsMailTo(after[r], l, Regular, subs[k], emails[subs[k].subscriberId]);
    }
  }

  lemma DigestReachesAll(subs: map<Id, Subscription>, emails: map<Id, string>, l: List, digest: string -> string,
                         before: Queue, from: Id, after: Queue, to: Id, origin: seq<(Id, Id)>,
                         rows: map<(Id, Id), QueuedMessage>)
    requires FreshIds(before, from) && Grown(before, from, after, to, origin, rows)
    requires forall k :: k in DigestRows(subs, emails, l, digest) ==>
      (l.id, k) in origin && (l.id, k) in rows && rows[(l.id, k)] == DigestRows(subs, emails, l, digest)[k]
    ensures AllMembersGetDigest(subs, emails, l, digest, before, after)
  {
    hide Grown, FreshIds, DigestRows, EncodeVERP;
    forall k | k in subs && Delivers(emails, l, Digest, subs[k])
      ensures var email := emails[subs[k].subscriberId]; HasDigest(l, subs[k], email, digest(email), before, after)
    {
      DigestRowOf(subs, emails, l, digest, k);
      var r := RowFor(before, from, after, to, origin, rows, (l.id, k));
      assert IsMailTo(after[r], l, Digest, subs[k], emails[subs[k].subscriberId]);
    }
  }

  /** On one and the same store nobody gets a post both at once and in the digest. */
  lemma RecipientsAreDisjoint(subs: map<Id, Subscription>, emails: map<Id, string>, l: List,
                              sender: string, raw: string, modifier: Modifier, digest: string -> string)
    ensures PostRows(subs, emails, l, sender, raw, modifier).Keys !! DigestRows(subs, emails, l, digest).Keys
  {
  }

  /** `subs` lists every subscription of the list that the table has. */
  ghost predicate Lists(subs: seq<Subscription>, table: map<Id, Subscription>, l: List) {
    && (forall id :: id in table ==> table[id].id == id)
    && forall id :: id in table && table[id].listId == l.id ==> table[id] in subs
  }

  ghost predicate RowsOfList(rows: map<Id, QueuedMessage>, table: map<Id, Subscription>, l: List) {
    forall id :: id in rows ==> id in table && table[id].listId == l.id
  }

  lemma PostRowsOfList(subs: map<Id, Subscription>, emails: map<Id, string>, l: List,
                       sender: string, raw: string, modifier: Modifier)
    ensures RowsOfList(PostRows(subs, emails, l, sender, raw, modifier), subs, l)
  {
    hide EncodeVERP, Text.EqualFold;
  }

  lemma DigestRowsOfList(subs: map<Id, Subscription>, emails: map<Id, string>, l: List, digest: string -> string)
    ensures RowsOfList(DigestRows(subs, emails, l, digest), subs, l)
  {
    hide EncodeVERP;
  }

  /** `subs` are subscriptions of the list, each of them once. */
  ghost predicate Listed(subs: seq<Subscription>, table: map<Id, Subscription>, l: List) {
    DistinctIds(subs) && forall s :: s in subs ==> s.id in table && table[s.id] == s && s.listId == l.id
  }

  /** The subscriptions that have a row but were not queued. */
  ghost function Missing(rows: map<Id, QueuedMessage>, ids: seq<Id>): set<Id> {
    rows.Keys - set id | id in ids
  }

  /** Those among the first `n` listed. */
  ghost function Missed(subs: seq<Subscription>, n: nat, rows: map<Id, QueuedMessage>, ids: seq<Id>): set<Id>
    requires n <= |subs|
  {
    set j | 0 <= j < n && subs[j].id in rows && subs[j].id !in ids :: subs[j].id
  }

  /** None from the `n`th on was queued. */
  ghost predicate Untouched(subs: seq<Subscription>, n: nat, ids: seq<Id>) {
    forall k :: n <= k < |subs| ==> subs[k].id !in ids
  }

  lemma NothingMissed(subs: seq<Subscription>, rows: map<Id, QueuedMessage>)
    ensures Missed(subs, 0, rows, []) == {} && Untouched(subs, 0, [])
  {
  }

  lemma NextListed(subs: seq<Subscription>, table: map<Id, Subscription>, l: List, n: nat, ids: seq<Id>)
    requires Listed(subs, table, l) && n < |subs| && Untouched(subs, n, ids)
    ensures var sub := subs[n]; sub.id in table && table[sub.id] == sub && sub.listId == l.id && sub.id !in ids
    ensures Untouched(subs, n + 1, ids) && Untouched(subs, n + 1, ids + [subs[n].id])
  {
    assert subs[n] in subs;
  }

  /** One more subscription is missed at most if it has a row and is not queued. */
  lemma MissedNext(subs: seq<Subscription>, n: nat, rows: map<Id, QueuedMessage>, ids: seq<Id>)
    requires n < |subs|
    ensures var id := subs[n].id;
      && |Missed(subs, n + 1, rows, ids + [id])| <= |Missed(subs, n, rows, ids)|
      && |Missed(subs, n + 1, rows, ids)| <= |Missed(subs, n, rows, ids)| + if id in rows then 1 else 0
  {
    var id := subs[n].id;
    SubsetSize(Missed(subs, n + 1, rows, ids + [id]), Missed(subs, n, rows, ids));
    SubsetSize(Missed(subs, n + 1, rows, ids), Missed(subs, n, rows, ids) + if id in rows then {id} else {});
  }

  lemma PostRowOf(subs: map<Id, Subscription>, emails: map<Id, string>, l: List,
                  sender: string, raw: string, modifier: Modifier, id: Id)
    requires id in subs
    ensures var rows := PostRows(subs, emails, l, sender, raw, modifier);
      && (id in rows <==> GetsPost(emails, l, sender, raw, modifier, subs[id]))
      && (id in rows ==>
            var email := emails[subs[id].subscriberId];
            rows[id] == RowTo(l, email, modifier(raw, email).value, sender))
  {
    hide EncodeVERP, Text.EqualFold;
  }

  lemma DigestRowOf(subs: map<Id, Subscription>, emails: map<Id, string>, l: List, digest: string -> string, id: Id)
    requires id in subs
    ensures var rows := DigestRows(subs, emails, l, digest);
      && (id in rows <==> Delivers(emails, l, Digest, subs[id]))
      && (id in rows ==>
            var email := emails[subs[id].subscriberId];
            rows[id] == RowTo(l, email, digest(email), ""))
  {
    hide EncodeVERP;
  }

  /** Every row belongs to a listed subscription. */
  lemma MissingAreMissed(table: map<Id, Subscription>, l: List, subs: seq<Subscription>,
                         rows: map<Id, QueuedMessage>, ids: seq<Id>)
    requires Lists(subs, table, l) && RowsOfList(rows, table, l)
    ensures |Missing(rows, ids)| <= |Missed(subs, |subs|, rows, ids)|
  {
    forall id | id in Missing(rows, ids) ensures id in Missed(subs, |subs|, rows, ids) {
      var j :| 0 <= j < |subs| && subs[j] == table[id];
    }
    SubsetSize(Missing(rows, ids), Missed(subs, |subs|, rows, ids));
  }

  lemma NoneMissing(rows: map<Id, QueuedMessage>, ids: seq<Id>)
    ensures |Missing(rows, ids)| == 0 ==> forall id :: id in rows ==> id in ids
  {
    assert |Missing(rows, ids)| == 0 ==> Missing(rows, ids) == {};
    assert forall id :: id in rows && id !in ids ==> id in Missing(rows, ids);
  }

  lemma ListsAll(store: Store, l: List, subs: seq<Subscription>)
    requires store.Valid() && DistinctIds(subs)
    requires forall s :: s in subs ==> s.id in store.subscriptions && store.subscriptions[s.id] == s && s.listId == l.id
    requires forall id :: id in store.subscriptions && store.subscriptions[id].listId == l.id ==>
      store.subscriptions[id] in subs
    ensures Lists(subs, store.subscriptions, l) && Listed(subs, store.subscriptions, l)
  {
  }

  /** How far a delivery got, by its first three calls. */
  lemma Outcome(before: seq<bool>, made: seq<bool>, after: seq<bool>)
    requires before + made <= after && 1 <= |made| <= 3 && (|made| < 3 ==> !made[|made| - 1])
    requires |made| < 3 ==> after == before + made
    ensures FirstSucceed(CallsSince(before, after), 1) <==> made[0]
    ensures FirstSucceed(CallsSince(before, after), 2) <==> |made| >= 2 && made[0] && made[1]
    ensures FirstSucceed(CallsSince(before, after), 3) <==> |made| == 3 && made[0] && made[1] && made[2]
  {
    CallsBegin(before, made, after, 1);
    if |made| >= 2 {
      CallsBegin(before, made, after, 2);
    }
    if |made| == 3 {
      CallsBegin(before, made, after, 3);
    }
  }

  class Pipeline {
    const store: Store
    const modifier: Modifier
    const extractSubject: string -> string
    const extractText: string -> string

    constructor (store: Store, modifier: Modifier, extractSubject: string -> string, extractText: string -> string)
      ensures this.store == store && this.modifier == modifier
      ensures this.extractSubject == extractSubject && this.extractText == extractText
    {
      this.store, this.modifier := store, modifier;
      this.extractSubject, this.extractText := extractSubject, extractText;
    }

    /** The archive entry of a post. */
    function EntryOf(l: List, sender: string, raw: string, clock: Time): ArchiveEntry {
      ArchiveEntry(l.id, extractSubject(raw), sender, raw, extractText(raw), clock)
    }

    /** The body of the delivery loop, for one subscription. */
    method QueuePostFor(l: List, sender: string, raw: string, sub: Subscription) returns (queued: bool)
      requires sub.listId == l.id
      modifies store`queue, store`nextQueueId, store`faults, store`calls
      ensures queued ==>
        && GetsPost(store.subscribers, l, sender, raw, modifier, sub)
        && var email := store.subscribers[sub.subscriberId];
           exists clock: Time :: store.queue == old(store.queue)[old(store.nextQueueId) :=
             RowTo(l, email, modifier(raw, email).value, sender).(nextAttempt := clock)]
      ensures !queued ==> store.queue == old(store.queue)
      ensures store.nextQueueId == old(store.nextQueueId) + if queued then 1 else 0
      ensures store.faults >= old(store.faults) && old(store.calls) <= store.calls
      ensures store.faults == old(store.faults) ==>
        (queued <==> GetsPost(store.subscribers, l, sender, raw, modifier, sub))
    {
      queued := false;
      if sub.status != Active || sub.deliveryMode == Nomail || sub.deliveryMode == Digest {
        return;
      }
      var email := store.GetSubscriberByID(sub.subscriberId);
      if email.None? || Text.EqualFold(email.value, sender) {
        return;
      }
      var verp := EncodeVERP(l.Address(), email.value);
      if verp.None? {
        return;
      }
      var modified := modifier(raw, email.value);
      if modified.None? {
        return;
      }
      var clock: Time := *;
      queued := store.Enqueue(l.id, l.Address(), email.value, modified.value, verp.value, sender, clock);
    }

    /** Queues a post for the members who get posts as they come. `ids` are the
        subscriptions it was queued for: never a wrong one or one twice, and all of them
        but one for each call that failed. */
    method QueuePost(l: List, sender: string, raw: string, subs: seq<Subscription>, ghost rows: map<Id, QueuedMessage>)
      returns (ghost ids: seq<Id>)
      requires FreshIds(store.queue, store.nextQueueId) && Listed(subs, store.subscriptions, l)
      requires rows == PostRows(store.subscriptions, store.subscribers, l, sender, raw, modifier)
      modifies store`queue, store`nextQueueId, store`faults, store`calls
      ensures Grown(old(store.queue), old(store.nextQueueId), store.queue, store.nextQueueId, ids, rows)
      ensures |Missed(subs, |subs|, rows, ids)| <= store.faults - old(store.faults)
      ensures old(store.calls) <= store.calls
    {
      hide GetsPost, PostRows, Delivers, RowTo, EncodeVERP, Grown, FreshIds, Listed, Missed, Untouched;
      ids := [];
      GrownStart(store.queue, store.nextQueueId, rows);
      NothingMissed(subs, rows);
      for i := 0 to |subs|
        invariant Untouched(subs, i, ids) && old(store.calls) <= store.calls
        invariant Grown(old(store.queue), old(store.nextQueueId), store.queue, store.nextQueueId, ids, rows)
        invariant |Missed(subs, i, rows, ids)| <= store.faults - old(store.faults)
      {
        var sub := subs[i];
        NextListed(subs, store.subscriptions, l, i, ids);
        MissedNext(subs, i, rows, ids);
        PostRowOf(store.subscriptions, store.subscribers, l, sender, raw, modifier, sub.id);
        ghost var queue, next := store.queue, store.nextQueueId;
        var queued := QueuePostFor(l, sender, raw, sub);
        if queued {
          GrowOne(old(store.queue), old(store.nextQueueId), queue, next, ids, rows, sub.id, store.queue[next]);
          ids := ids + [sub.id];
        }
      }
    }

    /** Queues a post for the members of the list as it stands. */
    method Distribute(l: List, sender: string, raw: string) returns (ok: bool, ghost ids: seq<Id>)
      requires store.Valid()
      modifies store`queue, store`nextQueueId, store`faults, store`calls
      ensures store.Valid() && store.faults >= old(store.faults)
      ensures Grown(old(store.queue), old(store.nextQueueId), store.queue, store.nextQueueId, ids,
                    PostRows(store.subscriptions, store.subscribers, l, sender, raw, modifier))
      ensures old(store.calls) + [ok] <= store.calls && (store.faults == old(store.faults) ==> ok)
      ensures ok ==>
        var rows := PostRows(store.subscriptions, store.subscribers, l, sender, raw, modifier);
        |Missing(rows, ids)| <= store.faults - old(store.faults)
      ensures !ok ==> store.queue == old(store.queue) && store.nextQueueId == old(store.nextQueueId)
    {
      hide PostRows, Grown, FreshIds, ValidLists, ValidSubscriptions, Lists, Listed, RowsOfList, Missed, Missing;
      ghost var rows := PostRows(store.subscriptions, store.subscribers, l, sender, raw, modifier);
      PostRowsOfList(store.subscriptions, store.subscribers, l, sender, raw, modifier);
      ids := [];
      GrownStart(store.queue, store.nextQueueId, rows);
      var subs;
      ok, subs := store.ListSubscriptions(l.id);
      if ok {
        ListsAll(store, l, subs);
        ids := QueuePost(l, sender, raw, subs, rows);
        GrownFresh(old(store.queue), old(store.nextQueueId), store.queue, store.nextQueueId, ids, rows);
        MissingAreMissed(store.subscriptions, l, subs, rows, ids);
      }
    }

    /** Archives a post and queues it. Its first three calls must succeed: the two writes of
        the archive, which gains the entry with the first and its index row with the second,
        and the listing of subscriptions. Then the queue gains one row for each member who
        gets the post, except that each failed call may cost one member the post. */
    method DeliverToList(l: List, sender: string, raw: string) returns (ok: bool, ghost ids: seq<Id>)
      requires store.Valid()
      modifies store`queue, store`nextQueueId, store`archive, store`archiveFts, store`nextArchiveId,
               store`faults, store`calls
      ensures store.Valid() && store.faults >= old(store.faults)
      ensures Grown(old(store.queue), old(store.nextQueueId), store.queue, store.nextQueueId, ids,
                    PostRows(store.subscriptions, store.subscribers, l, sender, raw, modifier))
      ensures old(store.calls) < store.calls && (store.faults == old(store.faults) ==> ok)
      ensures ok <==> FirstSucceed(CallsSince(old(store.calls), store.calls), 3)
      ensures ok ==>
        var rows := PostRows(store.subscriptions, store.subscribers, l, sender, raw, modifier);
        |Missing(rows, ids)| <= store.faults - old(store.faults)
      ensures !ok ==> store.queue == old(store.queue) && store.nextQueueId == old(store.nextQueueId)
      ensures OnlyMembersGetPost(store.subscriptions, store.subscribers, l, sender, raw, modifier,
                                 old(store.queue), store.queue)
      ensures store.faults == old(store.faults) ==>
        AllMembersGetPost(store.subscriptions, store.subscribers, l, sender, raw, modifier,
                          old(store.queue), store.queue)
      ensures var made := CallsSince(old(store.calls), store.calls);
        if FirstSucceed(made, 1) then
          exists clock: Time :: store.IndexView() ==
            Apply(old(store.IndexView()), Archive(EntryOf(l, sender, raw, clock), FirstSucceed(made, 2)))
        else store.IndexView() == old(store.IndexView())
    {
      hide PostRows, Grown, Missing, ValidLists, ValidSubscriptions, FirstSucceed,
           OnlyMembersGetPost, AllMembersGetPost;
      ids := [];
      GrownStart(store.queue, store.nextQueueId,
                 PostRows(store.subscriptions, store.subscribers, l, sender, raw, modifier));
      var clock: Time := *;
      ok := store.ArchiveMessage(l.id, extractSubject(raw), sender, raw, extractText(raw), clock);
      ghost var made := CallsSince(old(store.calls), store.calls);
      assert made == [true, ok] || made == [false];
      if ok {
        ok, ids := Distribute(l, sender, raw);
        made := made + [ok];
      }
      Outcome(old(store.calls), made, store.calls);
      NoneMissing(PostRows(store.subscriptions, store.subscribers, l, sender, raw, modifier), ids);
      PostReachesOnly(store.subscriptions, store.subscribers, l, sender, raw, modifier,
                      old(store.queue), old(store.nextQueueId), store.queue, store.nextQueueId, ids);
      if store.faults == old(store.faults) {
        PostReachesAll(store.subscriptions, store.subscribers, l, sender, raw, modifier,
                       old(store.queue), old(store.nextQueueId), store.queue, store.nextQueueId, ids);
      }
      assert made[0] ==>
        store.IndexView() == Apply(old(store.IndexView()),
                                   Archive(EntryOf(l, sender, raw, clock), |made| >= 2 && made[1]));
    }
  }
}
