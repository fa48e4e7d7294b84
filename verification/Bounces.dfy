/** Bounces: from a VERP address back to the member it was printed for. */
module Bounces {
  import opened Wrappers
  import opened Model
  import opened SqliteStore
  import opened CallLog
  import opened FanOut
  import opened Verp
  import opened Address
  import opened Text

  /** The tables a bounce is looked up in. */
  datatype Tables = Tables(
    lists: map<Id, List>,
    subscribers: map<Id, string>,
    subscriptions: map<Id, Subscription>)

  /** The VERP address handleBounce puts together again from its parsed parts. */
  function Reassembled(p: ParsedAddress): string { p.listName + MARKER + p.encodedPart + "@" + p.domain }

  /** Subscription `id` is the one a bounce to the parsed address `p` is counted for. */
  ghost predicate IsTargetOf(t: Tables, p: ParsedAddress, id: Id) {
    var d := DecodeVERP(Reassembled(p));
    && d.Some? && id in t.subscriptions
    && t.subscriptions[id].subscriberId in t.subscribers
    && t.subscribers[t.subscriptions[id].subscriberId] == d.value.recipientAddr
    && t.subscriptions[id].listId in t.lists
    && t.lists[t.subscriptions[id].listId].listName == p.listName
    && t.lists[t.subscriptions[id].listId].domain == p.domain
  }

  /** ... and the one a message to `addr` is counted for. */
  ghost predicate IsTarget(t: Tables, addr: string, id: Id) {
    var p := ParseAddress(addr);
    p.Some? && p.value.kind == Bounce && IsTargetOf(t, p.value, id)
  }

  /** What a caller can check of a list: nothing in its address moves a separator. */
  predicate PlainList(l: List) { '+' !in l.listName && '@' !in l.listName && '@' !in l.domain }

  /** The address of a plain list splits at its only "@". */
  lemma PlainListCut(l: List)
    requires PlainList(l) && Cut(l.Address()).Some?
    ensures Cut(l.Address()) == Some(Parts(l.listName, l.domain))
    ensures l.listName != "" && PlainDomain(l.domain)
  {
    FirstSplit(l.listName, '@', l.domain);
  }

  /** The envelope sender of a plain list's mail parses as a bounce to that list, and the
      handler puts together exactly what was printed. */
  lemma EnvelopeParses(l: List, email: string)
    requires PlainList(l) && EncodeVERP(l.Address(), email).Some?
    ensures var rcpt := Cut(email).value;
            var p := ParseAddress(EncodeVERP(l.Address(), email).value);
            && p == Some(ParsedAddress(Bounce, l.listName, l.domain, l.Address(), rcpt.local + "=" + rcpt.domain))
            && Reassembled(p.value) == EncodeVERP(l.Address(), email).value
  {
    hide ParseAddress, Cut;
    PlainListCut(l);
    var rcpt := Cut(email).value;
    var enc := rcpt.local + "=" + rcpt.domain;
    PlusAddressExact(Bounce, l.listName, enc, l.domain);
    var env := EncodeVERP(l.Address(), email).value;
    assert env == l.listName + MARKER + enc + "@" + l.domain;
    assert env == l.listName + Suffix(Bounce) + "+" + enc + "@" + l.domain;
  }

  /** The recipient is recovered if and only if it is clean. */
  lemma RecipientRecovered(l: List, email: string)
    requires PlainList(l) && EncodeVERP(l.Address(), email).Some?
    ensures var d := DecodeVERP(EncodeVERP(l.Address(), email).value);
            d.Some? && d.value.recipientAddr == email <==> CleanRecipient(Cut(email).value)
  {
    hide DecodeLocal, CleanRecipient;
    PlainListCut(l);
    var rcpt := Cut(email).value;
    var localPart := l.listName + MARKER + rcpt.local + "=" + rcpt.domain;
    assert EncodeVERP(l.Address(), email).value == localPart + "@" + l.domain;
    LastSplit(localPart, '@', l.domain);
    LocalExact(l.listName, rcpt);
  }

  /** Mail of a list with "@" or "+" where it should not be never bounces to that list. */
  lemma ShadowedListMissed(l: List, email: string)
    requires !PlainList(l) && EncodeVERP(l.Address(), email).Some?
    ensures var p := ParseAddress(EncodeVERP(l.Address(), email).value);
            p.Some? && p.value.kind == Bounce ==> p.value.listName != l.listName || p.value.domain != l.domain
  {
    hide ParseLocal, ParseAddress;
    var env := EncodeVERP(l.Address(), email).value;
    var list, rcpt := Cut(l.Address()).value, Cut(email).value;
    var p := ParseAddress(env);
    if p.Some? && p.value.kind == Bounce {
      BounceParts(env);
      if '@' !in l.domain && '+' !in l.listName {
        CutBeforeAt(l);
        assert env[|list.local|] == '-';
      }
    }
  }

  /** A list name with "@" is cut before its own end. */
  lemma CutBeforeAt(l: List)
    requires Cut(l.Address()).Some? && '@' in l.listName
    ensures var local := Cut(l.Address()).value.local;
            |local| < |l.listName| && l.listName[|local|] == '@'
  {
    hide Contains, IndexFrom;
    FirstCut(l.Address(), '@');
    var i := Index(l.Address(), "@");
    AtChar(l.Address(), '@', i);
    var k :| 0 <= k < |l.listName| && l.listName[k] == '@';
    AtChar(l.Address(), '@', k);
  }

  /** A bounce address names its list in a prefix without "+", its domain without "@". */
  lemma BounceParts(addr: string)
    requires ParseAddress(addr).Some? && ParseAddress(addr).value.kind == Bounce
    ensures var p := ParseAddress(addr).value;
            && '+' !in p.listName && '@' !in p.domain && p.listName <= addr
  {
    LastCut(addr, '@');
    var at := LastIndex(addr, "@");
    var local := addr[..at];
    PlusNameNotRecovered(local, addr[at + 1..]);
    ListNameIsPrefix(local, addr[at + 1..]);
  }

  lemma TrimIsPrefix(s: string, n: nat, suffix: string)
    requires n <= |s|
    ensures TrimSuffix(s[..n], suffix) <= s
  {
  }

  lemma ListNameIsPrefix(local: string, domain: string)
    ensures ParseLocal(local, domain).listName <= local
    ensures ParseLocal(local, domain).domain == domain
  {
    hide TrimSuffix, RoleKind, PlusKind, Suffix;
    var plus := Index(local, "+");
    if plus >= 0 && PlusKind(local[..plus]).Some? {
      TrimIsPrefix(local, plus, Suffix(PlusKind(local[..plus]).value));
    } else if RoleKind(local, ROLES).Some? {
      assert local[..|local|] == local;
      TrimIsPrefix(local, |local|, Suffix(RoleKind(local, ROLES).value));
    }
  }

  /** Attribution is exact: on consistent tables the bounce of a message to a member is
      counted for that member if and only if the list is plain and the recipient clean;
      and then for no other subscription. */
  lemma AttributionExact(t: Tables, id: Id)
    requires ValidLists(t.lists)
    requires id in t.subscriptions && t.subscriptions[id].listId in t.lists
    requires t.subscriptions[id].subscriberId in t.subscribers
    requires var l := t.lists[t.subscriptions[id].listId];
             EncodeVERP(l.Address(), t.subscribers[t.subscriptions[id].subscriberId]).Some?
    ensures var l := t.lists[t.subscriptions[id].listId];
            var email := t.subscribers[t.subscriptions[id].subscriberId];
            IsTarget(t, EncodeVERP(l.Address(), email).value, id)
            <==> PlainList(l) && CleanRecipient(Cut(email).value)
  {
    hide ParseAddress, DecodeVERP, CleanRecipient, Cut, EncodeVERP;
    var l := t.lists[t.subscriptions[id].listId];
    var email := t.subscribers[t.subscriptions[id].subscriberId];
    if PlainList(l) {
      EnvelopeParses(l, email);
      RecipientRecovered(l, email);
    } else {
      ShadowedListMissed(l, email);
    }
  }

  lemma TargetIsUnique(t: Tables, nextSubscriber: Id, nextSubscription: Id, p: ParsedAddress, a: Id, b: Id)
    requires ValidLists(t.lists)
    requires ValidSubscriptions(t.subscribers, nextSubscriber, t.subscriptions, nextSubscription)
    requires IsTargetOf(t, p, a) && IsTargetOf(t, p, b)
    ensures a == b
  {
    hide DecodeVERP;
    assert t.subscriptions[a].listId == t.subscriptions[b].listId;
    assert t.subscriptions[a].subscriberId == t.subscriptions[b].subscriberId;
  }

  /** The envelope printed for "u-bounces+v@d" decodes to "v@d". */
  lemma MarkerDecodes(l: List, u: string, v: string, domain: string)
    requires PlainList(l) && Cut(l.Address()).Some?
    requires v != "" && domain != "" && '@' !in u && '@' !in v && CleanRecipient(Parts(v, domain))
    ensures var env := EncodeVERP(l.Address(), u + MARKER + v + "@" + domain);
            && env.Some? && DecodeVERP(env.value).Some?
            && DecodeVERP(env.value).value.recipientAddr == v + "@" + domain
  {
    hide CleanRecipient, DecodeLocal, Cut;
    PlainListCut(l);
    CutJoined(u + MARKER + v, domain);
    var head := l.listName + MARKER + u;
    var localPart := head + MARKER + v + "=" + domain;
    assert l.listName + MARKER + (u + MARKER + v) + "=" + domain == localPart;
    LastSplit(localPart, '@', l.domain);
    LocalExact(head, Parts(v, domain));
  }

  /** Attribution can go wrong: the bounce of "u-bounces+v@d", a member of a plain list,
      is counted for "v@d" instead, if that is a member. */
  lemma MarkerMisattributes(t: Tables, id: Id, u: string, v: string, domain: string, other: Id)
    requires id in t.subscriptions && other in t.subscriptions
    requires t.subscriptions[id].listId == t.subscriptions[other].listId && t.subscriptions[id].listId in t.lists
    requires t.subscriptions[id].subscriberId in t.subscribers
    requires t.subscriptions[other].subscriberId in t.subscribers
    requires var l := t.lists[t.subscriptions[id].listId]; PlainList(l) && Cut(l.Address()).Some?
    requires t.subscribers[t.subscriptions[id].subscriberId] == u + MARKER + v + "@" + domain
    requires t.subscribers[t.subscriptions[other].subscriberId] == v + "@" + domain
    requires v != "" && domain != "" && '@' !in u && '@' !in v && CleanRecipient(Parts(v, domain))
    ensures var l := t.lists[t.subscriptions[id].listId];
            var env := EncodeVERP(l.Address(), t.subscribers[t.subscriptions[id].subscriberId]);
            env.Some? && IsTarget(t, env.value, other)
  {
    hide ParseAddress, CleanRecipient, EncodeVERP, DecodeVERP, Cut;
    var l := t.lists[t.subscriptions[id].listId];
    MarkerDecodes(l, u, v, domain);
    EnvelopeParses(l, t.subscribers[t.subscriptions[id].subscriberId]);
  }

  // ----- Counting -----

  /** RecordBounce on a row: count, and disable at the list's threshold. */
  function Bounced(sub: Subscription, threshold: int): Subscription {
    var n := sub.bounceCount + 1;
    sub.(bounceCount := n, status := if n >= threshold then Disabled else sub.status)
  }

  /** The row after the calls of RecordBounce: the count, the re-read, the status. It is
      counted with the first and disabled, at the threshold, with the third. */
  function BouncedBy(sub: Subscription, threshold: int, made: seq<bool>): Subscription {
    if !FirstSucceed(made, 1) then sub
    else if FirstSucceed(made, 3) then Bounced(sub, threshold)
    else Counted(sub)
  }

  function Counted(sub: Subscription): Subscription { sub.(bounceCount := sub.bounceCount + 1) }

  lemma BouncedCases(sub: Subscription, threshold: int, ok: bool)
    ensures BouncedBy(sub, threshold, []) == BouncedBy(sub, threshold, [false]) == sub
    ensures BouncedBy(sub, threshold, [true, ok]) == Counted(sub)
    ensures BouncedBy(sub, threshold, [true, true, ok]) == if ok then Bounced(sub, threshold) else Counted(sub)
    ensures sub.bounceCount + 1 < threshold ==> Bounced(sub, threshold) == Counted(sub)
    ensures FirstSucceed([ok], 1) == FirstSucceed([true, ok], 2) == FirstSucceed([true, true, ok], 3) == ok
  {
    assert !FirstSucceed([ok], 1) <==> ![ok][0];
    assert !FirstSucceed([true, ok], 2) <==> ![true, ok][1];
    assert !FirstSucceed([true, true, ok], 3) <==> ![true, true, ok][2];
    assert [false][0] == false;
  }

  /** The subscriptions after one bounce to `addr`. */
  ghost function AfterBounce(t: Tables, addr: string): map<Id, Subscription> {
    if exists id :: IsTarget(t, addr, id)
    then
      var id :| IsTarget(t, addr, id);
      t.subscriptions[id := Bounced(t.subscriptions[id], t.lists[t.subscriptions[id].listId].settings.bounceThreshold)]
    else t.subscriptions
  }

  ghost function AfterBounces(t: Tables, addr: string, n: nat): map<Id, Subscription> {
    if n == 0 then t.subscriptions
    else AfterBounce(t.(subscriptions := AfterBounces(t, addr, n - 1)), addr)
  }

  lemma AfterBounceOf(t: Tables, nextSubscriber: Id, nextSubscription: Id, addr: string, id: Id)
    requires ValidLists(t.lists)
    requires ValidSubscriptions(t.subscribers, nextSubscriber, t.subscriptions, nextSubscription)
    requires IsTarget(t, addr, id)
    ensures AfterBounce(t, addr) == t.subscriptions[id :=
              Bounced(t.subscriptions[id], t.lists[t.subscriptions[id].listId].settings.bounceThreshold)]
  {
    hide ParseAddress, ValidLists, ValidSubscriptions, IsTargetOf;
    forall other | IsTarget(t, addr, other) ensures other == id {
      TargetIsUnique(t, nextSubscriber, nextSubscription, ParseAddress(addr).value, id, other);
    }
  }

  /** Neither a count nor a status makes a subscription a target, or valid. */
  lemma CountsDoNotMatter(t: Tables, nextSubscriber: Id, nextSubscription: Id, addr: string, id: Id, sub: Subscription)
    requires ValidSubscriptions(t.subscribers, nextSubscriber, t.subscriptions, nextSubscription)
    requires id in t.subscriptions
    requires sub == t.subscriptions[id].(bounceCount := sub.bounceCount, status := sub.status)
    ensures ValidSubscriptions(t.subscribers, nextSubscriber, t.subscriptions[id := sub], nextSubscription)
    ensures IsTarget(t, addr, id) ==> IsTarget(t.(subscriptions := t.subscriptions[id := sub]), addr, id)
  {
    hide ParseAddress, DecodeVERP;
  }

  /** From any count c, `n` bounces add n, disable the member exactly if c + n reaches the
      threshold, and leave every other subscription alone. */
  lemma {:induction false} BouncesCount(t: Tables, nextSubscriber: Id, nextSubscription: Id,
                                        addr: string, id: Id, n: nat)
    requires ValidLists(t.lists)
    requires ValidSubscriptions(t.subscribers, nextSubscriber, t.subscriptions, nextSubscription)
    requires IsTarget(t, addr, id)
    ensures var sub := t.subscriptions[id];
            var threshold := t.lists[sub.listId].settings.bounceThreshold;
            AfterBounces(t, addr, n) == t.subscriptions[id := sub.(
              bounceCount := sub.bounceCount + n,
              status := if n > 0 && sub.bounceCount + n >= threshold then Disabled else sub.status)]
  {
    hide ParseAddress, DecodeVERP, ValidLists, ValidSubscriptions, AfterBounce;
    if n > 0 {
      BouncesCount(t, nextSubscriber, nextSubscription, addr, id, n - 1);
      var t' := t.(subscriptions := AfterBounces(t, addr, n - 1));
      CountsDoNotMatter(t, nextSubscriber, nextSubscription, addr, id, t'.subscriptions[id]);
      AfterBounceOf(t', nextSubscriber, nextSubscription, addr, id);
    }
  }

  /** An Active member without bounces, on a list with threshold T >= 1, is disabled by
      exactly the T-th bounce of mail sent to it, and by none before. */
  lemma ThresholdBounceDisables(t: Tables, nextSubscriber: Id, nextSubscription: Id, id: Id, n: nat)
    requires ValidLists(t.lists)
    requires ValidSubscriptions(t.subscribers, nextSubscriber, t.subscriptions, nextSubscription)
    requires id in t.subscriptions && t.subscriptions[id].listId in t.lists
    requires t.subscriptions[id].subscriberId in t.subscribers
    requires t.subscriptions[id].status == Active && t.subscriptions[id].bounceCount == 0
    requires var l := t.lists[t.subscriptions[id].listId];
             var email := t.subscribers[t.subscriptions[id].subscriberId];
             && l.settings.bounceThreshold >= 1 && PlainList(l)
             && EncodeVERP(l.Address(), email).Some? && CleanRecipient(Cut(email).value)
    ensures var l := t.lists[t.subscriptions[id].listId];
            var email := t.subscribers[t.subscriptions[id].subscriberId];
            var after := AfterBounces(t, EncodeVERP(l.Address(), email).value, n);
            && id in after && after[id].bounceCount == n
            && (after[id].status == Disabled <==> n >= l.settings.bounceThreshold)
            && forall other :: other in t.subscriptions && other != id ==>
                 other in after && after[other] == t.subscriptions[other]
  {
    hide EncodeVERP, CleanRecipient, IsTarget, AfterBounces;
    AttributionExact(t, id);
    var l := t.lists[t.subscriptions[id].listId];
    BouncesCount(t, nextSubscriber, nextSubscription,
                 EncodeVERP(l.Address(), t.subscribers[t.subscriptions[id].subscriberId]).value, id, n);
  }

  // ----- From the queued row to the counter -----

  /** Whatever a delivery queues for a member goes to that member, and its bounce counts
      for that member exactly if the list is plain and the recipient clean. */
  lemma QueuedPostBouncesHome(t: Tables, l: List, sender: string, raw: string, modifier: Modifier, id: Id)
    requires ValidLists(t.lists) && l.id in t.lists && t.lists[l.id] == l
    requires id in PostRows(t.subscriptions, t.subscribers, l, sender, raw, modifier)
    ensures var row := PostRows(t.subscriptions, t.subscribers, l, sender, raw, modifier)[id];
            var email := t.subscribers[t.subscriptions[id].subscriberId];
            && row.to == email && row.from == l.Address() && row.originalSender == sender && row.listId == l.id
            && (IsTarget(t, row.envelopeSender, id) <==> PlainList(l) && CleanRecipient(Cut(email).value))
  {
    hide IsTarget, CleanRecipient, PlainList;
    AttributionExact(t, id);
  }

  lemma QueuedDigestBouncesHome(t: Tables, l: List, digest: string -> string, id: Id)
    requires ValidLists(t.lists) && l.id in t.lists && t.lists[l.id] == l
    requires id in DigestRows(t.subscriptions, t.subscribers, l, digest)
    ensures var row := DigestRows(t.subscriptions, t.subscribers, l, digest)[id];
            var email := t.subscribers[t.subscriptions[id].subscriberId];
            && row.to == email && row.from == l.Address() && row.originalSender == "" && row.listId == l.id
            && (IsTarget(t, row.envelopeSender, id) <==> PlainList(l) && CleanRecipient(Cut(email).value))
  {
    hide IsTarget, CleanRecipient, PlainList;
    AttributionExact(t, id);
  }

  // ----- The handler -----

  /** What the handler answers, after the calls `made`, to a bounce for which it recorded
      nothing: an error if the address does not decode or the list cannot be found, and
      success if the member or the subscription cannot. */
  ghost predicate AnswersUnrecorded(t: Tables, p: ParsedAddress, made: seq<bool>, ok: bool) {
    var d := DecodeVERP(p.listName + "-bounces+" + p.encodedPart + "@" + p.domain);
    if d.None? then !ok && made == []
    else if made == [false] then ok
    else if forall k :: k in t.subscribers ==> t.subscribers[k] != d.value.recipientAddr then ok && made == [true]
    else if made == [true, false] then !ok
    else if forall k :: k in t.lists ==> t.lists[k].listName != p.listName || t.lists[k].domain != p.domain then
      !ok && made == [true, true]
    else ok && (made == [true, true, false] || made == [true, true, true])
  }

  lemma NoTarget(t: Tables, addr: string)
    requires forall id :: !IsTarget(t, addr, id)
    ensures AfterBounce(t, addr) == t.subscriptions
  {
  }

  /** The lookups by email and by list name find the target's own subscriber and list. */
  lemma TargetNames(t: Tables, nextSubscriber: Id, nextSubscription: Id, p: ParsedAddress,
                    email: string, subscriber: Id, l: List, id: Id)
    requires ValidLists(t.lists) && IsTargetOf(t, p, id)
    requires ValidSubscriptions(t.subscribers, nextSubscriber, t.subscriptions, nextSubscription)
    requires DecodeVERP(Reassembled(p)).value.recipientAddr == email
    requires subscriber in t.subscribers && t.subscribers[subscriber] == email
    requires l.id in t.lists && t.lists[l.id] == l && l.listName == p.listName && l.domain == p.domain
    ensures t.subscriptions[id].subscriberId == subscriber && t.subscriptions[id].listId == l.id
  {
    hide DecodeVERP;
    assert t.lists[t.subscriptions[id].listId].id == t.subscriptions[id].listId;
  }

  lemma SubscriptionIsUnique(subscribers: map<Id, string>, nextSubscriber: Id,
                             subs: map<Id, Subscription>, next: Id, a: Id, b: Id)
    requires ValidSubscriptions(subscribers, nextSubscriber, subs, next) && a in subs && b in subs
    requires subs[a].listId == subs[b].listId && subs[a].subscriberId == subs[b].subscriberId
    ensures a == b
  {
  }

  class LMTPServer {
    const store: Store

    constructor (store: Store)
      ensures this.store == store
    {
      this.store := store;
    }

    ghost function View(): Tables
      reads store
    {
      Tables(store.lists, store.subscribers, store.subscriptions)
    }

    /** Counts a bounce and disables the subscription at the threshold. Whatever fails, the
        bounce is counted at most once, and the status changes only at the threshold. It
        stops at the first call that fails, and answers with an error exactly then. */
    method RecordBounce(l: List, sub: Subscription) returns (ok: bool)
      requires store.Valid() && sub.listId == l.id
      requires sub.id in store.subscriptions && store.subscriptions[sub.id] == sub
      modifies store`subscriptions, store`faults, store`calls
      ensures store.Valid() && store.faults >= old(store.faults) && old(store.calls) < store.calls
      ensures store.subscriptions == old(store.subscriptions)[sub.id :=
        BouncedBy(sub, l.settings.bounceThreshold, CallsSince(old(store.calls), store.calls))]
      ensures store.faults == old(store.faults) ==>
        ok && store.subscriptions == old(store.subscriptions)[sub.id := Bounced(sub, l.settings.bounceThreshold)]
      ensures var made := CallsSince(old(store.calls), store.calls);
        && (ok <==> FirstSucceed(made, |made|))
        && (ok ==> |made| == if sub.bounceCount + 1 >= l.settings.bounceThreshold then 3 else 2)
    {
      hide ValidSubscriptions, ValidLists, FreshIds, BouncedBy, FirstSucceed;
      ghost var made;
      ok := store.IncrementBounceCount(sub.id);
      made := [ok];
      BouncedCases(sub, l.settings.bounceThreshold, ok);
      if ok {
        var updated := store.GetSubscription(l.id, sub.subscriberId);
        ok := updated.Some?;
        IsTaken(store.subscriptions, sub.id);
        made := [true, ok];
        BouncedCases(sub, l.settings.bounceThreshold, ok);
        if ok {
          SubscriptionIsUnique(store.subscribers, store.nextSubscriberId,
                               store.subscriptions, store.nextSubscriptionId, sub.id, updated.value.id);
          if updated.value.bounceCount >= l.settings.bounceThreshold {
            ok := store.SetSubscriptionStatus(sub.id, Disabled);
            made := [true, true, ok];
            BouncedCases(sub, l.settings.bounceThreshold, ok);
          }
        }
      }
      assert CallsSince(old(store.calls), store.calls) == made;
    }

    /** Handles a message to a bounce address. Without a store failure it does what
        AfterBounce says. Its first three calls find the target; after them the bounce is
        recorded, and if one fails nothing happens. No other subscription is touched. The
        MTA is answered with an error if the address does not decode, the list cannot be
        found, or a call of the recording fails, and with success otherwise. */
    method HandleBounce(addr: string, p: ParsedAddress) returns (ok: bool)
      requires store.Valid() && ParseAddress(addr) == Some(p) && p.kind == Bounce
      modifies store`subscriptions, store`faults, store`calls
      ensures store.Valid() && store.faults >= old(store.faults)
      ensures store.faults == old(store.faults) ==> store.subscriptions == old(AfterBounce(View(), addr))
      ensures forall id :: old(IsTarget(View(), addr, id)) ==>
        var made := CallsSince(old(store.calls), store.calls);
        var sub := old(store.subscriptions)[id];
        store.subscriptions == old(store.subscriptions)[id :=
          BouncedBy(sub, store.lists[sub.listId].settings.bounceThreshold,
                    if FirstSucceed(made, 3) then made[3..] else [])]
      ensures forall id :: !old(IsTarget(View(), addr, id)) ==>
        (id in store.subscriptions <==> id in old(store.subscriptions)) &&
        (id in store.subscriptions ==> store.subscriptions[id] == old(store.subscriptions)[id])
      ensures store.faults == old(store.faults) ==>
        AnswersWell(old(View()), p, ok) && (ok <== exists id :: old(IsTarget(View(), addr, id)))
      ensures var made := CallsSince(old(store.calls), store.calls);
        if exists id :: old(IsTarget(View(), addr, id)) then
          if FirstSucceed(made, 3) then ok <==> FirstSucceed(made, |made|)
          else (made == [false] && ok) || (made == [true, false] && !ok) || (made == [true, true, false] && ok)
        else AnswersUnrecorded(old(View()), p, made, ok)
    {
      hide ParseAddress, DecodeVERP, ValidSubscriptions, ValidLists, FreshIds, AfterBounce, IsTarget, BouncedBy,
           AnswersWell, AnswersUnrecorded;
      var target;
      ok, target := FindTarget(addr, p);
      if target.None? {
        if store.faults == old(store.faults) {
          NoTarget(View(), addr);
          NothingFailed(View(), p, CallsSince(old(store.calls), store.calls), ok);
        }
        forall id | IsTarget(View(), addr, id)
          ensures id in store.subscriptions && store.subscriptions[id].listId in store.lists
          ensures var sub := store.subscriptions[id];
            store.subscriptions ==
              store.subscriptions[id := BouncedBy(sub, store.lists[sub.listId].settings.bounceThreshold, [])]
        {
          NotRecorded(View(), addr, id);
        }
        forall id | IsTarget(View(), addr, id)
          ensures var made := CallsSince(old(store.calls), store.calls);
            (made == [false] && ok) || (made == [true, false] && !ok) || (made == [true, true, false] && ok)
        {
          TargetMissed(View(), addr, p, id, CallsSince(old(store.calls), store.calls), ok);
        }
        return;
      }
      var (l, sub) := target.value;
      ghost var found := store.calls;
      AfterBounceOf(View(), store.nextSubscriberId, store.nextSubscriptionId, addr, sub.id);
      OnlyTarget(View(), store.nextSubscriberId, store.nextSubscriptionId, addr, sub.id);
      TargetAnswers(View(), addr, p, sub.id);
      ok := RecordBounce(l, sub);
      CallsStay(old(store.calls), found, store.calls, 3);
      assert CallsSince(old(store.calls), store.calls)[3..] == CallsSince(found, store.calls);
    }

    /** The subscription a bounce address names: three calls that must all succeed. `ok` is
        what the handler answers if there is none. */
    method FindTarget(addr: string, p: ParsedAddress) returns (ok: bool, target: Option<(List, Subscription)>)
      requires store.Valid() && ParseAddress(addr) == Some(p) && p.kind == Bounce
      modifies store`faults, store`calls
      ensures store.faults >= old(store.faults) && old(store.calls) <= store.calls
      ensures target.Some? ==>
        var (l, sub) := target.value;
        && IsTarget(View(), addr, sub.id) && store.subscriptions[sub.id] == sub
        && sub.listId == l.id && store.lists[l.id] == l
        && |store.calls| == |old(store.calls)| + 3 && store.faults == old(store.faults)
        && FirstSucceed(CallsSince(old(store.calls), store.calls), 3)
      ensures target.None? ==> forall id :: IsTarget(View(), addr, id) ==>
        !FirstSucceed(CallsSince(old(store.calls), store.calls), 3) && store.faults > old(store.faults)
      ensures target.None? ==> AnswersUnrecorded(View(), p, CallsSince(old(store.calls), store.calls), ok)
      ensures target.None? && store.faults == old(store.faults) ==>
        forall i :: |old(store.calls)| <= i < |store.calls| ==> store.calls[i]
    {
      hide ParseAddress, DecodeVERP, ValidSubscriptions, ValidLists, FreshIds;
      ok, target := true, None;
      var decoded := DecodeVERP(p.listName + MARKER + p.encodedPart + "@" + p.domain);
      if decoded.None? {
        return false, None;
      }
      var subscriber := store.GetSubscriber(decoded.value.recipientAddr);
      if subscriber.None? {
        return;
      }
      var l := store.GetList(p.listName, p.domain);
      if l.None? {
        return false, None;
      }
      var sub := store.GetSubscription(l.value.id, subscriber.value);
      if sub.Some? {
        return true, Some((l.value, sub.value));
      }
      forall id | IsTarget(View(), addr, id)
        ensures !FirstSucceed(CallsSince(old(store.calls), store.calls), 3) && store.faults > old(store.faults)
      {
        TargetNames(View(), store.nextSubscriberId, store.nextSubscriptionId, p,
                    decoded.value.recipientAddr, subscriber.value, l.value, id);
        IsTaken(store.subscriptions, id);
      }
    }
  }

  /** If there is a target, nothing but a failed call keeps the handler from finding it. */
  lemma TargetMissed(t: Tables, addr: string, p: ParsedAddress, id: Id, made: seq<bool>, ok: bool)
    requires ParseAddress(addr) == Some(p) && IsTarget(t, addr, id)
    requires AnswersUnrecorded(t, p, made, ok) && !FirstSucceed(made, 3)
    ensures (made == [false] && ok) || (made == [true, false] && !ok) || (made == [true, true, false] && ok)
  {
    hide DecodeVERP, ParseAddress;
    assert FirstSucceed([true, true, true], 3);
  }

  /** What the handler answers if no call fails: an error if the address does not decode, or
      names a member but no list. */
  ghost predicate AnswersWell(t: Tables, p: ParsedAddress, ok: bool) {
    var d := DecodeVERP(p.listName + "-bounces+" + p.encodedPart + "@" + p.domain);
    ok <==>
      && d.Some?
      && ((forall k :: k in t.subscribers ==> t.subscribers[k] != d.value.recipientAddr) ||
          (exists k :: k in t.lists && t.lists[k].listName == p.listName && t.lists[k].domain == p.domain))
  }

  lemma NothingFailed(t: Tables, p: ParsedAddress, made: seq<bool>, ok: bool)
    requires AnswersUnrecorded(t, p, made, ok) && forall i :: 0 <= i < |made| ==> made[i]
    ensures AnswersWell(t, p, ok)
  {
    hide DecodeVERP;
    assert made != [] ==> made[|made| - 1];
  }

  lemma TargetAnswers(t: Tables, addr: string, p: ParsedAddress, id: Id)
    requires ParseAddress(addr) == Some(p) && IsTarget(t, addr, id)
    ensures AnswersWell(t, p, true)
  {
    hide DecodeVERP, ParseAddress;
  }

  lemma NotRecorded(t: Tables, addr: string, id: Id)
    requires IsTarget(t, addr, id)
    ensures id in t.subscriptions && t.subscriptions[id].listId in t.lists
    ensures t.subscriptions == t.subscriptions[id :=
      BouncedBy(t.subscriptions[id], t.lists[t.subscriptions[id].listId].settings.bounceThreshold, [])]
  {
    hide ParseAddress, DecodeVERP;
  }

  lemma IsTaken(subs: map<Id, Subscription>, id: Id)
    requires id in subs
    ensures Taken(subs, subs[id].listId, subs[id].subscriberId)
  {
  }

  lemma OnlyTarget(t: Tables, nextSubscriber: Id, nextSubscription: Id, addr: string, id: Id)
    requires ValidLists(t.lists)
    requires ValidSubscriptions(t.subscribers, nextSubscriber, t.subscriptions, nextSubscription)
    requires IsTarget(t, addr, id)
    ensures id in t.subscriptions && t.subscriptions[id].listId in t.lists
    ensures forall other :: IsTarget(t, addr, other) ==> other == id
  {
    hide ParseAddress, ValidLists, ValidSubscriptions;
    forall other | IsTarget(t, addr, other) ensures other == id {
      TargetIsUnique(t, nextSubscriber, nextSubscription, ParseAddress(addr).value, id, other);
    }
  }
}
