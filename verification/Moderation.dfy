/** The pipeline's actions on posts, each one a step of the post lifecycle. */
module Moderation {
  import opened Wrappers
  import opened Model
  import opened QueueTable
  import opened ArchiveTable
  import opened SqliteStore
  import opened CallLog
  import opened FanOut
  import opened HeldNotices
  import L = PostLifecycle

  /** The size and attachment policy: why it refuses a post, or "". */
  type Policy = (List, string) -> string

  /** The notice to the sender of a post that was not accepted. */
  function RejectionNotice(l: List, sender: string, reason: string): string {
    "From: " + OwnerAddress(l) + "\r\nTo: " + sender +
    "\r\nSubject: Your post to " + l.Address() + " was rejected\r\n\r\n" +
    "Your message to " + l.Address() + " was not accepted.\n\n" +
    if reason != "" then reason + "\n\n"
    else "If this is a discussion list, only subscribers may post.\n" +
         "If this is a newsletter list, only designated senders may post.\n"
  }

  /** A post to list `l`, as the lifecycle sees it. */
  function PostOf(l: List, sender: string, raw: string): L.Posted {
    L.Posted(l.id, sender, raw, l.listType == Discussion && l.settings.moderationEnabled)
  }

  predicate IsPostOf(m: L.Posted, l: List, sender: string, raw: string) {
    m.listId == l.id && m.sender == sender && m.raw == raw
  }

  /** The text, and then the header before it. */
  method BuildRejection(l: List, sender: string, reason: string) returns (notice: string)
    ensures notice == RejectionNotice(l, sender, reason)
  {
    notice := "Your message to " + l.Address() + " was not accepted.\n\n";
    if reason != "" {
      notice := notice + (reason + "\n\n");
    } else {
      notice := notice + ("If this is a discussion list, only subscribers may post.\n" +
                          "If this is a newsletter list, only designated senders may post.\n");
    }
    notice := "From: " + (l.listName + "-owner@" + l.domain) + "\r\nTo: " + sender +
      "\r\nSubject: Your post to " + l.Address() + " was rejected\r\n\r\n" + notice;
  }

  function OwnerAddress(l: List): string { l.listName + "-owner@" + l.domain }

  function RejectionRow(l: List, sender: string, reason: string, clock: Time): QueuedMessage {
    NewRow(0, OwnerAddress(l), sender, RejectionNotice(l, sender, reason), "", "", clock)
  }

  /** From `before` to `after` the queue gained the notice to the sender, and nothing else. */
  ghost predicate Told(l: List, sender: string, reason: string, clock: Time,
                       before: Queue, from: Id, after: Queue, to: Id) {
    after == before[from := RejectionRow(l, sender, reason, clock)] && to == from + 1
  }

  // ----- The lifecycle's posts in the store's tables -----

  /** Every held row is a held post: its list, sender and text, and its expiry. */
  ghost predicate HeldMirrored(s: L.State, held: map<Id, HeldMessage>, extractSubject: string -> string) {
    && s.held.Keys == held.Keys
    && forall id :: id in s.held ==>
         && s.held[id].post < |s.posts|
         && var m := s.posts[s.held[id].post].m;
            held[id] == HeldMessage(m.listId, m.sender, extractSubject(m.raw), m.raw, s.held[id].expiresAt)
  }

  /** Every archive entry is an archived post, in the order in which they were archived. */
  ghost predicate ArchiveMirrored(s: L.State, archive: map<Id, ArchiveEntry>, next: Id,
                                  extractSubject: string -> string, extractText: string -> string) {
    && |s.archive| == next
    && (forall k :: k in archive <==> k < next)
    && forall k :: 0 <= k < |s.archive| ==>
         && s.archive[k] < |s.posts|
         && var m := s.posts[s.archive[k]].m;
            archive[k] == ArchiveEntry(m.listId, extractSubject(m.raw), m.sender, m.raw, extractText(m.raw),
                                       archive[k].receivedAt)
  }

  ghost predicate HeldListed(held: map<Id, HeldMessage>, lists: map<Id, List>) {
    forall id :: id in held ==> held[id].listId in lists
  }

  /** A step that archives nothing leaves the archive mirrored. */
  lemma SameArchive(s: L.State, s': L.State, archive: map<Id, ArchiveEntry>, next: Id,
                    extractSubject: string -> string, extractText: string -> string)
    requires ArchiveMirrored(s, archive, next, extractSubject, extractText)
    requires s'.archive == s.archive && |s'.posts| >= |s.posts|
    requires forall p :: 0 <= p < |s.posts| ==> s'.posts[p].m == s.posts[p].m
    ensures ArchiveMirrored(s', archive, next, extractSubject, extractText)
  {
  }

  lemma MoreArchive(s: L.State, s': L.State, archive: map<Id, ArchiveEntry>, next: Id, e: ArchiveEntry, p: nat,
                    extractSubject: string -> string, extractText: string -> string)
    requires ArchiveMirrored(s, archive, next, extractSubject, extractText)
    requires p < |s'.posts| && s'.archive == s.archive + [p] && |s'.posts| >= |s.posts|
    requires forall q :: 0 <= q < |s.posts| ==> s'.posts[q].m == s.posts[q].m
    requires var m := s'.posts[p].m;
      e == ArchiveEntry(m.listId, extractSubject(m.raw), m.sender, m.raw, extractText(m.raw), e.receivedAt)
    ensures ArchiveMirrored(s', archive[next := e], next + 1, extractSubject, extractText)
  {
  }

  lemma HoldArchivesNothing(s: L.State, step: L.Step)
    requires step.Post? && step.action.Hold?
    ensures var s' := L.Apply(s, step); s'.archive == s.archive && |s'.posts| >= |s.posts|
    ensures forall p :: 0 <= p < |s.posts| ==> L.Apply(s, step).posts[p].m == s.posts[p].m
  {
  }

  /** A held row and a held post come about together. */
  lemma HeldAdded(s: L.State, held: map<Id, HeldMessage>, next: Id, lists: map<Id, List>,
                  m: L.Posted, days: int, extractSubject: string -> string)
    requires L.Inv(s) && HeldMirrored(s, held, extractSubject) && s.nextHeld == next
    requires HeldListed(held, lists) && m.listId in lists && FreshIds(held, next)
    ensures var s' := L.Apply(s, L.Post(m, L.Hold, days));
      var held' := held[next := HeldMessage(m.listId, m.sender, extractSubject(m.raw), m.raw, s.now + days * DAY)];
      && s'.nextHeld == next + 1 && FreshIds(held', next + 1)
      && HeldMirrored(s', held', extractSubject) && HeldListed(held', lists)
  {
    HeldAhead(s);
    hide L.Inv, HeldMirrored;
    MoreHeld(s, held, m, days, extractSubject);
  }

  lemma MoreHeld(s: L.State, held: map<Id, HeldMessage>, m: L.Posted, days: int, extractSubject: string -> string)
    requires HeldMirrored(s, held, extractSubject) && s.nextHeld !in s.held
    ensures HeldMirrored(L.Apply(s, L.Post(m, L.Hold, days)),
      held[s.nextHeld := HeldMessage(m.listId, m.sender, extractSubject(m.raw), m.raw, s.now + days * DAY)],
      extractSubject)
  {
  }

  lemma HeldKeys(s: L.State, held: map<Id, HeldMessage>, extractSubject: string -> string)
    requires HeldMirrored(s, held, extractSubject)
    ensures s.held.Keys == held.Keys
  {
  }

  lemma SweptHeld(s: L.State, held: map<Id, HeldMessage>, extractSubject: string -> string)
    requires HeldMirrored(s, held, extractSubject)
    ensures HeldMirrored(L.Apply(s, L.Sweep),
      map id | id in held && !(held[id].expiresAt < s.now) :: held[id], extractSubject)
  {
    L.MessagesAreKept(s, L.Sweep);
    FewerHeld(s, L.Apply(s, L.Sweep), held,
              map id | id in held && !(held[id].expiresAt < s.now) :: held[id], extractSubject);
  }

  /** What may be done with a held message; a discard does nothing but remove it. */
  predicate IsAction(step: L.Step, id: Id, removed: bool) {
    || step == L.ApproveHeld(id, removed)
    || step == L.RejectHeld(id, removed)
    || (removed && step == L.DiscardHeld(id))
  }

  function Without<T>(rows: map<Id, T>, id: Id, removed: bool): map<Id, T> {
    if removed then rows - {id} else rows
  }

  lemma ActionFacts(s: L.State, id: Id, step: L.Step, removed: bool)
    requires L.Actionable(s, id) && IsAction(step, id, removed)
    ensures var s' := L.Apply(s, step);
      && s'.held == Without(s.held, id, removed) && s'.nextHeld == s.nextHeld
      && s'.archive == if step.ApproveHeld? then s.archive + [s.held[id].post] else s.archive
  {
  }

  lemma AcceptFacts(s: L.State, step: L.Step)
    requires step.Post? && step.action.Accept?
    ensures var s' := L.Apply(s, step);
      && s'.archive == s.archive + [|s.posts|] && |s'.posts| == |s.posts| + 1 && s'.posts[|s.posts|].m == step.m
      && s'.nextHeld == s.nextHeld
  {
  }

  lemma RejectFacts(s: L.State, step: L.Step)
    requires step.Post? && step.action.Reject?
    ensures var s' := L.Apply(s, step);
      s'.archive == s.archive && |s'.posts| == |s.posts| + 1 && s'.nextHeld == s.nextHeld
  {
  }

  /** A post that is accepted or rejected leaves the held ones alone. */
  lemma HeldStays(s: L.State, step: L.Step, held: map<Id, HeldMessage>, extractSubject: string -> string)
    requires HeldMirrored(s, held, extractSubject) && step.Post? && !step.action.Hold? && L.Enabled(s, step)
    ensures HeldMirrored(L.Apply(s, step), held, extractSubject)
  {
    L.MessagesAreKept(s, step);
    FewerHeld(s, L.Apply(s, step), held, held, extractSubject);
  }

  lemma ListHasId(lists: map<Id, List>, id: Id)
    requires ValidLists(lists) && id in lists
    ensures lists[id].id == id
  {
  }

  lemma FewerHeld(s: L.State, s': L.State, held: map<Id, HeldMessage>, held': map<Id, HeldMessage>,
                  extractSubject: string -> string)
    requires HeldMirrored(s, held, extractSubject) && s'.held.Keys == held'.Keys && |s'.posts| >= |s.posts|
    requires forall id :: id in s'.held ==> id in s.held && s'.held[id] == s.held[id] && held'[id] == held[id]
    requires forall p :: 0 <= p < |s.posts| ==> s'.posts[p].m == s.posts[p].m
    ensures HeldMirrored(s', held', extractSubject)
  {
  }

  lemma HeldAhead(s: L.State)
    requires L.Inv(s)
    ensures FreshIds(s.held, s.nextHeld) && s.nextHeld !in s.held
  {
  }

  /** The tables a post can change. */
  datatype Tables = Tables(
    queue: Queue,
    nextQueueId: Id,
    index: Index,
    held: map<Id, HeldMessage>,
    nextHeldId: Id)

  class PostPipeline {
    const store: Store
    const delivery: Pipeline
    const notifier: Notifier
    const violates: Policy

    constructor (delivery: Pipeline, notifier: Notifier, violates: Policy)
      ensures this.store == delivery.store && this.delivery == delivery
      ensures this.notifier == notifier && this.violates == violates
    {
      this.store, this.delivery, this.notifier, this.violates := delivery.store, delivery, notifier, violates;
    }

    /** The store holds the held and archived posts of the lifecycle state `s`, as they
        were posted. */
    ghost predicate Mirrors(s: L.State)
      reads store
    {
      && store == delivery.store == notifier.store && store.Valid() && L.Inv(s)
      && HeldMirrored(s, store.held, delivery.extractSubject) && s.nextHeld == store.nextHeldId
      && ArchiveMirrored(s, store.archive, store.nextArchiveId, delivery.extractSubject, delivery.extractText)
      && HeldListed(store.held, store.lists)
    }

    /** From `before` to `after` the queue gained the post for exactly the members who must
        get it, except that up to `lost` of them are missing. */
    ghost predicate Delivered(l: List, sender: string, raw: string, before: Queue, from: Id, after: Queue, to: Id,
                              ids: seq<Id>, lost: int)
      reads store`subscriptions, store`subscribers
    {
      var rows := PostRows(store.subscriptions, store.subscribers, l, sender, raw, delivery.modifier);
      Grown(before, from, after, to, ids, rows) && |Missing(rows, ids)| <= lost
    }

    /** From `before` to `after` the archive gained the post, and the index its row if
        `indexed`. */
    ghost predicate Archives(l: List, sender: string, raw: string, before: Index, after: Index, indexed: bool) {
      exists clock: Time ::
        after == ArchiveTable.Apply(before, Archive(delivery.EntryOf(l, sender, raw, clock), indexed))
    }

    /** What a post leaves in the archive and its index: nothing unless it was accepted. */
    ghost predicate Filed(action: L.PostAction, l: List, sender: string, raw: string,
                          before: Index, after: Index, taken: bool, ok: bool) {
      if taken && action.Accept? then exists indexed: bool ::
        (ok ==> indexed) && Archives(l, sender, raw, before, after, indexed)
      else after == before
    }

    /** The row of a post held at `now`. */
    function HeldFor(l: List, sender: string, raw: string, now: Time): HeldMessage {
      HeldMessage(l.id, sender, delivery.extractSubject(raw), raw, now + l.settings.heldExpiryDays * DAY)
    }

    /** What a post leaves in the queue, by what was decided about it, if `failed` calls
        failed; with `ok` all that comes after archiving or holding it was tried. */
    ghost predicate Handled(action: L.PostAction, l: List, sender: string, raw: string, now: Time,
                            before: Queue, from: Id, after: Queue, to: Id, ids: seq<Id>, ok: bool, failed: int)
      reads store`subscriptions, store`subscribers
      reads notifier.store`subscribers, notifier.store`owners, notifier.store`moderators
    {
      var m := HeldFor(l, sender, raw, now);
      match action
      case Accept =>
        if ok then Delivered(l, sender, raw, before, from, after, to, ids, failed) else after == before && to == from
      case Hold =>
        && notifier.AnnouncedTo(l, m, now, before, from, after, to, ids, ok && l.settings.senderHeldNotice)
        && (failed == 0 ==> notifier.Announced(l, m, now, before, from, after, to, ids))
      case Reject => Told(l, sender, violates(l, raw), now, before, from, after, to)
    }

    /** What the poster's MTA is answered, by the calls from the deciding one on, with which
        `queued` rows were queued. An accepted post was taken if it could be archived and the
        subscriptions listed, and a rejected one if its notice was queued. A held one was
        taken unless the last call, to hold it or to queue a notice, failed. */
    ghost predicate Answers(action: L.PostAction, made: seq<bool>, ok: bool, queued: int) {
      && made != []
      && match action
         case Accept => ok <==> FirstSucceed(made, 3)
         case Hold => if ok then made[0] && (queued > 0 ==> made[|made| - 1]) else !made[|made| - 1]
         case Reject => ok <==> made[0]
    }

    /** An owner or designated sender of the list. */
    ghost predicate IsWriter(l: List, sender: string)
      reads store`subscribers, store`owners, store`designatedSenders
    {
      HasRole(store.owners, l, sender) || HasRole(store.designatedSenders, l, sender)
    }

    ghost predicate IsSubscriber(l: List, sender: string)
      reads store`subscribers, store`subscriptions
    {
      exists id, k :: id in store.subscribers && store.subscribers[id] == sender
        && k in store.subscriptions && store.subscriptions[k].listId == l.id
        && store.subscriptions[k].subscriberId == id
    }

    ghost predicate HasRole(roles: set<(Id, Id)>, l: List, sender: string)
      reads store`subscribers
    {
      exists id :: id in store.subscribers && store.subscribers[id] == sender && (l.id, id) in roles
    }

    /** What the policies decide about a post to the list. */
    ghost function Decision(l: List, sender: string, raw: string): L.PostAction
      reads store`subscribers, store`subscriptions, store`owners, store`designatedSenders
    {
      if violates(l, raw) != "" then L.Reject
      else L.DecidePostAction(l.listType, l.settings.moderationEnabled, IsSubscriber(l, sender),
                              HasRole(store.owners, l, sender), HasRole(store.designatedSenders, l, sender))
    }

    ghost predicate IsKnown(sender: string)
      reads store`subscribers
    {
      exists id :: id in store.subscribers && store.subscribers[id] == sender
    }

    /** How many lookups it takes to place a sender, by how they go: once the subscription
        is found, the two roles are looked up; otherwise the sender is looked up again, and
        then the roles if that finds anybody. */
    ghost function Lookups(l: List, sender: string, made: seq<bool>): nat
      reads store`subscribers, store`subscriptions
    {
      if IsSubscriber(l, sender) && FirstSucceed(made, 2) then 4
      else
        var again := if IsKnown(sender) && FirstSucceed(made, 1) then 2 else 1;
        again + if IsKnown(sender) && |made| > again && made[again] then 3 else 1
    }

    /** A post that policy refuses needs none. */
    ghost function LookupsFor(l: List, sender: string, raw: string, made: seq<bool>): nat
      reads store`subscribers, store`subscriptions
    {
      if violates(l, raw) != "" then 0 else Lookups(l, sender, made)
    }

    /** With the first call after the lookups the post is taken, and without it nothing
        happens; that call and the ones after it decide what is answered. */
    ghost predicate DecidedBy(made: seq<bool>, l: List, sender: string, raw: string, action: L.PostAction,
                              taken: bool, ok: bool, queued: int)
      reads store`subscribers, store`subscriptions
    {
      var turn := LookupsFor(l, sender, raw, made);
      turn < |made| && (taken <==> made[turn]) && Answers(action, made[turn..], ok, queued)
    }

    /** Later calls are no lookups. */
    lemma LookupsStay(l: List, sender: string, raw: string, made: seq<bool>, more: seq<bool>)
      requires made <= more && |made| == LookupsFor(l, sender, raw, made)
      ensures LookupsFor(l, sender, raw, more) == |made|
    {
      hide IsSubscriber, IsKnown;
      assert forall i :: 0 <= i < |made| ==> made[i] == more[i];
    }

    /** Finds the sender among the subscribers, and its subscription; without one the
        sender is looked up again. */
    method FindSender(l: List, sender: string) returns (isSubscriber: bool, id: Option<Id>)
      requires store.Valid()
      modifies store`faults, store`calls
      ensures store.faults >= old(store.faults) && old(store.calls) <= store.calls
      ensures id.Some? ==> id.value in store.subscribers && store.subscribers[id.value] == sender
      ensures var made := CallsSince(old(store.calls), store.calls);
        && (isSubscriber <==> IsSubscriber(l, sender) && FirstSucceed(made, 2))
        && if isSubscriber then |made| == 2 && id.Some?
           else
             var again := if IsKnown(sender) && FirstSucceed(made, 1) then 2 else 1;
             |made| == again + 1 && (id.Some? <==> IsKnown(sender) && made[again])
      ensures store.faults == old(store.faults) ==>
        (isSubscriber <==> IsSubscriber(l, sender)) && (id.Some? <==> IsKnown(sender))
    {
      hide IsSubscriber, IsKnown, ValidLists, ValidSubscriptions, FreshIds, FirstSucceed;
      isSubscriber := false;
      id := store.GetSubscriber(sender);
      KnownIf(l, sender, id);
      ghost var made := CallsSince(old(store.calls), store.calls);
      if id.Some? {
        var sub := store.GetSubscription(l.id, id.value);
        isSubscriber := sub.Some?;
        SubscribedIf(l, sender, id.value);
        made := CallsSince(old(store.calls), store.calls);
      }
      TwoCalls(old(store.calls), made, store.calls);
      ghost var calls := store.calls;
      if !isSubscriber {
        id := store.GetSubscriber(sender);
        KnownIf(l, sender, id);
        CallsStay(old(store.calls), calls, store.calls, |made|);
        CallsStay(old(store.calls), calls, store.calls, 1);
        FewerSucceed(CallsSince(old(store.calls), store.calls), 1, 2);
      }
    }

    lemma KnownIf(l: List, sender: string, id: Option<Id>)
      ensures id.Some? && id.value in store.subscribers && store.subscribers[id.value] == sender ==> IsKnown(sender)
      ensures (forall k :: k in store.subscribers ==> store.subscribers[k] != sender) <==> !IsKnown(sender)
      ensures IsSubscriber(l, sender) ==> IsKnown(sender)
    {
    }

    lemma SubscribedIf(l: List, sender: string, id: Id)
      requires store.Valid() && id in store.subscribers && store.subscribers[id] == sender
      ensures Taken(store.subscriptions, l.id, id) <==> IsSubscriber(l, sender)
    {
    }

    /** The lookups by which ProcessPost places a sender. A failed one can only take a
        standing away. */
    method Standing(l: List, sender: string)
      returns (isSubscriber: bool, isOwner: bool, isDesignatedSender: bool)
      requires store.Valid()
      modifies store`faults, store`calls
      ensures store.faults >= old(store.faults) && old(store.calls) <= store.calls
      ensures var made := CallsSince(old(store.calls), store.calls); |made| == Lookups(l, sender, made)
      ensures isSubscriber ==> IsSubscriber(l, sender)
      ensures isOwner ==> HasRole(store.owners, l, sender)
      ensures isDesignatedSender ==> HasRole(store.designatedSenders, l, sender)
      ensures store.faults == old(store.faults) ==>
        && (isSubscriber <==> IsSubscriber(l, sender))
        && (isOwner <==> HasRole(store.owners, l, sender))
        && (isDesignatedSender <==> HasRole(store.designatedSenders, l, sender))
    {
      hide IsSubscriber, IsKnown, HasRole, ValidLists, FreshIds, ValidSubscriptions, FirstSucceed, Lookups;
      var id;
      isSubscriber, id := FindSender(l, sender);
      ghost var found := store.calls;
      isOwner, isDesignatedSender := false, false;
      if id.Some? {
        isOwner := store.IsOwner(l.id, id.value);
        isDesignatedSender := store.IsDesignatedSender(l.id, id.value);
        RolesOf(l, sender, id.value);
      } else {
        NoRoles(l, sender);
      }
      LookupsCounted(l, sender, CallsSince(old(store.calls), found), CallsSince(old(store.calls), store.calls),
                     isSubscriber, id.Some?);
    }

    lemma RolesOf(l: List, sender: string, id: Id)
      requires store.Valid() && id in store.subscribers && store.subscribers[id] == sender
      ensures HasRole(store.owners, l, sender) <==> (l.id, id) in store.owners
      ensures HasRole(store.designatedSenders, l, sender) <==> (l.id, id) in store.designatedSenders
    {
    }

    lemma NoRoles(l: List, sender: string)
      ensures !IsKnown(sender) ==> !HasRole(store.owners, l, sender) && !HasRole(store.designatedSenders, l, sender)
    {
    }

    lemma LookupsCounted(l: List, sender: string, found: seq<bool>, made: seq<bool>, isSubscriber: bool, known: bool)
      requires found <= made && |made| == |found| + if known then 2 else 0
      requires isSubscriber <==> IsSubscriber(l, sender) && FirstSucceed(found, 2)
      requires if isSubscriber then |found| == 2 && known
        else
          var again := if IsKnown(sender) && FirstSucceed(found, 1) then 2 else 1;
          |found| == again + 1 && (known <==> IsKnown(sender) && found[again])
      ensures Lookups(l, sender, made) == |made|
    {
      hide IsSubscriber, IsKnown;
      assert forall i :: 0 <= i < |found| ==> found[i] == made[i];
    }

    /** What becomes of a post, by policy and then by its sender's standing. */
    method Decide(l: List, sender: string, raw: string) returns (action: L.PostAction)
      requires store.Valid()
      modifies store`faults, store`calls
      ensures store.faults >= old(store.faults) && old(store.calls) <= store.calls
      ensures var made := CallsSince(old(store.calls), store.calls);
        |made| == LookupsFor(l, sender, raw, made)
      ensures action == Decision(l, sender, raw) || action == L.Reject
      ensures store.faults == old(store.faults) ==> action == Decision(l, sender, raw)
      ensures PostOf(l, sender, raw).moderated ==> action == Decision(l, sender, raw) != L.Accept
    {
      hide IsSubscriber, HasRole, Store.Valid, Lookups;
      action := L.Reject;
      if violates(l, raw) == "" {
        var isSubscriber, isOwner, isDesignatedSender := Standing(l, sender);
        action := L.DecidePostAction(l.listType, l.settings.moderationEnabled,
                                     isSubscriber, isOwner, isDesignatedSender);
      }
    }

    method RejectMessage(l: List, sender: string, reason: string, clock: Time) returns (ok: bool)
      requires store.Valid()
      modifies store`queue, store`nextQueueId, store`faults, store`calls
      ensures store.Valid() && store.faults == if ok then old(store.faults) else old(store.faults) + 1
      ensures store.calls == old(store.calls) + [ok]
      ensures ok ==>
        Told(l, sender, reason, clock, old(store.queue), old(store.nextQueueId), store.queue, store.nextQueueId)
      ensures !ok ==> store.queue == old(store.queue) && store.nextQueueId == old(store.nextQueueId)
    {
      hide ValidLists, ValidSubscriptions, RejectionNotice;
      var notice := BuildRejection(l, sender, reason);
      ok := store.Enqueue(0, l.listName + "-owner@" + l.domain, sender, notice, "", "", clock);
    }

    /** The tables with the held row are those of the state with the held post. */
    lemma HeldPostMirrored(l: List, sender: string, raw: string, now: Time, s: L.State)
      requires Mirrors(s) && s.now == now && l.id in store.lists
      ensures var s' := L.Apply(s, L.Post(PostOf(l, sender, raw), L.Hold, l.settings.heldExpiryDays));
        var held' := store.held[store.nextHeldId := HeldFor(l, sender, raw, now)];
        && L.Inv(s') && HeldMirrored(s', held', delivery.extractSubject) && s'.nextHeld == store.nextHeldId + 1
        && FreshIds(held', store.nextHeldId + 1) && HeldListed(held', store.lists)
        && ArchiveMirrored(s', store.archive, store.nextArchiveId, delivery.extractSubject, delivery.extractText)
    {
      hide L.Inv, L.Apply, ValidLists, ValidSubscriptions, FreshIds, HeldMirrored, ArchiveMirrored, HeldListed;
      var step := L.Post(PostOf(l, sender, raw), L.Hold, l.settings.heldExpiryDays);
      HeldAdded(s, store.held, store.nextHeldId, store.lists, step.m, step.holdDays, delivery.extractSubject);
      HoldArchivesNothing(s, step);
      L.StepKeepsInv(s, step);
      SameArchive(s, L.Apply(s, step), store.archive, store.nextArchiveId,
                  delivery.extractSubject, delivery.extractText);
    }

    /** Holds a post, with its first call, and announces it. If an announcement fails the
        post is still held. */
    method HoldMessage(l: List, sender: string, raw: string, now: Time, ghost s: L.State)
      returns (ok: bool, ghost s': L.State, ghost ids: seq<Id>)
      requires Mirrors(s) && s.now == now && l.id in store.lists
      modifies store`held, store`nextHeldId, store`queue, store`nextQueueId, store`faults, store`calls
      ensures store.faults >= old(store.faults) && old(store.calls) < store.calls
      ensures Mirrors(s') && (store.faults == old(store.faults) ==> ok)
      ensures
        if FirstSucceed(CallsSince(old(store.calls), store.calls), 1) then
          && s' == L.Apply(s, L.Post(PostOf(l, sender, raw), L.Hold, l.settings.heldExpiryDays))
          && Handled(L.Hold, l, sender, raw, now, old(store.queue), old(store.nextQueueId),
                     store.queue, store.nextQueueId, ids, ok, store.faults - old(store.faults))
        else
          !ok && s' == s && store.queue == old(store.queue) && store.nextQueueId == old(store.nextQueueId)
      ensures store.held ==
        if FirstSucceed(CallsSince(old(store.calls), store.calls), 1)
        then old(store.held)[old(store.nextHeldId) := HeldFor(l, sender, raw, now)]
        else old(store.held)
      ensures Answers(L.Hold, CallsSince(old(store.calls), store.calls), ok,
                      store.nextQueueId - old(store.nextQueueId))
    {
      hide L.Inv, L.Apply, ValidLists, ValidSubscriptions, FreshIds, HeldMirrored, ArchiveMirrored, HeldListed,
           Notifier.Announced, Notifier.AnnouncedTo;
      ghost var step := L.Post(PostOf(l, sender, raw), L.Hold, l.settings.heldExpiryDays);
      s', ids := s, [];
      HeldPostMirrored(l, sender, raw, now, s);
      var m := HeldMessage(l.id, sender, delivery.extractSubject(raw), raw, now + l.settings.heldExpiryDays * DAY);
      ok := store.CreateHeldMessage(m);
      TwoCalls(old(store.calls), [ok], store.calls);
      if ok {
        s' := L.Apply(s, step);
        ghost var calls := store.calls;
        ghost var found;
        ok, ids, found := notifier.Announce(l, m, now);
        CallsStay(old(store.calls), calls, store.calls, 1);
      }
    }

    /** Archives a post and queues it, as lifecycle step `step` has it: of post `p`. The
        step has happened once the first call, which writes the entry, has succeeded. */
    method Deliver(l: List, sender: string, raw: string, ghost s: L.State, ghost step: L.Step, ghost p: nat)
      returns (ok: bool, ghost ids: seq<Id>)
      requires Mirrors(s) && L.Enabled(s, step)
      requires var s' := L.Apply(s, step);
        && s'.archive == s.archive + [p] && p < |s'.posts| && IsPostOf(s'.posts[p].m, l, sender, raw)
      modifies store`queue, store`nextQueueId, store`archive, store`archiveFts, store`nextArchiveId,
               store`faults, store`calls
      ensures store.Valid() && store.faults >= old(store.faults) && old(store.calls) < store.calls
      ensures store.faults == old(store.faults) ==> ok
      ensures ok <==> FirstSucceed(CallsSince(old(store.calls), store.calls), 3)
      ensures if ok then
          Delivered(l, sender, raw, old(store.queue), old(store.nextQueueId), store.queue, store.nextQueueId, ids,
                    store.faults - old(store.faults))
        else store.queue == old(store.queue) && store.nextQueueId == old(store.nextQueueId)
      ensures var s' := if FirstSucceed(CallsSince(old(store.calls), store.calls), 1) then L.Apply(s, step) else s;
        ArchiveMirrored(s', store.archive, store.nextArchiveId, delivery.extractSubject, delivery.extractText)
      ensures var made := CallsSince(old(store.calls), store.calls);
        if FirstSucceed(made, 1) then
          Archives(l, sender, raw, old(store.IndexView()), store.IndexView(), FirstSucceed(made, 2))
        else store.IndexView() == old(store.IndexView())
    {
      hide L.Inv, ValidLists, ValidSubscriptions, HeldMirrored, ArchiveMirrored, FreshIds, PostRows, Grown, Missing,
           L.Apply, FirstSucceed;
      L.MessagesAreKept(s, step);
      ghost var archive, next := store.archive, store.nextArchiveId;
      ok, ids := delivery.DeliverToList(l, sender, raw);
      ghost var made := CallsSince(old(store.calls), store.calls);
      if FirstSucceed(made, 1) {
        ghost var clock: Time :| store.IndexView() ==
          ArchiveTable.Apply(old(store.IndexView()),
                             Archive(delivery.EntryOf(l, sender, raw, clock), FirstSucceed(made, 2)));
        MoreArchive(s, L.Apply(s, step), archive, next, delivery.EntryOf(l, sender, raw, clock), p,
                    delivery.extractSubject, delivery.extractText);
      }
    }

    ghost function View(): Tables
      reads store
    {
      Tables(store.queue, store.nextQueueId, store.IndexView(), store.held, store.nextHeldId)
    }

    /** The posting policy, by what it does to the tables. A post that violates nothing is
        archived only on an unmoderated discussion list, if a subscriber wrote it, and on a
        newsletter list, if an owner or designated sender did; it is held only on a moderated
        discussion list. And if no call failed then it is indeed archived, or held, or in all
        other cases its sender gets the notice from the owner address. */
    ghost predicate ObeysPolicy(l: List, sender: string, raw: string, now: Time, isSubscriber: bool, isWriter: bool,
                                before: Tables, after: Tables, whole: bool)
    {
      var fine := violates(l, raw) == "";
      var moderated := l.listType == Discussion && l.settings.moderationEnabled;
      var welcome :=
        if l.listType == Discussion then !l.settings.moderationEnabled && isSubscriber
        else l.listType == Newsletter && isWriter;
      && (after.index == before.index || (fine && welcome))
      && (after.held == before.held || (fine && moderated))
      && (whole ==>
            if fine && welcome then
              exists clock: Time :: after.index.archive == before.index.archive[before.index.next :=
                ArchiveEntry(l.id, delivery.extractSubject(raw), sender, raw, delivery.extractText(raw), clock)]
            else if fine && moderated then
              after.held == before.held[before.nextHeldId :=
                HeldMessage(l.id, sender, delivery.extractSubject(raw), raw,
                            now + l.settings.heldExpiryDays * (24 * HOUR))]
            else
              after.queue == before.queue[before.nextQueueId :=
                QueuedMessage(0, l.listName + "-owner@" + l.domain, sender,
                              RejectionNotice(l, sender, violates(l, raw)), "", "", 0, now, None)])
    }

    lemma PolicyObeyed(l: List, sender: string, raw: string, now: Time, isSubscriber: bool, isOwner: bool,
                       isDesignatedSender: bool, action: L.PostAction, taken: bool, ok: bool, ids: seq<Id>,
                       before: Tables, after: Tables, failed: nat)
      requires var decided := if violates(l, raw) != "" then L.Reject
                              else L.DecidePostAction(l.listType, l.settings.moderationEnabled,
                                                      isSubscriber, isOwner, isDesignatedSender);
        && (action == decided || action == L.Reject) && (failed == 0 ==> ok && taken && action == decided)
      requires Filed(action, l, sender, raw, before.index, after.index, taken, ok)
      requires taken ==>
        Handled(action, l, sender, raw, now, before.queue, before.nextQueueId, after.queue, after.nextQueueId, ids, ok,
                failed)
      requires after.held == if taken && action == L.Hold
                             then before.held[before.nextHeldId := HeldFor(l, sender, raw, now)] else before.held
      ensures ObeysPolicy(l, sender, raw, now, isSubscriber, isOwner || isDesignatedSender, before, after, failed == 0)
    {
      hide Notifier.Announced, Notifier.AnnouncedTo, RejectionNotice, Delivered;
    }

    /** A post to the list. The call after the lookups archives or holds it, or queues the
        notice: with it the post is taken, and without it nothing is changed. */
    method PostTo(l: List, sender: string, raw: string, now: Time, ghost s: L.State)
      returns (ok: bool, ghost s': L.State, ghost ids: seq<Id>, ghost action: L.PostAction, ghost taken: bool)
      requires Mirrors(s) && s.now == now && l.id in store.lists
      modifies store`queue, store`nextQueueId, store`archive, store`archiveFts, store`nextArchiveId,
               store`held, store`nextHeldId, store`faults, store`calls
      ensures store.faults >= old(store.faults) && old(store.calls) < store.calls && Mirrors(s')
      ensures action == old(Decision(l, sender, raw)) || action == L.Reject
      ensures if taken then
          && s' == L.Apply(s, L.Post(PostOf(l, sender, raw), action, l.settings.heldExpiryDays))
          && Handled(action, l, sender, raw, now, old(store.queue), old(store.nextQueueId),
                     store.queue, store.nextQueueId, ids, ok, store.faults - old(store.faults))
        else
          !ok && s' == s && store.queue == old(store.queue) && store.nextQueueId == old(store.nextQueueId)
      ensures Filed(action, l, sender, raw, old(store.IndexView()), store.IndexView(), taken, ok)
      ensures DecidedBy(CallsSince(old(store.calls), store.calls), l, sender, raw, action, taken, ok,
                        store.nextQueueId - old(store.nextQueueId))
      ensures store.faults == old(store.faults) ==> ok && taken && action == old(Decision(l, sender, raw))
      ensures PostOf(l, sender, raw).moderated ==> action != L.Accept
      ensures ObeysPolicy(l, sender, raw, now, old(IsSubscriber(l, sender)), old(IsWriter(l, sender)),
                          old(View()), View(), store.faults == old(store.faults))
    {
      hide Answers, ObeysPolicy, IsSubscriber, HasRole, Handled, Filed, HeldMirrored, ArchiveMirrored, HeldListed,
           L.Inv, L.Apply, FirstSucceed, Decision, LookupsFor, ValidLists, ValidSubscriptions, FreshIds, PostOf,
           HeldFor, L.DecidePostAction;
      var decided := Decide(l, sender, raw);
      action := decided;
      ghost var calls, failed := store.calls, store.faults;
      ok, s', ids := Settle(l, sender, raw, decided, now, s);
      taken := FirstSucceed(CallsSince(calls, store.calls), 1);
      LookupsStay(l, sender, raw, CallsSince(old(store.calls), calls), CallsSince(old(store.calls), store.calls));
      TurnOf(old(store.calls), calls, store.calls);
      if taken {
        HandledMore(decided, l, sender, raw, now, old(store.queue), old(store.nextQueueId),
                    store.queue, store.nextQueueId, ids, ok, store.faults - failed, store.faults - old(store.faults));
      }
      DecisionIs(l, sender, raw);
      PolicyObeyed(l, sender, raw, now, IsSubscriber(l, sender), HasRole(store.owners, l, sender),
                   HasRole(store.designatedSenders, l, sender), action, taken, ok, ids, old(View()), View(),
                   store.faults - old(store.faults));
    }

    lemma DecisionIs(l: List, sender: string, raw: string)
      ensures Decision(l, sender, raw) ==
        if violates(l, raw) != "" then L.Reject
        else L.DecidePostAction(l.listType, l.settings.moderationEnabled, IsSubscriber(l, sender),
                                HasRole(store.owners, l, sender), HasRole(store.designatedSenders, l, sender))
    {
    }

    /** A post is, in this order, refused by policy or decided by the posting policy. It
        becomes the archived or held post it was, or its sender is told, as decided. A
        failed lookup can only make a rejection of it. */
    method ProcessPost(listName: string, domain: string, sender: string, raw: string, now: Time, ghost s: L.State)
      returns (ok: bool, l: Option<List>, ghost s': L.State, ghost ids: seq<Id>,
               ghost action: L.PostAction, ghost taken: bool)
      requires Mirrors(s) && s.now == now
      modifies store`queue, store`nextQueueId, store`archive, store`archiveFts, store`nextArchiveId,
               store`held, store`nextHeldId, store`faults, store`calls
      ensures store.faults >= old(store.faults) && old(store.calls) < store.calls && Mirrors(s')
      ensures l.Some? ==>
        && l.value.id in store.lists && store.lists[l.value.id] == l.value
        && l.value.listName == listName && l.value.domain == domain
        && (action == old(Decision(l.value, sender, raw)) || action == L.Reject)
      ensures if taken then
          && l.Some?
          && (l.value.listType == Discussion && l.value.settings.moderationEnabled ==> action != L.Accept)
          && s' == L.Apply(s, L.Post(
               L.Posted(l.value.id, sender, raw,
                        l.value.listType == Discussion && l.value.settings.moderationEnabled),
               action, l.value.settings.heldExpiryDays))
          && Handled(action, l.value, sender, raw, now, old(store.queue), old(store.nextQueueId),
                     store.queue, store.nextQueueId, ids, ok, store.faults - old(store.faults))
        else
          !ok && s' == s && store.queue == old(store.queue) && store.nextQueueId == old(store.nextQueueId)
      ensures if l.None? then store.IndexView() == old(store.IndexView())
        else Filed(action, l.value, sender, raw, old(store.IndexView()), store.IndexView(), taken, ok)
      ensures l.Some? ==>
        var made := CallsSince(old(store.calls), store.calls);
        made != [] && DecidedBy(made[1..], l.value, sender, raw, action, taken, ok,
                                store.nextQueueId - old(store.nextQueueId))
      ensures store.faults == old(store.faults) ==>
        && (ok <==> l.Some?) && (taken <==> l.Some?)
        && (l.Some? ==> action == old(Decision(l.value, sender, raw)))
        && (l.None? ==>
              forall k :: k in store.lists ==> store.lists[k].listName != listName || store.lists[k].domain != domain)
      ensures if l.None? then View() == old(View())
        else ObeysPolicy(l.value, sender, raw, now, old(IsSubscriber(l.value, sender)), old(IsWriter(l.value, sender)),
                         old(View()), View(), store.faults == old(store.faults))
    {
      hide DecidedBy, ObeysPolicy, IsSubscriber, IsWriter, Handled, Filed, HeldMirrored, ArchiveMirrored, HeldListed,
           L.Inv, L.Apply, Decision, ValidLists, ValidSubscriptions, FreshIds;
      l := store.GetList(listName, domain);
      if l.None? {
        return false, l, s, [], L.Reject, false;
      }
      ghost var listed, failed := store.calls, store.faults;
      ok, s', ids, action, taken := PostTo(l.value, sender, raw, now, s);
      assert CallsSince(old(store.calls), store.calls)[1..] == CallsSince(listed, store.calls);
      if taken {
        HandledMore(action, l.value, sender, raw, now, old(store.queue), old(store.nextQueueId),
                    store.queue, store.nextQueueId, ids, ok, store.faults - failed, store.faults - old(store.faults));
      }
    }

    /** More failures excuse no less. */
    lemma HandledMore(action: L.PostAction, l: List, sender: string, raw: string, now: Time,
                      before: Queue, from: Id, after: Queue, to: Id, ids: seq<Id>, ok: bool, failed: int, more: int)
      requires Handled(action, l, sender, raw, now, before, from, after, to, ids, ok, failed) && 0 <= failed <= more
      ensures Handled(action, l, sender, raw, now, before, from, after, to, ids, ok, more)
    {
      hide Notifier.Announced, Notifier.AnnouncedTo, Grown, Missing, PostRows;
    }

    /** The three ways a post can go; the first call of each decides whether it does. */
    method Settle(l: List, sender: string, raw: string, action: L.PostAction, now: Time, ghost s: L.State)
      returns (ok: bool, ghost s': L.State, ghost ids: seq<Id>)
      requires Mirrors(s) && s.now == now && l.id in store.lists
      requires L.Enabled(s, L.Post(PostOf(l, sender, raw), action, l.settings.heldExpiryDays))
      modifies store`queue, store`nextQueueId, store`archive, store`archiveFts, store`nextArchiveId,
               store`held, store`nextHeldId, store`faults, store`calls
      ensures store.faults >= old(store.faults) && old(store.calls) < store.calls
      ensures Mirrors(s') && (store.faults == old(store.faults) ==> ok)
      ensures if FirstSucceed(CallsSince(old(store.calls), store.calls), 1) then
          && s' == L.Apply(s, L.Post(PostOf(l, sender, raw), action, l.settings.heldExpiryDays))
          && Handled(action, l, sender, raw, now, old(store.queue), old(store.nextQueueId),
                     store.queue, store.nextQueueId, ids, ok, store.faults - old(store.faults))
        else
          !ok && s' == s && store.queue == old(store.queue) && store.nextQueueId == old(store.nextQueueId)
      ensures Filed(action, l, sender, raw, old(store.IndexView()), store.IndexView(),
                    FirstSucceed(CallsSince(old(store.calls), store.calls), 1), ok)
      ensures store.held ==
        if FirstSucceed(CallsSince(old(store.calls), store.calls), 1) && action == L.Hold
        then old(store.held)[old(store.nextHeldId) := HeldFor(l, sender, raw, now)]
        else old(store.held)
      ensures Answers(action, CallsSince(old(store.calls), store.calls), ok,
                      store.nextQueueId - old(store.nextQueueId))
    {
      hide L.Inv, L.Apply, ValidLists, ValidSubscriptions, FreshIds, HeldMirrored, ArchiveMirrored, PostRows, Grown,
           Delivered, Told, Archives, FirstSucceed, Notifier.Announced, Notifier.AnnouncedTo;
      ghost var step := L.Post(PostOf(l, sender, raw), action, l.settings.heldExpiryDays);
      s', ids := s, [];
      match action
      case Accept =>
        AcceptFacts(s, step);
        L.StepKeepsInv(s, step);
        HeldStays(s, step, store.held, delivery.extractSubject);
        ok, ids := Deliver(l, sender, raw, s, step, |s.posts|);
        FewerSucceed(CallsSince(old(store.calls), store.calls), 1, 3);
        FewerSucceed(CallsSince(old(store.calls), store.calls), 2, 3);
        s' := if FirstSucceed(CallsSince(old(store.calls), store.calls), 1) then L.Apply(s, step) else s;
      case Hold =>
        ok, s', ids := HoldMessage(l, sender, raw, now, s);
      case Reject =>
        RejectFacts(s, step);
        L.StepKeepsInv(s, step);
        HeldStays(s, step, store.held, delivery.extractSubject);
        L.MessagesAreKept(s, step);
        SameArchive(s, L.Apply(s, step), store.archive, store.nextArchiveId,
                    delivery.extractSubject, delivery.extractText);
        ok := RejectMessage(l, sender, violates(l, raw), now);
        TwoCalls(old(store.calls), [ok], store.calls);
        s' := if ok then L.Apply(s, step) else s;
    }

    /** Loads, with two calls, a held message that may still be acted on. */
    method HeldContext(id: Id, now: Time, ghost s: L.State) returns (m: Option<(HeldMessage, List)>)
      requires Mirrors(s) && s.now == now
      modifies store`faults, store`calls
      ensures store.faults >= old(store.faults) && old(store.calls) <= store.calls
      ensures m.Some? ==> id in store.held && store.held[id] == m.value.0
      ensures m.Some? ==> m.value.0.listId in store.lists && store.lists[m.value.0.listId] == m.value.1
      ensures m.Some? ==> |store.calls| == |old(store.calls)| + 2 && store.faults == old(store.faults)
      ensures m.Some? <==> L.Actionable(s, id) && FirstSucceed(CallsSince(old(store.calls), store.calls), 2)
      ensures store.faults == old(store.faults) ==> (m.Some? <==> L.Actionable(s, id))
    {
      hide L.Inv, HeldMirrored, ArchiveMirrored, HeldListed, ValidLists, ValidSubscriptions, FreshIds, L.Actionable,
           FirstSucceed;
      ActionableIs(s, id);
      m := None;
      var h := store.GetHeldMessageByID(id);
      ghost var made := CallsSince(old(store.calls), store.calls);
      if h.Some? && now <= h.value.expiresAt {
        var l := store.GetListByID(h.value.listId);
        m := if l.None? then None else Some((h.value, l.value));
        made := made + [l.Some?];
      }
      TwoCalls(old(store.calls), made, store.calls);
      if |made| == 1 {
        ShortCalls(old(store.calls), made, store.calls);
      }
    }

    /** A held message may be acted on if its row is there, unexpired; its list exists. */
    lemma ActionableIs(s: L.State, id: Id)
      requires Mirrors(s)
      ensures L.Actionable(s, id) <==> id in store.held && s.now <= store.held[id].expiresAt
      ensures id in store.held ==> store.held[id].listId in store.lists
    {
    }

    /** The list and the message of a held post. */
    ghost function HeldPost(s: L.State, id: Id): L.Posted
      requires L.Inv(s) && L.Actionable(s, id)
    {
      s.posts[s.held[id].post].m
    }

    /** An action on a held post takes its row out, if it removes it, and nothing else. */
    lemma HeldActed(s: L.State, id: Id, step: L.Step, removed: bool)
      requires Mirrors(s) && L.Actionable(s, id) && IsAction(step, id, removed)
      ensures var s' := L.Apply(s, step); var held' := Without(store.held, id, removed);
        && L.Inv(s') && s'.nextHeld == s.nextHeld && HeldMirrored(s', held', delivery.extractSubject)
        && HeldListed(held', store.lists) && FreshIds(held', store.nextHeldId)
        && (!step.ApproveHeld? ==>
              ArchiveMirrored(s', store.archive, store.nextArchiveId, delivery.extractSubject, delivery.extractText))
    {
      hide HeldMirrored, ArchiveMirrored, L.Inv, L.Apply, L.Actionable;
      L.StepKeepsInv(s, step);
      L.MessagesAreKept(s, step);
      ActionFacts(s, id, step, removed);
      var s' := L.Apply(s, step);
      HeldKeys(s, store.held, delivery.extractSubject);
      FewerHeld(s, s', store.held, Without(store.held, id, removed), delivery.extractSubject);
      if !step.ApproveHeld? {
        SameArchive(s, s', store.archive, store.nextArchiveId, delivery.extractSubject, delivery.extractText);
      }
    }

    /** Approval archives the held post as it was posted, whether its row goes or not. */
    lemma ApprovalArchives(s: L.State, id: Id)
      requires Mirrors(s) && L.Actionable(s, id)
      ensures var p, s' := s.held[id].post, L.Apply(s, L.ApproveHeld(id, false));
        && s'.archive == s.archive + [p] && p < |s'.posts| && s'.posts[p].m == HeldPost(s, id)
        && L.Apply(s, L.ApproveHeld(id, true)) == s'.(held := s.held - {id})
    {
      HeldIsPost(s, id);
    }

    lemma HeldIsPost(s: L.State, id: Id)
      requires Mirrors(s) && L.Actionable(s, id)
      ensures id in store.held && s.held[id].post < |s.posts|
      ensures var m := HeldPost(s, id);
        store.held[id].listId == m.listId && store.held[id].sender == m.sender && store.held[id].body == m.raw
    {
    }

    /** Delivers a loaded held post and removes its row. The post is archived with the first
        call, delivered with the third, and no longer held only with the last. */
    method ApproveLoaded(id: Id, m: HeldMessage, l: List, now: Time, ghost s: L.State)
      returns (ok: bool, ghost s': L.State, ghost ids: seq<Id>)
      requires Mirrors(s) && s.now == now && L.Actionable(s, id)
      requires id in store.held && store.held[id] == m && m.listId in store.lists && store.lists[m.listId] == l
      modifies store`queue, store`nextQueueId, store`archive, store`archiveFts, store`nextArchiveId,
               store`held, store`faults, store`calls
      ensures store.faults >= old(store.faults) && old(store.calls) < store.calls && Mirrors(s')
      ensures store.faults == old(store.faults) ==> ok
      ensures var made := CallsSince(old(store.calls), store.calls);
        && s' == (if FirstSucceed(made, 1) then L.Apply(s, L.ApproveHeld(id, ok)) else s)
        && (ok <==> FirstSucceed(made, 3) && made[|made| - 1])
        && if FirstSucceed(made, 3) then
             Delivered(l, m.sender, m.body, old(store.queue), old(store.nextQueueId),
                       store.queue, store.nextQueueId, ids, store.faults - old(store.faults))
           else store.queue == old(store.queue) && store.nextQueueId == old(store.nextQueueId)
      ensures var made := CallsSince(old(store.calls), store.calls);
        if FirstSucceed(made, 1) then
          Archives(l, m.sender, m.body, old(store.IndexView()), store.IndexView(), FirstSucceed(made, 2))
        else store.IndexView() == old(store.IndexView())
    {
      hide L.Inv, L.Apply, HeldListed, ValidLists, ValidSubscriptions, FreshIds, HeldMirrored, ArchiveMirrored,
           Delivered, Archives, HeldPost, FirstSucceed;
      HeldIsPost(s, id);
      ApprovalArchives(s, id);
      ListHasId(store.lists, m.listId);
      HeldActed(s, id, L.ApproveHeld(id, true), true);
      HeldActed(s, id, L.ApproveHeld(id, false), false);
      var step := L.ApproveHeld(id, false);
      ok, ids := Deliver(l, m.sender, m.body, s, step, s.held[id].post);
      ghost var calls, failed := store.calls, store.faults - old(store.faults);
      FewerSucceed(CallsSince(old(store.calls), calls), 1, 3);
      s' := if FirstSucceed(CallsSince(old(store.calls), calls), 1) then L.Apply(s, step) else s;
      if ok {
        ok := store.DeleteHeldMessage(id);
        SucceededCalls(CallsSince(old(store.calls), calls), 3);
        CallsStay(old(store.calls), calls, store.calls, 1);
        CallsStay(old(store.calls), calls, store.calls, 2);
        CallsStay(old(store.calls), calls, store.calls, 3);
        DeliveredMore(l, m.sender, m.body, old(store.queue), old(store.nextQueueId), store.queue, store.nextQueueId,
                      ids, failed, store.faults - old(store.faults));
        SameArchive(s', L.Apply(s, L.ApproveHeld(id, ok)), store.archive, store.nextArchiveId,
                    delivery.extractSubject, delivery.extractText);
        s' := L.Apply(s, L.ApproveHeld(id, ok));
      }
    }

    lemma DeliveredMore(l: List, sender: string, raw: string, before: Queue, from: Id, after: Queue, to: Id,
                        ids: seq<Id>, failed: int, more: int)
      requires Delivered(l, sender, raw, before, from, after, to, ids, failed) && failed <= more
      ensures Delivered(l, sender, raw, before, from, after, to, ids, more)
    {
    }

    /** Delivers the held post to its list, as it was posted, and removes its row. Its calls
        are, in order: two to load it, two to archive it, one to list subscriptions, those
        of the delivery, and the removal. With the third the post is archived, with the
        fifth it is delivered, and only with the last is it no longer held. */
    method ApproveHeld(id: Id, now: Time, ghost s: L.State) returns (ok: bool, ghost s': L.State, ghost ids: seq<Id>)
      requires Mirrors(s) && s.now == now
      modifies store`queue, store`nextQueueId, store`archive, store`archiveFts, store`nextArchiveId,
               store`held, store`faults, store`calls
      ensures store.faults >= old(store.faults) && old(store.calls) <= store.calls && Mirrors(s')
      ensures store.faults == old(store.faults) ==> (ok <==> L.Actionable(s, id))
      ensures var made := CallsSince(old(store.calls), store.calls);
        && s' == (if L.Actionable(s, id) && FirstSucceed(made, 3) then L.Apply(s, L.ApproveHeld(id, ok)) else s)
        && (ok <==> L.Actionable(s, id) && FirstSucceed(made, 5) && made[|made| - 1])
        && if L.Actionable(s, id) && FirstSucceed(made, 5) then
             var m := HeldPost(s, id);
             && m.listId in store.lists
             && Delivered(store.lists[m.listId], m.sender, m.raw, old(store.queue), old(store.nextQueueId),
                          store.queue, store.nextQueueId, ids, store.faults - old(store.faults))
           else store.queue == old(store.queue) && store.nextQueueId == old(store.nextQueueId)
      ensures var made := CallsSince(old(store.calls), store.calls);
        if L.Actionable(s, id) && FirstSucceed(made, 3) then
          var m := HeldPost(s, id);
          && m.listId in store.lists
          && Archives(store.lists[m.listId], m.sender, m.raw, old(store.IndexView()), store.IndexView(),
                      FirstSucceed(made, 4))
        else store.IndexView() == old(store.IndexView())
    {
      hide L.Inv, L.Apply, HeldListed, ValidLists, ValidSubscriptions, FreshIds, HeldMirrored, ArchiveMirrored,
           Delivered, Archives, HeldPost, FirstSucceed;
      s', ids := s, [];
      var m := HeldContext(id, now, s);
      ok := m.Some?;
      if ok {
        HeldIsPost(s, id);
        ghost var loaded := store.calls;
        ok, s', ids := ApproveLoaded(id, m.value.0, m.value.1, now, s);
        CallsJoin(old(store.calls), loaded, store.calls, 2, 1);
        CallsJoin(old(store.calls), loaded, store.calls, 2, 2);
        CallsJoin(old(store.calls), loaded, store.calls, 2, 3);
      } else {
        FewerSucceed(CallsSince(old(store.calls), store.calls), 2, 3);
        FewerSucceed(CallsSince(old(store.calls), store.calls), 2, 5);
      }
    }

    /** Tells the sender of a loaded held post, with the first call, and removes its row. */
    method RejectLoaded(id: Id, m: HeldMessage, l: List, now: Time, ghost s: L.State)
      returns (ok: bool, ghost s': L.State)
      requires Mirrors(s) && s.now == now && L.Actionable(s, id)
      modifies store`queue, store`nextQueueId, store`held, store`faults, store`calls
      ensures store.faults >= old(store.faults) && old(store.calls) < store.calls && Mirrors(s')
      ensures store.faults == old(store.faults) ==> ok
      ensures var made := CallsSince(old(store.calls), store.calls);
        && (ok <==> FirstSucceed(made, 2))
        && if FirstSucceed(made, 1) then
             && s' == L.Apply(s, L.RejectHeld(id, ok))
             && Told(l, m.sender, "", now, old(store.queue), old(store.nextQueueId), store.queue, store.nextQueueId)
           else s' == s && store.queue == old(store.queue) && store.nextQueueId == old(store.nextQueueId)
    {
      hide L.Inv, L.Apply, HeldListed, ValidLists, ValidSubscriptions, FreshIds, HeldMirrored, ArchiveMirrored,
           Told, FirstSucceed;
      HeldActed(s, id, L.RejectHeld(id, true), true);
      HeldActed(s, id, L.RejectHeld(id, false), false);
      s' := s;
      ok := RejectMessage(l, m.sender, "", now);
      ghost var made := [ok];
      if ok {
        ok := store.DeleteHeldMessage(id);
        made := made + [ok];
        s' := L.Apply(s, L.RejectHeld(id, ok));
      }
      TwoCalls(old(store.calls), made, store.calls);
    }

    /** Tells the sender and removes the held message. Its calls are two to load it, one to
        queue the notice, with which the post is rejected, and the removal. */
    method RejectHeld(id: Id, now: Time, ghost s: L.State) returns (ok: bool, ghost s': L.State)
      requires Mirrors(s) && s.now == now
      modifies store`queue, store`nextQueueId, store`held, store`faults, store`calls
      ensures store.faults >= old(store.faults) && old(store.calls) <= store.calls && Mirrors(s')
      ensures store.faults == old(store.faults) ==> (ok <==> L.Actionable(s, id))
      ensures var made := CallsSince(old(store.calls), store.calls);
        && (ok <==> L.Actionable(s, id) && FirstSucceed(made, 4))
        && if L.Actionable(s, id) && FirstSucceed(made, 3) then
             var m := HeldPost(s, id);
             && s' == L.Apply(s, L.RejectHeld(id, ok)) && m.listId in store.lists
             && Told(store.lists[m.listId], m.sender, "", now, old(store.queue), old(store.nextQueueId),
                     store.queue, store.nextQueueId)
           else s' == s && store.queue == old(store.queue) && store.nextQueueId == old(store.nextQueueId)
    {
      hide L.Inv, L.Apply, HeldListed, ValidLists, ValidSubscriptions, FreshIds, HeldMirrored, ArchiveMirrored,
           Told, HeldPost, FirstSucceed;
      s' := s;
      var m := HeldContext(id, now, s);
      ok := m.Some?;
      if ok {
        HeldIsPost(s, id);
        ghost var loaded := store.calls;
        ok, s' := RejectLoaded(id, m.value.0, m.value.1, now, s);
        CallsJoin(old(store.calls), loaded, store.calls, 2, 1);
        CallsJoin(old(store.calls), loaded, store.calls, 2, 2);
      } else {
        FewerSucceed(CallsSince(old(store.calls), store.calls), 2, 3);
        FewerSucceed(CallsSince(old(store.calls), store.calls), 2, 4);
      }
    }

    /** Removes the held message silently: two calls to load it, and the removal. */
    method DiscardHeld(id: Id, now: Time, ghost s: L.State) returns (ok: bool, ghost s': L.State)
      requires Mirrors(s) && s.now == now
      modifies store`held, store`faults, store`calls
      ensures store.faults >= old(store.faults) && old(store.calls) <= store.calls && Mirrors(s')
      ensures store.faults == old(store.faults) ==> (ok <==> L.Actionable(s, id))
      ensures ok <==> L.Actionable(s, id) && FirstSucceed(CallsSince(old(store.calls), store.calls), 3)
      ensures s' == if ok then L.Apply(s, L.DiscardHeld(id)) else s
    {
      hide L.Inv, L.Apply, HeldListed, ValidLists, ValidSubscriptions, FreshIds, HeldMirrored, ArchiveMirrored,
           FirstSucceed;
      s' := s;
      var m := HeldContext(id, now, s);
      ok := m.Some?;
      if ok {
        HeldActed(s, id, L.DiscardHeld(id), true);
        ghost var loaded := store.calls;
        ok := store.DeleteHeldMessage(id);
        TwoCalls(loaded, [ok], store.calls);
        CallsJoin(old(store.calls), loaded, store.calls, 2, 1);
        s' := if ok then L.Apply(s, L.DiscardHeld(id)) else s;
      } else {
        FewerSucceed(CallsSince(old(store.calls), store.calls), 2, 3);
      }
    }

    /** The sweeper removes exactly the held messages whose expiry has passed. */
    method Sweep(now: Time, ghost s: L.State) returns (ok: bool, ghost s': L.State)
      requires Mirrors(s) && s.now == now
      modifies store`held, store`faults, store`calls
      ensures store.faults == if ok then old(store.faults) else old(store.faults) + 1
      ensures Mirrors(s') && s' == if ok then L.Apply(s, L.Sweep) else s
    {
      hide L.Inv, ValidLists, ValidSubscriptions, HeldMirrored, ArchiveMirrored, L.Apply;
      L.StepKeepsInv(s, L.Sweep);
      L.MessagesAreKept(s, L.Sweep);
      SweptHeld(s, store.held, delivery.extractSubject);
      SweepFacts(s);
      SameArchive(s, L.Apply(s, L.Sweep), store.archive, store.nextArchiveId,
                  delivery.extractSubject, delivery.extractText);
      ok := store.DeleteExpiredHeldMessages(now);
      s' := if ok then L.Apply(s, L.Sweep) else s;
    }
  }

  lemma SweepFacts(s: L.State)
    ensures var s' := L.Apply(s, L.Sweep); s'.archive == s.archive && s'.nextHeld == s.nextHeld
  {
  }
}
