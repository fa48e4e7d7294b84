/** The member roster: assembled from four tables, sorted, split in place, and paged. */
module Members {
  import opened Wrappers
  import opened Model
  import opened SqliteStore
  import opened Text

  datatype Role = OwnerRole | ModeratorRole | SenderRole

  /** One member or role holder; without a subscription the first part is empty. */
  datatype MemberView = MemberView(
    subscriberId: Id,
    email: string,
    subscription: Option<Subscription>,
    roles: seq<Role>)

  // ----- Order -----

  /** Go's string order. */
  predicate Less(a: string, b: string) {
    b != "" && (a == "" || a[0] < b[0] || (a[0] == b[0] && Less(a[1..], b[1..])))
  }

  lemma {:induction false} LessIsTotal(a: string, b: string)
    ensures Less(a, b) || a == b || Less(b, a)
    ensures !(Less(a, b) && Less(b, a)) && (a == b ==> !Less(a, b))
  {
    if a != "" && b != "" && a[0] == b[0] {
      LessIsTotal(a[1..], b[1..]);
      assert a == [a[0]] + a[1..] && b == [b[0]] + b[1..];
    }
  }

  lemma {:induction false} LessIsTransitive(a: string, b: string, c: string)
    requires Less(a, b) && Less(b, c)
    ensures Less(a, c)
  {
    if a != "" && a[0] == b[0] == c[0] {
      LessIsTransitive(a[1..], b[1..], c[1..]);
    }
  }

  /** It is the lexicographic order: a text comes after its beginnings, and otherwise the
      first difference decides. */
  lemma {:induction false} LessMeans(a: string, b: string)
    ensures Less(a, b) <==>
      exists i :: 0 <= i <= |a| && i < |b| && a[..i] == b[..i] && (i < |a| ==> a[i] < b[i])
  {
    if b == "" {
    } else if a == "" {
      assert a[..0] == b[..0];
    } else if a[0] != b[0] {
      assert a[..0] == b[..0];
      assert forall i :: 0 < i <= |a| && i < |b| ==> a[..i][0] != b[..i][0];
    } else {
      var a', b' := a[1..], b[1..];
      LessMeans(a', b');
      if Less(a', b') {
        var i :| 0 <= i <= |a'| && i < |b'| && a'[..i] == b'[..i] && (i < |a'| ==> a'[i] < b'[i]);
        assert a[..i + 1] == [a[0]] + a'[..i] && b[..i + 1] == [b[0]] + b'[..i];
      }
      if i :| 0 <= i <= |a| && i < |b| && a[..i] == b[..i] && (i < |a| ==> a[i] < b[i]) {
        assert a'[..i - 1] == a[..i][1..] && b'[..i - 1] == b[..i][1..];
      }
    }
  }

  ghost predicate Sorted(views: seq<MemberView>) {
    forall i, j :: 0 <= i < j < |views| ==> Less(views[i].email, views[j].email)
  }

  /** There is only one way to sort members with different emails. */
  lemma {:induction false} SortedIsUnique(a: seq<MemberView>, b: seq<MemberView>)
    requires Sorted(a) && Sorted(b) && forall v :: v in a <==> v in b
    ensures a == b
  {
    assert b != [] ==> b[0] in b;
    if a != [] {
      assert a[0] in b && b[0] in a;
      LessIsTotal(a[0].email, b[0].email);
      assert a[0] == b[0];
      forall v ensures v in a[1..] <==> v in b[1..] {
        TailMember(a, v);
        TailMember(b, v);
      }
      SortedIsUnique(a[1..], b[1..]);
    }
  }

  lemma TailMember(a: seq<MemberView>, v: MemberView)
    requires Sorted(a) && a != []
    ensures v in a[1..] <==> v in a && v != a[0]
  {
    LessIsTotal(a[0].email, a[0].email);
    assert a == [a[0]] + a[1..];
  }

  // ----- What the roster is -----

  /** A subscriber's subscription to the list. */
  ghost function SubscriptionTo(subs: map<Id, Subscription>, listId: Id, subscriber: Id): Option<Subscription> {
    if exists k :: k in subs && subs[k].listId == listId && subs[k].subscriberId == subscriber
    then
      var k :| k in subs && subs[k].listId == listId && subs[k].subscriberId == subscriber;
      Some(subs[k])
    else None
  }

  /** Roles in their stable order. */
  function RolesOf(owner: bool, moderator: bool, sender: bool): seq<Role> {
    (if owner then [OwnerRole] else []) + (if moderator then [ModeratorRole] else []) +
    (if sender then [SenderRole] else [])
  }

  /** The roster entry a known subscriber must have, if any. */
  ghost function EntryOf(store: Store, listId: Id, id: Id): Option<MemberView>
    reads store`subscribers, store`subscriptions, store`owners, store`moderators, store`designatedSenders
    requires id in store.subscribers
  {
    var sub := SubscriptionTo(store.subscriptions, listId, id);
    var roles := RolesOf((listId, id) in store.owners, (listId, id) in store.moderators,
                         (listId, id) in store.designatedSenders);
    if sub.None? && roles == [] then None else Some(MemberView(id, store.subscribers[id], sub, roles))
  }

  /** The roster is exactly the entries of all subscribers, in email order. */
  ghost predicate IsRoster(store: Store, listId: Id, views: seq<MemberView>)
    reads store`subscribers, store`subscriptions, store`owners, store`moderators, store`designatedSenders
  {
    && Sorted(views)
    && forall v :: v in views <==>
         v.subscriberId in store.subscribers && EntryOf(store, listId, v.subscriberId) == Some(v)
  }

  /** So it does not depend on the order in which maps are walked or rows returned. */
  lemma RosterIsUnique(store: Store, listId: Id, a: seq<MemberView>, b: seq<MemberView>)
    requires IsRoster(store, listId, a) && IsRoster(store, listId, b)
    ensures a == b
  {
    SortedIsUnique(a, b);
  }

  // ----- Splitting and paging -----

  datatype Filter = HeldOnly | NotHeld | Matching(q: string)

  predicate Accepts(f: Filter, v: MemberView) {
    match f
    case HeldOnly => IsHeldMember(v)
    case NotHeld => !IsHeldMember(v)
    case Matching(q) => Index(Lower(v.email), q) != -1
  }

  predicate IsHeldMember(v: MemberView) { v.subscription.Some? && v.subscription.value.status == Held }

  function Keep(views: seq<MemberView>, f: Filter): seq<MemberView> {
    if views == [] then []
    else Keep(views[..|views| - 1], f) + (if Accepts(f, views[|views| - 1]) then [views[|views| - 1]] else [])
  }

  lemma KeepMore(views: seq<MemberView>, i: nat, f: Filter)
    requires i < |views|
    ensures Keep(views[..i + 1], f) == Keep(views[..i], f) + if Accepts(f, views[i]) then [views[i]] else []
  {
    assert views[..i + 1][..i] == views[..i];
  }

  lemma KeepLast(views: seq<MemberView>, f: Filter) returns (init: seq<MemberView>, last: MemberView)
    requires views != []
    ensures views == init + [last] && |init| + 1 == |views| && init == views[..|views| - 1]
    ensures Keep(views, f) == Keep(init, f) + if Accepts(f, last) then [last] else []
  {
    init, last := views[..|views| - 1], views[|views| - 1];
  }

  lemma {:induction false} KeptMembers(views: seq<MemberView>, f: Filter)
    ensures forall v :: v in Keep(views, f) <==> v in views && Accepts(f, v)
  {
    NothingKept(f);
    hide Accepts, Keep;
    if views != [] {
      var init, last := KeepLast(views, f);
      KeptMembers(init, f);
    }
  }

  lemma {:induction false} KeptInOrder(views: seq<MemberView>, f: Filter)
    requires Sorted(views)
    ensures Sorted(Keep(views, f))
  {
    NothingKept(f);
    hide Accepts, Keep, Less;
    if views != [] {
      var init, last := KeepLast(views, f);
      assert forall i :: 0 <= i < |init| ==> views[i] == init[i];
      KeptInOrder(init, f);
      KeptMembers(init, f);
      forall v | v in Keep(init, f) ensures Less(v.email, last.email) {
        var i :| 0 <= i < |init| && init[i] == v;
        assert views[i] == v && views[|init|] == last;
      }
    }
  }

  lemma {:induction false} KeepSplits(views: seq<MemberView>)
    ensures multiset(Keep(views, HeldOnly)) + multiset(Keep(views, NotHeld)) == multiset(views)
  {
    NothingKept(HeldOnly);
    NothingKept(NotHeld);
    hide Keep, IsHeldMember;
    if views != [] {
      var init, last := KeepLast(views, HeldOnly);
      var init', last' := KeepLast(views, NotHeld);
      KeepSplits(init);
    }
  }

  function ClampLimit(limit: int): nat
    ensures ClampLimit(limit) > 0
  {
    if limit <= 0 || limit > 200 then 100 else limit
  }

  function ClampOffset(offset: int, total: nat): nat
    ensures ClampOffset(offset, total) <= total
  {
    if offset < 0 then 0 else if offset > total then total else offset
  }

  /** The page of `limit` entries (clamped) from `offset` on (clamped). */
  function Page(filtered: seq<MemberView>, offset: int, limit: int): seq<MemberView> {
    var lo := ClampOffset(offset, |filtered|);
    var hi := lo + ClampLimit(limit);
    filtered[lo..if hi > |filtered| then |filtered| else hi]
  }

  /** What a client collects that asks for page after page until there is no more. */
  function PagesFrom(filtered: seq<MemberView>, offset: nat, limit: int): seq<MemberView>
    decreases |filtered| - offset
  {
    if offset >= |filtered| then []
    else Page(filtered, offset, limit) + PagesFrom(filtered, offset + ClampLimit(limit), limit)
  }

  lemma {:induction false} PagesCoverRest(filtered: seq<MemberView>, offset: nat, limit: int)
    requires offset <= |filtered|
    ensures PagesFrom(filtered, offset, limit) == filtered[offset..]
    decreases |filtered| - offset
  {
    var next := offset + ClampLimit(limit);
    if next <= |filtered| {
      PagesCoverRest(filtered, next, limit);
    }
  }

  /** The whole listing: for any limit, the held queue and all pages together show every
      entry of the roster exactly once, each part sorted by email. */
  lemma ListingIsExact(store: Store, listId: Id, views: seq<MemberView>, limit: int)
    requires IsRoster(store, listId, views)
    ensures var held := Keep(views, HeldOnly);
            var pages := PagesFrom(Keep(views, NotHeld), 0, limit);
            && multiset(held) + multiset(pages) == multiset(views)
            && Sorted(held) && Sorted(pages)
            && forall v :: v in held || v in pages <==>
                 v.subscriberId in store.subscribers && EntryOf(store, listId, v.subscriberId) == Some(v)
  {
    hide EntryOf, Less, PagesFrom;
    var roster := Keep(views, NotHeld);
    KeepSplits(views);
    KeptMembers(views, HeldOnly);
    KeptMembers(views, NotHeld);
    KeptInOrder(views, HeldOnly);
    KeptInOrder(views, NotHeld);
    PagesCoverRest(roster, 0, limit);
    assert roster[0..] == roster;
  }

  /** What is left of the members: those who are not held, and match the query, if any. */
  function Filtered(members: seq<MemberView>, q: string): seq<MemberView> {
    if q == "" then Keep(members, NotHeld) else Keep(Keep(members, NotHeld), Matching(q))
  }

  lemma FilteredMembers(members: seq<MemberView>, q: string, v: MemberView)
    ensures v in Filtered(members, q) <==>
      && v in members && !(v.subscription.Some? && v.subscription.value.status == Held)
      && (q == "" || exists i :: At(Lower(v.email), q, i))
    ensures v in Keep(members, HeldOnly) <==>
      v in members && v.subscription.Some? && v.subscription.value.status == Held
  {
    hide Keep, Lower;
    KeptMembers(members, HeldOnly);
    KeptMembers(members, NotHeld);
    KeptMembers(Keep(members, NotHeld), Matching(q));
  }

  /** The console's handler: it splits the loaded members in place, filters what is left
      in place, and cuts out a page. The slice it reads is the one it overwrites. Held are
      the members with a held subscription; the page is cut from the others whose email, in
      lower case, contains the query. */
  method HandleConsoleMembers(members: array<MemberView>, query: string, limit: int, offset: int)
    returns (held: seq<MemberView>, page: seq<MemberView>, total: nat)
    modifies members
    ensures var all, q := old(members[..]), Lower(TrimSpace(query));
      && held == Keep(all, HeldOnly) && total == |Filtered(all, q)|
      && forall v ::
           && (v in held <==> v in all && v.subscription.Some? && v.subscription.value.status == Held)
           && (v in Filtered(all, q) <==>
                 && v in all && !(v.subscription.Some? && v.subscription.value.status == Held)
                 && (q == "" || exists i :: At(Lower(v.email), q, i)))
    ensures var filtered := Filtered(old(members[..]), Lower(TrimSpace(query)));
      var lo := if offset < 0 then 0 else if offset > |filtered| then |filtered| else offset;
      var size := if limit <= 0 || limit > 200 then 100 else limit;
      page == filtered[lo..if lo + size > |filtered| then |filtered| else lo + size] == Page(filtered, offset, limit)
  {
    hide Accepts, Keep;
    ghost var all := members[..];
    var n;
    held, n := SplitInPlace(members);
    var q := Lower(TrimSpace(query));
    if q != "" {
      n := FilterInPlace(members, n, q);
    }
    var size := limit;
    if size <= 0 || size > 200 {
      size := 100;
    }
    total := n;
    var lo := offset;
    if lo < 0 {
      lo := 0;
    }
    if lo > total {
      lo := total;
    }
    var hi := lo + size;
    if hi > total {
      hi := total;
    }
    page := members[lo..hi];
    SliceOfPrefix(members[..], n, lo, hi);
    forall v
      ensures v in held <==> v in all && v.subscription.Some? && v.subscription.value.status == Held
      ensures v in Filtered(all, q) <==>
        && v in all && !(v.subscription.Some? && v.subscription.value.status == Held)
        && (q == "" || exists i :: At(Lower(v.email), q, i))
    {
      FilteredMembers(all, q, v);
    }
  }

  /** Moves held members out and compacts the others to the front. */
  method SplitInPlace(members: array<MemberView>) returns (held: seq<MemberView>, n: nat)
    modifies members
    ensures n <= members.Length && held == Keep(old(members[..]), HeldOnly)
    ensures members[..n] == Keep(old(members[..]), NotHeld)
  {
    hide Keep;
    ghost var all := members[..];
    NothingKept(HeldOnly);
    NothingKept(NotHeld);
    held, n := [], 0;
    for i := 0 to members.Length
      invariant n <= i && forall k :: i <= k < members.Length ==> members[k] == all[k]
      invariant held == Keep(all[..i], HeldOnly)
      invariant members[..n] == Keep(all[..i], NotHeld)
    {
      var m := members[i];
      KeepMore(all, i, HeldOnly);
      KeepMore(all, i, NotHeld);
      if m.subscription.Some? && m.subscription.value.status == Held {
        held := held + [m];
      } else {
        members[n] := m;
        n := n + 1;
      }
    }
    assert all[..members.Length] == all;
  }

  /** Compacts the first `n` elements to those that match. */
  method FilterInPlace(members: array<MemberView>, n: nat, q: string) returns (k: nat)
    requires n <= members.Length
    modifies members
    ensures k <= n && members[..k] == Keep(old(members[..n]), Matching(q))
  {
    hide Keep;
    ghost var roster := members[..n];
    NothingKept(Matching(q));
    k := 0;
    for i := 0 to n
      invariant k <= i && forall j :: i <= j < n ==> members[j] == roster[j]
      invariant members[..k] == Keep(roster[..i], Matching(q))
    {
      var m := members[i];
      KeepMore(roster, i, Matching(q));
      if Index(Lower(m.email), q) != -1 {
        members[k] := m;
        k := k + 1;
      }
    }
    assert roster[..n] == roster;
  }

  lemma SliceOfPrefix<T>(s: seq<T>, n: nat, lo: nat, hi: nat)
    requires lo <= hi <= n <= |s|
    ensures s[..n][lo..hi] == s[lo..hi]
  {
  }

  lemma NothingKept(f: Filter)
    ensures Keep([], f) == []
  {
  }

  // ----- Assembling the roster -----

  lemma SubscriptionToIs(store: Store, listId: Id, sub: Subscription)
    requires store.Valid() && sub.listId == listId
    requires sub.id in store.subscriptions && store.subscriptions[sub.id] == sub
    ensures SubscriptionTo(store.subscriptions, listId, sub.subscriberId) == Some(sub)
  {
  }

  function RolesAt(roleBySub: map<Id, seq<Role>>, id: Id): seq<Role> {
    if id in roleBySub then roleBySub[id] else []
  }

  /** Appends a role for each of its holders. */
  method AddRoles(roleBySub: map<Id, seq<Role>>, ids: seq<Id>, role: Role) returns (result: map<Id, seq<Role>>)
    requires forall i, j :: 0 <= i < j < |ids| ==> ids[i] != ids[j]
    requires forall id :: id in roleBySub ==> roleBySub[id] != []
    ensures forall id :: id in result ==> result[id] != []
    ensures forall id :: RolesAt(result, id) == RolesAt(roleBySub, id) + if id in ids then [role] else []
  {
    result := roleBySub;
    for i := 0 to |ids|
      invariant forall id :: id in result ==> result[id] != []
      invariant forall id :: RolesAt(result, id) == RolesAt(roleBySub, id) + if id in ids[..i] then [role] else []
    {
      assert ids[i] !in ids[..i];
      result := result[ids[i] := RolesAt(result, ids[i]) + [role]];
    }
    assert ids[..|ids|] == ids;
  }

  /** `views` are the entries of exactly the subscribers in `ids`, once each. */
  ghost predicate EntriesOf(store: Store, listId: Id, views: seq<MemberView>, ids: set<Id>)
    reads store`subscribers, store`subscriptions, store`owners, store`moderators, store`designatedSenders
  {
    && (forall i, j :: 0 <= i < j < |views| ==> views[i].subscriberId != views[j].subscriberId)
    && (forall v :: v in views ==>
          && v.subscriberId in ids && v.subscriberId in store.subscribers
          && EntryOf(store, listId, v.subscriberId) == Some(v))
    && (forall id :: id in ids && id in store.subscribers ==> exists v :: v in views && v.subscriberId == id)
  }

  lemma OneMoreEntry(store: Store, listId: Id, views: seq<MemberView>, ids: set<Id>, v: MemberView)
    requires EntriesOf(store, listId, views, ids) && v.subscriberId !in ids
    requires v.subscriberId in store.subscribers && EntryOf(store, listId, v.subscriberId) == Some(v)
    ensures EntriesOf(store, listId, views + [v], ids + {v.subscriberId})
  {
    hide EntryOf;
    var views' := views + [v];
    assert views'[|views|] == v;
    forall id | id in ids + {v.subscriberId} && id in store.subscribers
      ensures exists w :: w in views' && w.subscriberId == id
    {
      if id in ids {
        var w :| w in views && w.subscriberId == id;
        assert w in views';
      }
    }
  }

  lemma UnknownEntry(store: Store, listId: Id, views: seq<MemberView>, ids: set<Id>, id: Id)
    requires EntriesOf(store, listId, views, ids) && id !in store.subscribers
    ensures EntriesOf(store, listId, views, ids + {id})
  {
    hide EntryOf;
  }

  /** Sorting by email; emails are unique. */
  method SortByEmail(views: seq<MemberView>) returns (sorted: seq<MemberView>)
    requires DistinctEmails(views)
    ensures Sorted(sorted) && forall v :: v in sorted <==> v in views
  {
    hide Less;
    sorted := [];
    for i := 0 to |views|
      invariant Sorted(sorted) && forall v :: v in sorted <==> v in views[..i]
    {
      assert forall v :: v in views[..i] ==> v.email != views[i].email;
      sorted := Insert(sorted, views[i]);
    }
    assert views[..|views|] == views;
  }

  method Insert(views: seq<MemberView>, v: MemberView) returns (more: seq<MemberView>)
    requires Sorted(views) && forall w :: w in views ==> w.email != v.email
    ensures Sorted(more) && forall w :: w in more <==> w in views || w == v
  {
    hide Less;
    var k := 0;
    while k < |views| && Less(views[k].email, v.email)
      invariant k <= |views| && forall i :: 0 <= i < k ==> Less(views[i].email, v.email)
    {
      k := k + 1;
    }
    forall i | k <= i < |views| ensures Less(v.email, views[i].email) {
      LessIsTotal(views[k].email, v.email);
      assert views[k] in views;
      if k < i {
        LessIsTransitive(v.email, views[k].email, views[i].email);
      }
    }
    more := views[..k] + [v] + views[k..];
    assert views == views[..k] + views[k..];
  }

  /** `subs` are the subscriptions to the list, once each. */
  ghost predicate AllSubscriptions(store: Store, listId: Id, subs: seq<Subscription>)
    reads store`subscriptions
  {
    && DistinctIds(subs)
    && (forall s :: s in subs ==> s.id in store.subscriptions && store.subscriptions[s.id] == s && s.listId == listId)
    && forall id :: id in store.subscriptions && store.subscriptions[id].listId == listId ==>
         store.subscriptions[id] in subs
  }

  ghost predicate DistinctEmails(views: seq<MemberView>) {
    forall i, j :: 0 <= i < j < |views| ==> views[i].email != views[j].email
  }

  /** ListMembers: the roster, whatever order rows come in and maps are walked in. */
  method ListMembers(store: Store, listId: Id) returns (ok: bool, result: seq<MemberView>)
    requires store.Valid()
    modifies store`faults, store`calls
    ensures ok ==> IsRoster(store, listId, result)
    ensures store.faults == old(store.faults) ==> ok
  {
    hide ValidLists, ValidSubscriptions, FreshIds;
    result := [];
    var subs;
    ok, subs := store.ListSubscriptions(listId);
    if !ok {
      return;
    }
    assert AllSubscriptions(store, listId, subs);
    ok := store.Reach();
    if !ok {
      return;
    }
    result := Roster(store, listId, subs);
  }

  /** The roster, from the list's subscriptions and the role tables. */
  method Roster(store: Store, listId: Id, subs: seq<Subscription>) returns (result: seq<MemberView>)
    requires store.Valid() && AllSubscriptions(store, listId, subs)
    ensures IsRoster(store, listId, result)
  {
    hide Store.Valid, AllSubscriptions, EntriesOf, EntryOf, RolesKnown, Subscribed, Less, RolesOf, DistinctEmails;
    var roleBySub := RolesBySubscriber(store, listId);
    var views, ids := SubscribedEntries(store, listId, subs, roleBySub);
    views := RoleEntries(store, listId, roleBySub, views, ids);
    EntriesAreComplete(store, listId, roleBySub, views, ids);
    DifferentEmails(store, listId, views, ids + roleBySub.Keys);
    result := SortByEmail(views);
  }

  /** The roles of everybody who has one, each list in the stable order. */
  method RolesBySubscriber(store: Store, listId: Id) returns (roleBySub: map<Id, seq<Role>>)
    ensures RolesKnown(store, listId, roleBySub)
    ensures forall id :: id in roleBySub ==> roleBySub[id] != []
  {
    var owners := Holders(store.owners, listId);
    var moderators := Holders(store.moderators, listId);
    var senders := Holders(store.designatedSenders, listId);
    roleBySub := AddRoles(map[], owners, OwnerRole);
    ghost var first := roleBySub;
    roleBySub := AddRoles(roleBySub, moderators, ModeratorRole);
    ghost var second := roleBySub;
    roleBySub := AddRoles(roleBySub, senders, SenderRole);
    hide RolesAt;
    forall id: Id
      ensures RolesAt(roleBySub, id) ==
        RolesOf((listId, id) in store.owners, (listId, id) in store.moderators, (listId, id) in store.designatedSenders)
    {
      NoRoles(id);
      assert RolesAt(second, id) == RolesAt(first, id) + if id in moderators then [ModeratorRole] else [];
    }
  }

  lemma NoRoles(id: Id)
    ensures RolesAt(map[], id) == []
  {
  }

  ghost predicate RolesKnown(store: Store, listId: Id, roleBySub: map<Id, seq<Role>>)
    reads store`owners, store`moderators, store`designatedSenders
  {
    forall id: Id :: RolesAt(roleBySub, id) ==
      RolesOf((listId, id) in store.owners, (listId, id) in store.moderators, (listId, id) in store.designatedSenders)
  }

  predicate IsSubscribed(subs: map<Id, Subscription>, listId: Id, id: Id) {
    exists k :: k in subs && subs[k].listId == listId && subs[k].subscriberId == id
  }

  /** Which subscribers have a subscription to the list. */
  ghost predicate Subscribed(store: Store, listId: Id, ids: set<Id>)
    reads store`subscriptions
  {
    forall id :: id in ids <==> IsSubscribed(store.subscriptions, listId, id)
  }

  /** `ids` are the subscribers behind the first `n` subscriptions. */
  ghost predicate SubscribersOf(subs: seq<Subscription>, n: nat, ids: set<Id>)
    requires n <= |subs|
  {
    forall id :: id in ids <==> exists j :: 0 <= j < n && subs[j].subscriberId == id
  }

  lemma NextSubscriber(store: Store, listId: Id, subs: seq<Subscription>, i: nat, ids: set<Id>)
    requires store.Valid() && AllSubscriptions(store, listId, subs) && i < |subs| && SubscribersOf(subs, i, ids)
    ensures subs[i].subscriberId !in ids && SubscribersOf(subs, i + 1, ids + {subs[i].subscriberId})
    ensures SubscriptionTo(store.subscriptions, listId, subs[i].subscriberId) == Some(subs[i])
  {
    hide SubscriptionTo, ValidLists, FreshIds;
    var sub := subs[i];
    assert sub in subs;
    forall j | 0 <= j < i ensures subs[j].subscriberId != sub.subscriberId {
      assert subs[j] in subs && subs[j].id != sub.id;
    }
    SubscriptionToIs(store, listId, sub);
  }

  lemma AllSubscribed(store: Store, listId: Id, subs: seq<Subscription>, ids: set<Id>)
    requires AllSubscriptions(store, listId, subs) && SubscribersOf(subs, |subs|, ids)
    ensures Subscribed(store, listId, ids)
  {
    forall k | k in store.subscriptions && store.subscriptions[k].listId == listId
      ensures store.subscriptions[k].subscriberId in ids
    {
      var j :| 0 <= j < |subs| && subs[j] == store.subscriptions[k];
    }
    forall id | id in ids
      ensures IsSubscribed(store.subscriptions, listId, id)
    {
      var j :| 0 <= j < |subs| && subs[j].subscriberId == id;
      assert subs[j] in subs;
    }
  }

  /** A subscriber with a subscription is a member, if the subscriber is known. */
  method EntryFor(store: Store, listId: Id, sub: Subscription, roleBySub: map<Id, seq<Role>>,
                  views: seq<MemberView>, ghost ids: set<Id>)
    returns (more: seq<MemberView>)
    requires RolesKnown(store, listId, roleBySub)
    requires SubscriptionTo(store.subscriptions, listId, sub.subscriberId) == Some(sub)
    requires EntriesOf(store, listId, views, ids) && sub.subscriberId !in ids
    ensures EntriesOf(store, listId, more, ids + {sub.subscriberId})
  {
    hide EntriesOf, SubscriptionTo, RolesOf;
    var id := sub.subscriberId;
    if id in store.subscribers {
      var v := MemberView(id, store.subscribers[id], Some(sub), RolesAt(roleBySub, id));
      OneMoreEntry(store, listId, views, ids, v);
      more := views + [v];
    } else {
      UnknownEntry(store, listId, views, ids, id);
      more := views;
    }
  }

  /** The members with a subscription. */
  method SubscribedEntries(store: Store, listId: Id, subs: seq<Subscription>, roleBySub: map<Id, seq<Role>>)
    returns (views: seq<MemberView>, ids: set<Id>)
    requires store.Valid() && AllSubscriptions(store, listId, subs) && RolesKnown(store, listId, roleBySub)
    ensures EntriesOf(store, listId, views, ids) && Subscribed(store, listId, ids)
  {
    hide Store.Valid, EntriesOf, Subscribed, RolesKnown, AllSubscriptions, SubscribersOf, SubscriptionTo;
    views, ids := [], {};
    NoEntries(store, listId, subs);
    for i := 0 to |subs|
      invariant EntriesOf(store, listId, views, ids) && SubscribersOf(subs, i, ids)
    {
      NextSubscriber(store, listId, subs, i, ids);
      views := EntryFor(store, listId, subs[i], roleBySub, views, ids);
      ids := ids + {subs[i].subscriberId};
    }
    AllSubscribed(store, listId, subs, ids);
  }

  lemma NoEntries(store: Store, listId: Id, subs: seq<Subscription>)
    ensures EntriesOf(store, listId, [], {}) && SubscribersOf(subs, 0, {})
  {
  }

  /** The role holders without one. */
  method RoleEntries(store: Store, listId: Id, roleBySub: map<Id, seq<Role>>, before: seq<MemberView>, seen: set<Id>)
    returns (views: seq<MemberView>)
    requires RolesKnown(store, listId, roleBySub) && Subscribed(store, listId, seen)
    requires forall id :: id in roleBySub ==> roleBySub[id] != []
    requires EntriesOf(store, listId, before, seen)
    ensures EntriesOf(store, listId, views, seen + roleBySub.Keys)
  {
    hide EntriesOf;
    views := before;
    var todo := roleBySub.Keys - seen;
    assert seen + (roleBySub.Keys - seen - todo) == seen;
    while todo != {}
      invariant todo <= roleBySub.Keys - seen
      invariant EntriesOf(store, listId, views, seen + (roleBySub.Keys - seen - todo))
      decreases todo
    {
      var id :| id in todo;
      ghost var ids := seen + (roleBySub.Keys - seen - todo);
      todo := todo - {id};
      if id in store.subscribers {
        var v := MemberView(id, store.subscribers[id], None, RolesAt(roleBySub, id));
        OneMoreEntry(store, listId, views, ids, v);
        views := views + [v];
      } else {
        UnknownEntry(store, listId, views, ids, id);
      }
      assert seen + (roleBySub.Keys - seen - todo) == ids + {id};
    }
    assert seen + (roleBySub.Keys - seen - todo) == seen + roleBySub.Keys;
  }

  lemma EntriesAreComplete(store: Store, listId: Id, roleBySub: map<Id, seq<Role>>, views: seq<MemberView>,
                           seen: set<Id>)
    requires RolesKnown(store, listId, roleBySub) && Subscribed(store, listId, seen)
    requires EntriesOf(store, listId, views, seen + roleBySub.Keys)
    ensures forall v :: v in views <==>
      v.subscriberId in store.subscribers && EntryOf(store, listId, v.subscriberId) == Some(v)
  {
    forall v: MemberView | v.subscriberId in store.subscribers && EntryOf(store, listId, v.subscriberId) == Some(v)
      ensures v in views
    {
      var id := v.subscriberId;
      assert id in seen || RolesAt(roleBySub, id) != [];
      var w :| w in views && w.subscriberId == id;
    }
  }

  lemma DifferentEmails(store: Store, listId: Id, views: seq<MemberView>, ids: set<Id>)
    requires store.Valid() && EntriesOf(store, listId, views, ids)
    ensures DistinctEmails(views)
  {
    forall i, j | 0 <= i < j < |views| ensures views[i].email != views[j].email {
      assert views[i] in views && views[j] in views;
    }
  }
}
