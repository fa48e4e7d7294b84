/** Bulk import of members: what the counters mean, and why it can be repeated. */
module MemberImport {
  import opened Wrappers
  import opened Model
  import opened SqliteStore
  import opened Text

  /** What the file's addresses are looked up as. */
  function Normalized(email: string): string { TrimSpace(Lower(email)) }

  /** ASCII letters in lower case, character by character. */
  function InLowerCase(s: string): string {
    seq(|s|, i requires 0 <= i < |s| => if 'A' <= s[i] <= 'Z' then s[i] - 'A' + 'a' else s[i])
  }

  /** Two spellings of an address are one member exactly if they differ only in letter case
      and in the white space around them. */
  lemma SameMember(left: string, a: string, right: string, left': string, b: string, right': string)
    requires forall c :: c in left + right + left' + right' ==> c in " \t\n\r" || c as int == 11 || c as int == 12
    requires a != "" ==> !IsSpace(a[0]) && !IsSpace(a[|a| - 1])
    requires b != "" ==> !IsSpace(b[0]) && !IsSpace(b[|b| - 1])
    ensures Normalized(left + a + right) == InLowerCase(a)
    ensures Normalized(left + a + right) == Normalized(left' + b + right') <==> InLowerCase(a) == InLowerCase(b)
  {
    Spaces();
    assert forall c :: c in left + right ==> c in left + right + left' + right';
    assert forall c :: c in left' + right' ==> c in left + right + left' + right';
    NormalizedIs(left, a, right);
    NormalizedIs(left', b, right');
  }

  lemma LowerParts(left: string, a: string, right: string)
    requires forall c :: c in left + right ==> IsSpace(c)
    ensures Lower(left + a + right) == left + InLowerCase(a) + right
  {
    var s, t := left + a + right, left + InLowerCase(a) + right;
    assert forall i :: 0 <= i < |left| ==> left[i] in left + right;
    assert forall i :: 0 <= i < |right| ==> right[i] in left + right;
    forall i | 0 <= i < |s| ensures Lower(s)[i] == t[i] {
      assert Lower(s)[i] == LowerChar(s[i]);
    }
  }

  lemma NormalizedIs(left: string, a: string, right: string)
    requires forall c :: c in left + right ==> IsSpace(c)
    requires a != "" ==> !IsSpace(a[0]) && !IsSpace(a[|a| - 1])
    ensures Normalized(left + a + right) == InLowerCase(a)
  {
    assert forall c :: c in left ==> c in left + right;
    assert forall c :: c in right ==> c in left + right;
    LowerParts(left, a, right);
    hide Lower;
    TrimSpaceOf(left, InLowerCase(a), right);
  }

  datatype Outcome = Added | Already | WasDisabled | Invalid

  datatype ImportResult = ImportResult(added: nat, already: nat, disabled: nat, invalid: nat) {
    function Total(): nat { added + already + disabled + invalid }

    function Count(o: Outcome): ImportResult {
      match o
      case Added => this.(added := added + 1)
      case Already => this.(already := already + 1)
      case WasDisabled => this.(disabled := disabled + 1)
      case Invalid => this.(invalid := invalid + 1)
    }
  }

  /** The two tables an import writes. */
  datatype Tables = Tables(
    subscribers: map<Id, string>,
    nextSubscriberId: Id,
    subscriptions: map<Id, Subscription>,
    nextSubscriptionId: Id)
  {
    ghost predicate Valid() {
      ValidSubscriptions(subscribers, nextSubscriberId, subscriptions, nextSubscriptionId)
    }
  }

  /** Subscription `k` of the list belongs to the address. */
  ghost predicate IsFor(t: Tables, listId: Id, email: string, k: Id) {
    && k in t.subscriptions && t.subscriptions[k].listId == listId
    && t.subscriptions[k].subscriberId in t.subscribers && t.subscribers[t.subscriptions[k].subscriberId] == email
  }

  ghost predicate IsSubscribed(t: Tables, listId: Id, email: string) {
    exists k :: IsFor(t, listId, email, k)
  }

  /** The tables have gained nothing but, for an address that had no subscription, an
      Active one (and its subscriber, unless known). */
  ghost predicate Subscribes(t: Tables, t': Tables, listId: Id, email: string) {
    && !IsSubscribed(t, listId, email)
    && (t'.subscribers == t.subscribers || t'.subscribers == t.subscribers[t.nextSubscriberId := email])
    && t'.nextSubscriptionId == t.nextSubscriptionId + 1
    && exists id :: id in t'.subscribers && t'.subscribers[id] == email
         && t'.subscriptions == t.subscriptions[t.nextSubscriptionId :=
              Subscription(t.nextSubscriptionId, listId, id, Regular, Active, 0)]
  }

  /** What handling one address must do, by its outcome. */
  ghost predicate Handles(t: Tables, t': Tables, listId: Id, raw: string, o: Outcome) {
    var email := Normalized(raw);
    && t.Valid() && t'.Valid()
    && match o
       case Added => email != "" && Subscribes(t, t', listId, email)
       case Invalid => email == "" && t' == t
       case Already =>
         && email != "" && t' == t
         && exists k :: IsFor(t, listId, email, k) && t.subscriptions[k].status != Disabled
       case WasDisabled =>
         && email != "" && t' == t
         && exists k :: IsFor(t, listId, email, k) && t.subscriptions[k].status == Disabled
  }

  ghost predicate IsDisabled(t: Tables, listId: Id, email: string) {
    exists k :: IsFor(t, listId, email, k) && t.subscriptions[k].status == Disabled
  }

  /** How many rows hold no address. */
  ghost function BlankRows(emails: seq<string>): nat {
    if emails == [] then 0
    else BlankRows(emails[..|emails| - 1]) + if Normalized(emails[|emails| - 1]) == "" then 1 else 0
  }

  /** How many rows hold the address of a Disabled member. */
  ghost function DisabledRows(t: Tables, listId: Id, emails: seq<string>): nat {
    if emails == [] then 0
    else
      var email := Normalized(emails[|emails| - 1]);
      DisabledRows(t, listId, emails[..|emails| - 1]) +
      if email != "" && IsDisabled(t, listId, email) then 1 else 0
  }

  lemma OneMoreRow(t: Tables, listId: Id, emails: seq<string>, raw: string)
    ensures BlankRows(emails + [raw]) == BlankRows(emails) + if Normalized(raw) == "" then 1 else 0
    ensures DisabledRows(t, listId, emails + [raw]) == DisabledRows(t, listId, emails) +
      if Normalized(raw) != "" && IsDisabled(t, listId, Normalized(raw)) then 1 else 0
  {
    assert (emails + [raw])[..|emails|] == emails;
  }

  /** The distinct addresses a file asks for. */
  ghost function Wanted(emails: seq<string>): set<string> {
    set e | e in emails && Normalized(e) != "" :: Normalized(e)
  }

  /** An import of `emails`, of which parsing had already dropped `dropped`: every row is
      counted once, as invalid if it was dropped or holds no address, as disabled if its
      member is Disabled; `added` are the distinct wanted addresses that had no subscription;
      they now have one, and nothing that was there has changed. */
  ghost predicate Imported(t: Tables, t': Tables, listId: Id, emails: seq<string>, dropped: nat,
                           res: ImportResult, added: set<string>) {
    && t'.Valid() && res.Total() == |emails| + dropped && res.added == |added|
    && added == (set e | e in Wanted(emails) && !IsSubscribed(t, listId, e))
    && (forall e :: IsSubscribed(t', listId, e) <==> IsSubscribed(t, listId, e) || e in added)
    && Extends(t, t')
    && (added == {} ==> t' == t)
    && res.invalid == dropped + BlankRows(emails) && res.disabled == DisabledRows(t, listId, emails)
    && (forall e :: IsDisabled(t', listId, e) <==> IsDisabled(t, listId, e))
  }

  ghost predicate Extends(t: Tables, t': Tables) {
    && (forall k :: k in t.subscriptions ==> k in t'.subscriptions && t'.subscriptions[k] == t.subscriptions[k])
    && (forall id :: id in t.subscribers ==> id in t'.subscribers && t'.subscribers[id] == t.subscribers[id])
  }

  lemma WantedMore(emails: seq<string>, raw: string)
    ensures Wanted(emails + [raw]) == Wanted(emails) + if Normalized(raw) != "" then {Normalized(raw)} else {}
  {
    hide Normalized;
    forall e | e in Wanted(emails) ensures e in Wanted(emails + [raw]) {
      var r :| r in emails && Normalized(r) == e;
      assert r in emails + [raw];
    }
    assert raw in emails + [raw];
  }

  /** A new subscription subscribes its own address and no other. */
  lemma SubscribesOne(t: Tables, t': Tables, listId: Id, email: string)
    requires t.Valid() && t'.Valid() && Subscribes(t, t', listId, email)
    ensures forall e :: IsSubscribed(t', listId, e) <==> IsSubscribed(t, listId, e) || e == email
    ensures Extends(t, t')
  {
    forall e ensures IsSubscribed(t', listId, e) <==> IsSubscribed(t, listId, e) || e == email {
      if IsSubscribed(t, listId, e) {
        var k :| IsFor(t, listId, e, k);
        assert IsFor(t', listId, e, k);
      }
      if e == email {
        assert IsFor(t', listId, e, t.nextSubscriptionId);
      }
      if IsSubscribed(t', listId, e) && e != email {
        var k :| IsFor(t', listId, e, k);
        assert IsFor(t, listId, e, k);
      }
    }
  }

  lemma DisablesNone(t: Tables, t': Tables, listId: Id, email: string)
    requires t.Valid() && t'.Valid() && Subscribes(t, t', listId, email) && Extends(t, t')
    ensures forall e :: IsDisabled(t', listId, e) <==> IsDisabled(t, listId, e)
    ensures !IsDisabled(t, listId, email)
  {
    forall e ensures IsDisabled(t', listId, e) <==> IsDisabled(t, listId, e) {
      if IsDisabled(t, listId, e) {
        var k :| IsFor(t, listId, e, k) && t.subscriptions[k].status == Disabled;
        assert IsFor(t', listId, e, k);
      }
      if IsDisabled(t', listId, e) {
        var k :| IsFor(t', listId, e, k) && t'.subscriptions[k].status == Disabled;
        assert IsFor(t, listId, e, k);
      }
    }
  }

  lemma AddedFacts(t: Tables, t': Tables, listId: Id, raw: string)
    requires Handles(t, t', listId, raw, Added)
    ensures var email := Normalized(raw);
            && email != "" && t'.Valid() && Extends(t, t') && !IsSubscribed(t, listId, email)
            && (forall e :: IsSubscribed(t', listId, e) <==> IsSubscribed(t, listId, e) || e == email)
            && !IsDisabled(t, listId, email)
            && forall e :: IsDisabled(t', listId, e) <==> IsDisabled(t, listId, e)
  {
    SubscribesOne(t, t', listId, Normalized(raw));
    DisablesNone(t, t', listId, Normalized(raw));
  }

  lemma ExtendsTrans(t: Tables, t': Tables, t'': Tables)
    requires Extends(t, t') && Extends(t', t'')
    ensures Extends(t, t'')
  {
  }

  lemma ImportAdded(t: Tables, t': Tables, t'': Tables, listId: Id, emails: seq<string>, dropped: nat,
                    res: ImportResult, added: set<string>, raw: string)
    requires Imported(t, t', listId, emails, dropped, res, added) && Handles(t', t'', listId, raw, Added)
    ensures Imported(t, t'', listId, emails + [raw], dropped, res.Count(Added), added + {Normalized(raw)})
  {
    hide Normalized, Wanted, IsSubscribed, IsDisabled, BlankRows, DisabledRows, Handles, Extends, ValidSubscriptions;
    WantedMore(emails, raw);
    OneMoreRow(t, listId, emails, raw);
    AddedFacts(t', t'', listId, raw);
    ExtendsTrans(t, t', t'');
  }

  lemma ImportSkipped(t: Tables, t': Tables, listId: Id, emails: seq<string>, dropped: nat,
                      res: ImportResult, added: set<string>, raw: string, o: Outcome)
    requires Imported(t, t', listId, emails, dropped, res, added) && Handles(t', t', listId, raw, o) && o != Added
    ensures Imported(t, t', listId, emails + [raw], dropped, res.Count(o), added)
  {
    hide Normalized, Wanted, IsSubscribed, IsDisabled, BlankRows, DisabledRows, Handles, Extends, ValidSubscriptions;
    WantedMore(emails, raw);
    OneMoreRow(t, listId, emails, raw);
    SkippedFacts(t', listId, raw, o);
  }

  /** One more row of the file. */
  lemma ImportNext(t: Tables, t': Tables, t'': Tables, listId: Id, emails: seq<string>, i: nat, dropped: nat,
                   res: ImportResult, added: set<string>, o: Outcome)
    returns (added': set<string>)
    requires i < |emails| && Imported(t, t', listId, emails[..i], dropped, res, added)
    requires Handles(t', t'', listId, emails[i], o)
    ensures Imported(t, t'', listId, emails[..i + 1], dropped, res.Count(o), added')
  {
    hide Imported, Handles, Normalized;
    assert emails[..i + 1] == emails[..i] + [emails[i]];
    if o == Added {
      added' := added + {Normalized(emails[i])};
      ImportAdded(t, t', t'', listId, emails[..i], dropped, res, added, emails[i]);
    } else {
      added' := added;
      Skipped(t', t'', listId, emails[i], o);
      ImportSkipped(t, t', listId, emails[..i], dropped, res, added, emails[i], o);
    }
  }

  lemma SkippedFacts(t: Tables, listId: Id, raw: string, o: Outcome)
    requires Handles(t, t, listId, raw, o) && o != Added
    ensures if o == Invalid then Normalized(raw) == ""
      else Normalized(raw) != "" && IsSubscribed(t, listId, Normalized(raw))
    ensures Normalized(raw) != "" ==> (o == WasDisabled <==> IsDisabled(t, listId, Normalized(raw)))
  {
  }

  /** Importing the same file again adds nobody and changes nothing. */
  lemma SecondImportIsIdle(t: Tables, t': Tables, t'': Tables, listId: Id, emails: seq<string>, dropped: nat,
                           res: ImportResult, added: set<string>, res': ImportResult, added': set<string>)
    requires Imported(t, t', listId, emails, dropped, res, added)
    requires Imported(t', t'', listId, emails, dropped, res', added')
    ensures res'.added == 0 && t'' == t'
    ensures res'.already == res.already + res.added && res'.disabled == res.disabled && res'.invalid == res.invalid
  {
    hide Wanted, IsSubscribed, IsDisabled, BlankRows, DisabledRows;
    assert forall e :: e in Wanted(emails) ==> IsSubscribed(t', listId, e);
    assert added' == {};
    SameDisabled(t, t', listId, emails);
  }

  lemma {:induction false} SameDisabled(t: Tables, t': Tables, listId: Id, emails: seq<string>)
    requires forall e :: IsDisabled(t', listId, e) <==> IsDisabled(t, listId, e)
    ensures DisabledRows(t', listId, emails) == DisabledRows(t, listId, emails)
  {
    if emails != [] {
      SameDisabled(t, t', listId, emails[..|emails| - 1]);
    }
  }

  ghost function View(store: Store): Tables
    reads store`subscribers, store`nextSubscriberId, store`subscriptions, store`nextSubscriptionId
  {
    Tables(store.subscribers, store.nextSubscriberId, store.subscriptions, store.nextSubscriptionId)
  }

  ghost predicate KeepsAll(before: map<Id, Subscription>, after: map<Id, Subscription>) {
    forall k :: k in before ==> k in after && after[k] == before[k]
  }

  /** Creates the subscription and activates it. */
  method Activate(store: Store, listId: Id, subscriberId: Id) returns (ok: bool)
    requires store.Valid() && subscriberId in store.subscribers
    modifies store`subscriptions, store`nextSubscriptionId, store`faults, store`calls
    ensures store.Valid() && store.faults >= old(store.faults)
    ensures KeepsAll(old(store.subscriptions), store.subscriptions)
    ensures store.faults == old(store.faults) && !Taken(old(store.subscriptions), listId, subscriberId) ==> ok
    ensures ok ==>
      && !Taken(old(store.subscriptions), listId, subscriberId)
      && store.nextSubscriptionId == old(store.nextSubscriptionId) + 1
      && store.subscriptions == old(store.subscriptions)[old(store.nextSubscriptionId) :=
           Subscription(old(store.nextSubscriptionId), listId, subscriberId, Regular, Active, 0)]
  {
    hide ValidLists, ValidSubscriptions, FreshIds;
    var sub := store.CreateSubscription(listId, subscriberId);
    ok := sub.Some?;
    if ok {
      ok := store.SetSubscriptionStatus(sub.value.id, Active);
    }
  }

  /** One address. Whatever fails, the outcome is true of the tables unless it is Invalid,
      and without a failure also then. */
  method ImportOne(store: Store, listId: Id, raw: string) returns (o: Outcome)
    requires store.Valid()
    modifies store`subscribers, store`nextSubscriberId, store`subscriptions, store`nextSubscriptionId,
             store`faults, store`calls
    ensures store.Valid() && store.faults >= old(store.faults)
    ensures KeepsAll(old(store.subscriptions), store.subscriptions)
    ensures store.faults == old(store.faults) || o != Invalid ==>
      Handles(old(View(store)), View(store), listId, raw, o)
  {
    hide TrimSpace, Lower, ValidLists, ValidSubscriptions, FreshIds;
    var email := TrimSpace(Lower(raw));
    if email == "" {
      return Invalid;
    }
    var subscriber := store.GetOrCreateSubscriber(email);
    if subscriber.None? {
      return Invalid;
    }
    ghost var mid := View(store);
    var existing := store.GetSubscription(listId, subscriber.value);
    if existing.Some? {
      FoundFacts(old(View(store)), mid, listId, email, subscriber.value, existing.value);
      return if existing.value.status == Disabled then WasDisabled else Already;
    }
    var ok := Activate(store, listId, subscriber.value);
    if !Taken(mid.subscriptions, listId, subscriber.value) {
      NotFoundFacts(old(View(store)), mid, listId, email, subscriber.value);
    }
    o := if ok then Added else Invalid;
  }

  /** An existing subscription means that the subscriber was known before. */
  lemma FoundFacts(t: Tables, mid: Tables, listId: Id, email: string, subscriber: Id, sub: Subscription)
    requires t.Valid() && mid.Valid() && mid.subscriptions == t.subscriptions
    requires mid.subscribers == t.subscribers ||
      (subscriber == t.nextSubscriberId && mid.subscribers == t.subscribers[subscriber := email])
    requires subscriber in mid.subscribers && mid.subscribers[subscriber] == email
    requires sub.id in t.subscriptions && t.subscriptions[sub.id] == sub
    requires sub.listId == listId && sub.subscriberId == subscriber
    ensures mid.subscribers == t.subscribers && IsFor(t, listId, email, sub.id)
  {
  }

  lemma NotFoundFacts(t: Tables, mid: Tables, listId: Id, email: string, subscriber: Id)
    requires t.Valid() && mid.Valid() && mid.subscriptions == t.subscriptions
    requires mid.subscribers == t.subscribers ||
      (subscriber == t.nextSubscriberId && mid.subscribers == t.subscribers[subscriber := email])
    requires subscriber in mid.subscribers && mid.subscribers[subscriber] == email
    requires !Taken(mid.subscriptions, listId, subscriber)
    ensures !IsSubscribed(t, listId, email)
  {
    assert forall id :: id in t.subscribers ==> id in mid.subscribers && mid.subscribers[id] == t.subscribers[id];
  }

  /** The loop: whatever fails, every row is counted and no existing subscription changes;
      without a store failure the import is exact. */
  method ImportMembers(store: Store, listName: string, domain: string, emails: seq<string>, dropped: nat)
    returns (res: Option<ImportResult>, ghost listId: Id, ghost added: set<string>)
    requires store.Valid()
    modifies store`subscribers, store`nextSubscriberId, store`subscriptions, store`nextSubscriptionId,
             store`faults, store`calls
    ensures store.Valid() && store.faults >= old(store.faults)
    ensures KeepsAll(old(store.subscriptions), store.subscriptions)
    ensures store.faults == old(store.faults) ==>
      (res.None? <==> forall k :: k in store.lists ==>
         store.lists[k].listName != listName || store.lists[k].domain != domain)
    ensures res.Some? ==> res.value.Total() == |emails| + dropped
    ensures res.Some? ==>
      listId in store.lists && store.lists[listId].listName == listName && store.lists[listId].domain == domain
    ensures store.faults == old(store.faults) && res.Some? ==>
      Imported(old(View(store)), View(store), listId, emails, dropped, res.value, added)
  {
    hide Handles, Imported, Normalized, ValidLists, ValidSubscriptions, FreshIds;
    added, listId := {}, 0;
    var l := store.GetList(listName, domain);
    if l.None? {
      return None, listId, added;
    }
    listId := l.value.id;
    var r := ImportResult(0, 0, 0, dropped);
    ImportNothing(View(store), listId, dropped);
    for i := 0 to |emails|
      invariant store.Valid() && store.faults >= old(store.faults)
      invariant KeepsAll(old(store.subscriptions), store.subscriptions)
      invariant r.Total() == i + dropped
      invariant store.faults == old(store.faults) ==>
        Imported(old(View(store)), View(store), listId, emails[..i], dropped, r, added)
    {
      ghost var before := View(store);
      var o := ImportOne(store, l.value.id, emails[i]);
      if store.faults == old(store.faults) {
        added := ImportNext(old(View(store)), before, View(store), listId, emails, i, dropped, r, added, o);
      }
      r := r.Count(o);
    }
    assert emails[..|emails|] == emails;
    res := Some(r);
  }

  lemma ImportNothing(t: Tables, listId: Id, dropped: nat)
    requires t.Valid()
    ensures Imported(t, t, listId, [], dropped, ImportResult(0, 0, 0, dropped), {})
  {
  }

  lemma Skipped(t: Tables, t': Tables, listId: Id, raw: string, o: Outcome)
    requires Handles(t, t', listId, raw, o) && o != Added
    ensures t' == t
  {
  }
}
