/** What becomes of a post, over every run of pipeline actions, failing ones included. */
module PostLifecycle {
  import opened Wrappers
  import opened Model

  datatype PostAction = Accept | Hold | Reject

  /** The posting policy. */
  function DecidePostAction(listType: ListType, moderated: bool,
                            isSubscriber: bool, isOwner: bool, isDesignatedSender: bool): PostAction {
    match listType
    case Discussion => if moderated then Hold else if isSubscriber then Accept else Reject
    case Newsletter => if isOwner || isDesignatedSender then Accept else Reject
    case OtherType => Reject
  }

  datatype Outcome = Archived(at: Time) | Rejected | Discarded | Expired(at: Time)

  /** A message as it was posted to a list; `moderated` if that was a discussion list with
      moderation on. */
  datatype Posted = Posted(listId: Id, sender: string, raw: string, moderated: bool)

  /** A post: the message, what was done with it, in order, and when its hold expires if it
      had one. */
  datatype Record = Record(m: Posted, outcomes: seq<Outcome>, expiresAt: Option<Time>)

  datatype HeldRow = HeldRow(post: nat, expiresAt: Time)

  /** Posts in order of arrival; `archive` lists posts in the order they were archived. */
  datatype State = State(
    now: Time,
    posts: seq<Record>,
    held: map<Id, HeldRow>,
    nextHeld: Id,
    archive: seq<nat>)

  const INIT := State(0, [], map[], 0, [])

  /** Approval and rejection act first and remove the held row after; `removed` says whether
      the removal succeeded. */
  datatype Step =
    | Post(m: Posted, action: PostAction, holdDays: int)
    | ApproveHeld(id: Id, removed: bool)
    | RejectHeld(id: Id, removed: bool)
    | DiscardHeld(id: Id)
    | Sweep
    | Tick(t: Time)

  /** A post to a moderated discussion list is not accepted as it comes. */
  predicate Enabled(s: State, step: Step) {
    && (step.Tick? ==> step.t >= s.now)
    && (step.Post? && step.m.moderated ==> step.action != Accept)
  }

  /** heldContext: the row is there and its expiry has not passed. */
  predicate Actionable(s: State, id: Id) { id in s.held && s.now <= s.held[id].expiresAt }

  function With(r: Record, o: Outcome): Record { r.(outcomes := r.outcomes + [o]) }

  /** `o` happens to a held post, and its row goes if it can be removed. */
  function Acted(s: State, id: Id, o: Outcome, removed: bool): State
    requires id in s.held
  {
    var p := s.held[id].post;
    s.(held := if removed then s.held - {id} else s.held,
       posts := if p < |s.posts| then s.posts[p := With(s.posts[p], o)] else s.posts,
       archive := if o.Archived? then s.archive + [p] else s.archive)
  }

  predicate Swept(s: State, id: Id) { id in s.held && s.held[id].expiresAt < s.now }

  ghost function SweptRecord(s: State, p: nat): Record
    requires p < |s.posts|
  {
    if exists id :: Swept(s, id) && s.held[id].post == p then With(s.posts[p], Expired(s.now)) else s.posts[p]
  }

  ghost function Apply(s: State, step: Step): State {
    match step
    case Post(m, action, days) =>
      var p := |s.posts|;
      (match action
       case Accept => s.(posts := s.posts + [Record(m, [Archived(s.now)], None)], archive := s.archive + [p])
       case Reject => s.(posts := s.posts + [Record(m, [Rejected], None)])
       case Hold =>
         var expiresAt := s.now + days * DAY;
         s.(posts := s.posts + [Record(m, [], Some(expiresAt))],
            held := s.held[s.nextHeld := HeldRow(p, expiresAt)], nextHeld := s.nextHeld + 1))
    case ApproveHeld(id, removed) => if Actionable(s, id) then Acted(s, id, Archived(s.now), removed) else s
    case RejectHeld(id, removed) => if Actionable(s, id) then Acted(s, id, Rejected, removed) else s
    case DiscardHeld(id) => if Actionable(s, id) then Acted(s, id, Discarded, true) else s
    case Sweep =>
      s.(held := map id | id in s.held && !Swept(s, id) :: s.held[id],
         posts := seq(|s.posts|, p requires 0 <= p < |s.posts| => SweptRecord(s, p)))
    case Tick(t) => s.(now := t)
  }

  ghost predicate Reaches(s: State, steps: seq<Step>, s': State)
    decreases |steps|
  {
    if steps == [] then s == s'
    else Enabled(s, steps[0]) && Reaches(Apply(s, steps[0]), steps[1..], s')
  }

  ghost predicate Reachable(s: State) { exists steps :: Reaches(INIT, steps, s) }

  // ----- The invariant -----

  ghost predicate IsHeld(s: State, p: nat) { exists id :: id in s.held && s.held[id].post == p }

  function Archivings(outcomes: seq<Outcome>): nat {
    if outcomes == [] then 0
    else Archivings(outcomes[..|outcomes| - 1]) + if outcomes[|outcomes| - 1].Archived? then 1 else 0
  }

  /** How often the post is in the archive. */
  ghost function Copies(s: State, p: nat): nat { multiset(s.archive)[p] }

  /** Outcomes that may leave the post held. */
  predicate MayLinger(o: Outcome) { o.Archived? || o.Rejected? }

  ghost predicate TimedOk(now: Time, expiresAt: Option<Time>, o: Outcome) {
    && (o.Archived? ==> o.at <= now && (expiresAt.Some? ==> o.at <= expiresAt.value))
    && (o.Expired? ==> expiresAt.Some? && expiresAt.value < o.at <= now)
  }

  ghost predicate RecordOk(now: Time, held: bool, copies: nat, r: Record) {
    && copies == Archivings(r.outcomes)
    && (held || r.outcomes != [])
    && (forall i :: 0 <= i < |r.outcomes| && (held || i < |r.outcomes| - 1) ==> MayLinger(r.outcomes[i]))
    && (forall o :: o in r.outcomes ==> TimedOk(now, r.expiresAt, o))
  }

  ghost predicate HeldOk(held: map<Id, HeldRow>, nextHeld: Id, posts: seq<Record>) {
    && FreshIds(held, nextHeld)
    && (forall id :: id in held ==>
          held[id].post < |posts| && posts[held[id].post].expiresAt == Some(held[id].expiresAt))
    && (forall a, b :: a in held && b in held && held[a].post == held[b].post ==> a == b)
  }

  ghost predicate PostOk(s: State, p: nat)
    requires p < |s.posts|
  {
    RecordOk(s.now, IsHeld(s, p), Copies(s, p), s.posts[p])
  }

  ghost predicate Inv(s: State) {
    && HeldOk(s.held, s.nextHeld, s.posts)
    && (forall p :: p in s.archive ==> p < |s.posts|)
    && (forall p :: 0 <= p < |s.posts| ==> PostOk(s, p))
  }

  lemma NewRecordOk(m: Posted, now: Time, expiresAt: Time)
    ensures RecordOk(now, true, 0, Record(m, [], Some(expiresAt)))
    ensures RecordOk(now, false, 1, Record(m, [Archived(now)], None))
    ensures RecordOk(now, false, 0, Record(m, [Rejected], None))
  {
    assert Archivings([]) == 0;
    assert [Archived(now)][..0] == [] && [Rejected][..0] == [];
  }

  /** One more outcome of a held post. */
  lemma OutcomeOk(now: Time, copies: nat, r: Record, o: Outcome, held: bool)
    requires RecordOk(now, true, copies, r) && TimedOk(now, r.expiresAt, o) && (held ==> MayLinger(o))
    ensures RecordOk(now, held, copies + if o.Archived? then 1 else 0, With(r, o))
  {
    var os := r.outcomes + [o];
    assert os[..|os| - 1] == r.outcomes;
    forall i | 0 <= i < |os| && (held || i < |os| - 1) ensures MayLinger(os[i]) {
      if i < |r.outcomes| {
        assert os[i] == r.outcomes[i];
      }
    }
  }

  lemma HeldGrows(held: map<Id, HeldRow>, next: Id, posts: seq<Record>, r: Record)
    requires HeldOk(held, next, posts)
    ensures HeldOk(held, next, posts + [r]) && next !in held
    ensures r.expiresAt.Some? ==>
      HeldOk(held[next := HeldRow(|posts|, r.expiresAt.value)], next + 1, posts + [r])
    ensures forall id :: id in held ==> held[id].post != |posts|
  {
  }

  lemma PostKeepsInv(s: State, m: Posted, action: PostAction, days: int)
    requires Inv(s) && Enabled(s, Post(m, action, days))
    ensures Inv(Apply(s, Post(m, action, days)))
  {
    hide RecordOk, HeldOk;
    var s' := Apply(s, Post(m, action, days));
    var n := |s.posts|;
    HeldGrows(s.held, s.nextHeld, s.posts, s'.posts[n]);
    NewRecordOk(m, s.now, s.now + days * DAY);
    assert n !in s.archive;
    assert action == Hold ==> s'.held[s.nextHeld].post == n;
    forall p | 0 <= p < |s'.posts| ensures PostOk(s', p) {
      if p < n {
        assert PostOk(s, p);
        StillHeld(s, s', p);
      }
    }
  }

  lemma StillHeld(s: State, s': State, p: nat)
    requires forall id :: id in s.held ==> id in s'.held && s'.held[id] == s.held[id]
    requires forall id :: id in s'.held && id !in s.held ==> s'.held[id].post != p
    ensures IsHeld(s', p) <==> IsHeld(s, p)
  {
    if IsHeld(s, p) {
      var id :| id in s.held && s.held[id].post == p;
      assert id in s'.held && s'.held[id].post == p;
    }
  }

  lemma HeldAfterAction(s: State, id: Id, o: Outcome, removed: bool, p: nat)
    requires Inv(s) && id in s.held
    ensures IsHeld(Acted(s, id, o, removed), p) <==> IsHeld(s, p) && !(removed && p == s.held[id].post)
  {
    var s' := Acted(s, id, o, removed);
    if IsHeld(s, p) {
      var k :| k in s.held && s.held[k].post == p;
      assert !(removed && p == s.held[id].post) ==> k in s'.held && s'.held[k].post == p;
    }
  }

  lemma ActionKeepsInv(s: State, id: Id, o: Outcome, removed: bool)
    requires Inv(s) && Actionable(s, id)
    requires (o.Archived? ==> o.at == s.now) && !o.Expired? && (!removed ==> MayLinger(o))
    ensures Inv(Acted(s, id, o, removed))
  {
    hide RecordOk;
    var s' := Acted(s, id, o, removed);
    var q := s.held[id].post;
    assert IsHeld(s, q);
    assert PostOk(s, q);
    OutcomeOk(s.now, Copies(s, q), s.posts[q], o, !removed);
    forall p | 0 <= p < |s'.posts| ensures PostOk(s', p) {
      HeldAfterAction(s, id, o, removed, p);
      assert PostOk(s, p);
    }
  }

  lemma SweptPost(s: State, p: nat)
    requires Inv(s) && p < |s.posts|
    ensures var s' := Apply(s, Sweep);
      && RecordOk(s.now, IsHeld(s', p), Copies(s, p), SweptRecord(s, p))
      && SweptRecord(s, p).expiresAt == s.posts[p].expiresAt
      && |SweptRecord(s, p).outcomes| + (if IsHeld(s', p) then 1 else 0) == Dealt(s, p)
  {
    hide RecordOk;
    var s' := Apply(s, Sweep);
    assert PostOk(s, p);
    if IsHeld(s, p) {
      var id :| id in s.held && s.held[id].post == p;
      assert IsHeld(s', p) <==> !Swept(s, id) by {
        if !Swept(s, id) {
          assert id in s'.held && s'.held[id].post == p;
        }
      }
      if Swept(s, id) {
        OutcomeOk(s.now, Copies(s, p), s.posts[p], Expired(s.now), false);
      }
    }
  }

  lemma FewerHeld(held: map<Id, HeldRow>, held': map<Id, HeldRow>, next: Id, posts: seq<Record>, posts': seq<Record>)
    requires HeldOk(held, next, posts) && |posts'| == |posts|
    requires forall id :: id in held' ==> id in held && held'[id] == held[id]
    requires forall p :: 0 <= p < |posts| ==> posts'[p].expiresAt == posts[p].expiresAt
    ensures HeldOk(held', next, posts')
  {
  }

  lemma SweepKeepsInv(s: State)
    requires Inv(s)
    ensures Inv(Apply(s, Sweep))
  {
    var s' := Apply(s, Sweep);
    hide SweptRecord, RecordOk, HeldOk;
    forall p | 0 <= p < |s'.posts|
      ensures PostOk(s', p) && s'.posts[p].expiresAt == s.posts[p].expiresAt
    {
      SweptPost(s, p);
    }
    FewerHeld(s.held, s'.held, s.nextHeld, s.posts, s'.posts);
  }

  lemma TickKeepsInv(s: State, t: Time)
    requires Inv(s) && t >= s.now
    ensures Inv(Apply(s, Tick(t)))
  {
    var s' := Apply(s, Tick(t));
    forall p | 0 <= p < |s'.posts| ensures PostOk(s', p) {
      assert PostOk(s, p);
      assert IsHeld(s', p) <==> IsHeld(s, p);
    }
  }

  lemma StepKeepsInv(s: State, step: Step)
    requires Inv(s) && Enabled(s, step)
    ensures Inv(Apply(s, step))
  {
    hide Inv, Acted;
    match step
    case Post(m, action, days) => PostKeepsInv(s, m, action, days);
    case ApproveHeld(id, removed) => if Actionable(s, id) { ActionKeepsInv(s, id, Archived(s.now), removed); }
    case RejectHeld(id, removed) => if Actionable(s, id) { ActionKeepsInv(s, id, Rejected, removed); }
    case DiscardHeld(id) => if Actionable(s, id) { ActionKeepsInv(s, id, Discarded, true); }
    case Sweep => SweepKeepsInv(s);
    case Tick(t) => TickKeepsInv(s, t);
  }

  lemma {:induction false} RunKeepsInv(s: State, steps: seq<Step>, s': State)
    requires Inv(s) && Reaches(s, steps, s')
    ensures Inv(s')
    decreases |steps|
  {
    hide Inv;
    if steps != [] {
      StepKeepsInv(s, steps[0]);
      RunKeepsInv(Apply(s, steps[0]), steps[1..], s');
    }
  }

  lemma ReachableInv(s: State)
    requires Reachable(s)
    ensures Inv(s)
  {
    var steps :| Reaches(INIT, steps, s);
    RunKeepsInv(INIT, steps, s);
  }

  // ----- Conservation -----

  /** How often the post has been dealt with, counting it as pending while it is held. */
  ghost function Dealt(s: State, p: nat): nat
    requires p < |s.posts|
  {
    |s.posts[p].outcomes| + if IsHeld(s, p) then 1 else 0
  }

  /** An approval or rejection of the post takes effect without removing its row. */
  predicate Lingers(s: State, step: Step, p: nat) {
    && (step.ApproveHeld? || step.RejectHeld?) && !step.removed
    && Actionable(s, step.id) && s.held[step.id].post == p
  }

  /** How often that happens in a run. */
  ghost function Lingered(s: State, steps: seq<Step>, p: nat): nat
    decreases |steps|
  {
    if steps == [] || !Enabled(s, steps[0]) then 0
    else (if Lingers(s, steps[0], p) then 1 else 0) + Lingered(Apply(s, steps[0]), steps[1..], p)
  }

  ghost function LingeredApprovals(s: State, steps: seq<Step>, p: nat): nat
    decreases |steps|
  {
    if steps == [] || !Enabled(s, steps[0]) then 0
    else (if Lingers(s, steps[0], p) && steps[0].ApproveHeld? then 1 else 0)
         + LingeredApprovals(Apply(s, steps[0]), steps[1..], p)
  }

  /** What is in the archive or may still get there. */
  ghost function CopiesDue(s: State, p: nat): nat { Copies(s, p) + if IsHeld(s, p) then 1 else 0 }

  lemma ActionDeals(s: State, id: Id, o: Outcome, removed: bool, p: nat)
    requires Inv(s) && Actionable(s, id) && p < |s.posts|
    ensures var s' := Acted(s, id, o, removed);
      && |s'.posts| == |s.posts|
      && Dealt(s', p) == Dealt(s, p) + (if !removed && p == s.held[id].post then 1 else 0)
      && CopiesDue(s', p) <= CopiesDue(s, p) + (if !removed && o.Archived? && p == s.held[id].post then 1 else 0)
  {
    HeldAfterAction(s, id, o, removed, p);
    assert p == s.held[id].post ==> IsHeld(s, p);
  }

  lemma PostDeals(s: State, step: Step, p: nat)
    requires Inv(s) && step.Post? && Enabled(s, step) && p <= |s.posts|
    ensures var s' := Apply(s, step);
      && |s'.posts| == |s.posts| + 1
      && Dealt(s', p) == (if p < |s.posts| then Dealt(s, p) else 1)
      && CopiesDue(s', p) <= (if p < |s.posts| then CopiesDue(s, p) else 1)
  {
    var s' := Apply(s, step);
    if p < |s.posts| {
      StillHeld(s, s', p);
    } else {
      assert p !in s.archive;
      assert step.action.Hold? ==> s'.held[s.nextHeld].post == p;
    }
  }

  lemma TickDeals(s: State, t: Time, p: nat)
    requires Inv(s) && t >= s.now && p < |s.posts|
    ensures Dealt(Apply(s, Tick(t)), p) == Dealt(s, p) && CopiesDue(Apply(s, Tick(t)), p) == CopiesDue(s, p)
  {
    assert IsHeld(Apply(s, Tick(t)), p) <==> IsHeld(s, p);
  }

  /** Only an action that leaves the row behind adds to the account of a post. */
  lemma StepDeals(s: State, step: Step, p: nat)
    requires Inv(s) && Enabled(s, step) && p < |s.posts|
    ensures var s' := Apply(s, step);
      && |s'.posts| >= |s.posts|
      && Dealt(s', p) == Dealt(s, p) + (if Lingers(s, step, p) then 1 else 0)
      && CopiesDue(s', p) <= CopiesDue(s, p) + (if Lingers(s, step, p) && step.ApproveHeld? then 1 else 0)
  {
    hide Inv, Dealt, CopiesDue, Acted;
    match step
    case Post(m, action, days) => PostDeals(s, step, p);
    case ApproveHeld(id, removed) => if Actionable(s, id) { ActionDeals(s, id, Archived(s.now), removed, p); }
    case RejectHeld(id, removed) => if Actionable(s, id) { ActionDeals(s, id, Rejected, removed, p); }
    case DiscardHeld(id) => if Actionable(s, id) { ActionDeals(s, id, Discarded, true, p); }
    case Sweep => SweepDeals(s, p);
    case Tick(t) => TickDeals(s, t, p);
  }

  lemma SweepDeals(s: State, p: nat)
    requires Inv(s) && p < |s.posts|
    ensures var s' := Apply(s, Sweep); Dealt(s', p) == Dealt(s, p) && CopiesDue(s', p) <= CopiesDue(s, p)
  {
    SweptPost(s, p);
  }

  lemma NotYetHeld(s: State, step: Step, p: nat)
    requires Inv(s) && Enabled(s, step) && p >= |s.posts|
    ensures !Lingers(s, step, p)
    ensures p < |Apply(s, step).posts| ==> step.Post? && p == |s.posts|
  {
  }

  lemma {:induction false} RunDeals(s: State, steps: seq<Step>, s': State, p: nat)
    requires Inv(s) && Reaches(s, steps, s') && p < |s'.posts|
    ensures Dealt(s', p) == (if p < |s.posts| then Dealt(s, p) else 1) + Lingered(s, steps, p)
    ensures CopiesDue(s', p) <= (if p < |s.posts| then CopiesDue(s, p) else 1) + LingeredApprovals(s, steps, p)
    decreases |steps|
  {
    hide Inv, Dealt, CopiesDue, Apply, Lingers;
    if steps != [] {
      StepKeepsInv(s, steps[0]);
      RunDeals(Apply(s, steps[0]), steps[1..], s', p);
      if p < |s.posts| {
        StepDeals(s, steps[0], p);
      } else {
        NotYetHeld(s, steps[0], p);
        if p < |Apply(s, steps[0]).posts| {
          PostDeals(s, steps[0], p);
        }
      }
    }
  }

  lemma InitInv()
    ensures Inv(INIT) && |INIT.posts| == 0
  {
  }

  /** Conservation: in every run a post has been dealt with, or is pending, exactly once,
      and once more for each approval or rejection of it that left its row behind. It is in
      the archive at most once, and once more for each such approval. */
  lemma Conservation(steps: seq<Step>, s: State, p: nat)
    requires Reaches(INIT, steps, s) && p < |s.posts|
    ensures |s.posts[p].outcomes| + (if IsHeld(s, p) then 1 else 0) == 1 + Lingered(INIT, steps, p)
    ensures Copies(s, p) <= 1 + LingeredApprovals(INIT, steps, p)
  {
    InitInv();
    RunDeals(INIT, steps, s, p);
  }

  datatype Fate = WasArchived | IsWaiting | WasRejected | WasDiscarded | HasExpired

  ghost predicate HasFate(s: State, p: nat, fate: Fate)
    requires p < |s.posts|
  {
    var os := s.posts[p].outcomes;
    match fate
    case WasArchived => p in s.archive
    case IsWaiting => IsHeld(s, p)
    case WasRejected => Rejected in os
    case WasDiscarded => Discarded in os
    case HasExpired => exists o :: o in os && o.Expired?
  }

  function FateOf(o: Outcome): Fate {
    match o
    case Archived(_) => WasArchived
    case Rejected => WasRejected
    case Discarded => WasDiscarded
    case Expired(_) => HasExpired
  }

  lemma {:induction false} ArchivedAmong(os: seq<Outcome>)
    ensures Archivings(os) > 0 <==> exists o :: o in os && o.Archived?
  {
    if os != [] {
      var n := |os| - 1;
      ArchivedAmong(os[..n]);
      assert os == os[..n] + [os[n]];
    }
  }

  /** A post's fates are its outcomes', and waiting while it is held. */
  lemma FatesAre(s: State, p: nat, fate: Fate)
    requires Inv(s) && p < |s.posts|
    ensures HasFate(s, p, fate) <==>
      if fate.IsWaiting? then IsHeld(s, p) else exists o :: o in s.posts[p].outcomes && FateOf(o) == fate
  {
    assert PostOk(s, p);
    ArchivedAmong(s.posts[p].outcomes);
    assert forall o :: FateOf(o) == WasRejected <==> o == Rejected;
    assert forall o :: FateOf(o) == WasDiscarded <==> o == Discarded;
  }

  /** The post is in exactly one place, and was put there once. */
  ghost predicate InOnePlace(s: State, p: nat)
    requires p < |s.posts|
  {
    && |s.posts[p].outcomes| <= 1
    && exists fate :: HasFate(s, p, fate) && forall other :: HasFate(s, p, other) ==> other == fate
  }

  lemma PlacesCounted(s: State, p: nat)
    requires Inv(s) && p < |s.posts|
    ensures InOnePlace(s, p) <==> Dealt(s, p) == 1
  {
    hide HasFate;
    forall fate ensures HasFate(s, p, fate) <==>
      if fate.IsWaiting? then IsHeld(s, p) else exists o :: o in s.posts[p].outcomes && FateOf(o) == fate
    {
      FatesAre(s, p, fate);
    }
    assert PostOk(s, p);
    var os := s.posts[p].outcomes;
    if os == [] {
      assert HasFate(s, p, IsWaiting);
    } else if |os| == 1 {
      assert os[0] in os && os == [os[0]];
      assert HasFate(s, p, FateOf(os[0])) && !FateOf(os[0]).IsWaiting?;
      assert HasFate(s, p, IsWaiting) <==> IsHeld(s, p);
    }
  }

  /** In every run a post is in exactly one of archived, held, rejected, discarded and
      expired, and was put there once, if and only if no approval or rejection of it took
      effect without removing its row. It is always in at least one. */
  lemma ExactlyOneFate(steps: seq<Step>, s: State, p: nat)
    requires Reaches(INIT, steps, s) && p < |s.posts|
    ensures exists fate :: HasFate(s, p, fate)
    ensures InOnePlace(s, p) <==> Lingered(INIT, steps, p) == 0
  {
    InitInv();
    RunKeepsInv(INIT, steps, s);
    Conservation(steps, s, p);
    PlacesCounted(s, p);
    SomeFate(s, p);
  }

  lemma SomeFate(s: State, p: nat)
    requires Inv(s) && p < |s.posts|
    ensures exists fate :: HasFate(s, p, fate)
  {
    assert PostOk(s, p);
    var os := s.posts[p].outcomes;
    var fate := if os == [] then IsWaiting else FateOf(os[0]);
    FatesAre(s, p, fate);
    assert os != [] ==> os[0] in os;
    assert HasFate(s, p, fate);
  }

  /** A post is dealt with at most once, and archived at most once, unless an action on it
      left its row behind; and it is never archived after its hold expired. A discard or an
      expiry is always the last thing that happens to it. */
  lemma ResolvedAtMostOnce(steps: seq<Step>, s: State, p: nat)
    requires Reaches(INIT, steps, s) && p < |s.posts|
    ensures Lingered(INIT, steps, p) == 0 ==> |s.posts[p].outcomes| <= 1
    ensures LingeredApprovals(INIT, steps, p) == 0 ==> Copies(s, p) <= 1
    ensures forall o :: o in s.posts[p].outcomes && o.Archived? && s.posts[p].expiresAt.Some? ==>
      o.at <= s.posts[p].expiresAt.value
    ensures forall i :: 0 <= i < |s.posts[p].outcomes| - 1 ==> MayLinger(s.posts[p].outcomes[i])
  {
    Conservation(steps, s, p);
    InitInv();
    RunKeepsInv(INIT, steps, s);
    assert PostOk(s, p);
    forall o | o in s.posts[p].outcomes ensures TimedOk(s.now, s.posts[p].expiresAt, o) {}
  }

  /** What was done with a post stays done, whatever comes after; and nothing more happens
      to it once it is no longer held. */
  lemma FateIsFinal(s: State, p: nat, step: Step)
    requires Reachable(s) && p < |s.posts| && Enabled(s, step)
    ensures p < |Apply(s, step).posts| && s.posts[p].outcomes <= Apply(s, step).posts[p].outcomes
    ensures !IsHeld(s, p) ==> Apply(s, step).posts[p] == s.posts[p] && !IsHeld(Apply(s, step), p)
  {
    ReachableInv(s);
    var s' := Apply(s, step);
    if !IsHeld(s, p) {
      assert forall id :: id in s.held ==> s.held[id].post != p;
    }
  }

  /** A record keeps the message that was posted. */
  lemma MessagesAreKept(s: State, step: Step)
    requires Enabled(s, step)
    ensures |Apply(s, step).posts| >= |s.posts|
    ensures forall p :: 0 <= p < |s.posts| ==> Apply(s, step).posts[p].m == s.posts[p].m
  {
  }

  // ----- Moderation -----

  lemma {:induction false} RunKeepsMessages(s: State, steps: seq<Step>, s': State)
    requires Reaches(s, steps, s')
    ensures |s'.posts| >= |s.posts| && forall p :: 0 <= p < |s.posts| ==> s'.posts[p].m == s.posts[p].m
    decreases |steps|
  {
    hide Apply, Enabled;
    if steps != [] {
      MessagesAreKept(s, steps[0]);
      RunKeepsMessages(Apply(s, steps[0]), steps[1..], s');
    }
  }

  /** Step `step` approves the held post `p`. */
  predicate Approves(s: State, step: Step, p: nat) {
    step.ApproveHeld? && Actionable(s, step.id) && s.held[step.id].post == p
  }

  /** What gets a post into the archive: its acceptance, or a moderator's approval. */
  lemma StepArchives(s: State, step: Step, p: nat)
    requires Inv(s) && Enabled(s, step) && p !in s.archive && p in Apply(s, step).archive
    ensures p < |Apply(s, step).posts|
    ensures Approves(s, step, p) || (p == |s.posts| && !Apply(s, step).posts[p].m.moderated)
  {
  }

  lemma {:induction false} ArchivedByApproval(s: State, steps: seq<Step>, s': State, p: nat)
    returns (k: nat, mid: State)
    requires Inv(s) && Reaches(s, steps, s') && p !in s.archive && p in s'.archive
    requires p < |s'.posts| && s'.posts[p].m.moderated
    ensures k < |steps| && Reaches(s, steps[..k], mid) && Approves(mid, steps[k], p)
    decreases |steps|
  {
    hide Inv, Apply, Enabled, Approves;
    var next := Apply(s, steps[0]);
    StepKeepsInv(s, steps[0]);
    if p in next.archive {
      StepArchives(s, steps[0], p);
      RunKeepsMessages(next, steps[1..], s');
      k, mid := 0, s;
    } else {
      k, mid := ArchivedByApproval(next, steps[1..], s', p);
      assert steps[..k + 1][1..] == steps[1..][..k];
      k := k + 1;
    }
  }

  /** No post to a moderated discussion list is in the archive unless it was held first and
      a moderator approved it while it was. */
  lemma ModeratedIsApproved(steps: seq<Step>, s: State, p: nat) returns (k: nat, mid: State)
    requires Reaches(INIT, steps, s) && p < |s.posts| && s.posts[p].m.moderated && p in s.archive
    ensures k < |steps| && Reaches(INIT, steps[..k], mid)
    ensures steps[k].ApproveHeld? && Actionable(mid, steps[k].id) && mid.held[steps[k].id].post == p
    ensures IsHeld(mid, p)
  {
    InitInv();
    k, mid := ArchivedByApproval(INIT, steps, s, p);
  }

  // ----- A run in which an approval fails halfway -----

  lemma {:induction false} ReachesOneMore(s: State, steps: seq<Step>, s': State, step: Step)
    requires Reaches(s, steps, s') && Enabled(s', step)
    ensures Reaches(s, steps + [step], Apply(s', step))
    decreases |steps|
  {
    if steps == [] {
      assert Reaches(Apply(s, step), [], Apply(s', step));
    } else {
      ReachesOneMore(Apply(s, steps[0]), steps[1..], s', step);
      assert (steps + [step])[1..] == steps[1..] + [step];
    }
  }

  /** The first approval archives the post but cannot remove its row: the post is archived
      and held. The second archives it again. */
  lemma ArchivedTwice(m: Posted) returns (once: State, twice: State)
    ensures Reachable(once) && |once.posts| == 1 && once.archive == [0] && IsHeld(once, 0)
    ensures Reachable(twice) && |twice.posts| == 1 && twice.archive == [0, 0] && !IsHeld(twice, 0)
  {
    var hold, first, second := Post(m, Hold, 1), ApproveHeld(0, false), ApproveHeld(0, true);
    assert Reaches(INIT, [], INIT);
    ReachesOneMore(INIT, [], INIT, hold);
    var held := Apply(INIT, hold);
    assert held == State(0, [Record(m, [], Some(DAY))], map[0 := HeldRow(0, DAY)], 1, []);
    ReachesOneMore(INIT, [] + [hold], held, first);
    once := Apply(held, first);
    assert [] + [Archived(0)] == [Archived(0)];
    assert once == State(0, [Record(m, [Archived(0)], Some(DAY))], map[0 := HeldRow(0, DAY)], 1, [0]);
    ReachesOneMore(INIT, [] + [hold] + [first], once, second);
    twice := Apply(once, second);
    assert 0 in once.held && once.held[0].post == 0;
  }
}
