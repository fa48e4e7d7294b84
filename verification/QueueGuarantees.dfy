/** What the outbound queue guarantees in every run, whatever the interleaving. */
module QueueGuarantees {
  import opened Wrappers
  import opened Model
  import opened QueueTable
  import opened QueueProtocol

  ghost predicate Holds(s: State, w: Worker, id: Id) {
    s.Pc(w).Holding() && s.Pc(w).id == id
  }

  /** A row is in the hands of at most one worker, even after an operator discarded it. */
  lemma ClaimsAreExclusive(max: nat, s: State, v: Worker, w: Worker, id: Id)
    requires Reachable(max, s) && Holds(s, v, id) && Holds(s, w, id)
    ensures v == w
  {
    ReachableInv(max, s);
  }

  /** Send is called at most `max` times for a row, and the MTA takes it at most once. */
  lemma AttemptsAreCapped(max: nat, s: State, id: Id)
    requires Reachable(max, s) && id < |s.hist|
    ensures |s.hist[id].attempts| <= max && AtMostLastOk(s.hist[id].attempts)
  {
    ReachableInv(max, s);
    assert RowOk(max, s.rows, id, s.hist[id]);
  }

  /** Retries counts the failed attempts: of a waiting row, and in a worker's copy. */
  lemma RetriesCountFailures(max: nat, s: State)
    requires Reachable(max, s)
    ensures forall id :: id in s.rows && s.rows[id].claimedAt.None? ==>
      id < |s.hist| && s.rows[id].retries == |s.hist[id].attempts| && AllFailed(s.hist[id].attempts)
    ensures forall w :: s.Pc(w).Sending? ==>
      && s.Pc(w).id < |s.hist|
      && s.Pc(w).q.retries == |s.hist[s.Pc(w).id].attempts| && AllFailed(s.hist[s.Pc(w).id].attempts)
  {
    ReachableInv(max, s);
    forall id | id in s.rows && s.rows[id].claimedAt.None?
      ensures id < |s.hist| && s.rows[id].retries == |s.hist[id].attempts| && AllFailed(s.hist[id].attempts)
    {
      assert RowOk(max, s.rows, id, s.hist[id]);
    }
  }

  /** Apart from its delivery state a queued row stays the row that was enqueued, and
      so does the copy a worker sends. */
  lemma MessagesAreKept(max: nat, s: State)
    requires Reachable(max, s)
    ensures forall id :: id in s.rows ==> id < |s.hist| && SameMessage(s.rows[id], s.hist[id].q)
    ensures forall w :: s.Pc(w).Holding() ==>
      s.Pc(w).id < |s.hist| && SameMessage(s.Pc(w).q, s.hist[s.Pc(w).id].q)
  {
    ReachableInv(max, s);
    forall id | id in s.rows ensures id < |s.hist| && SameMessage(s.rows[id], s.hist[id].q) {
      assert RowOk(max, s.rows, id, s.hist[id]);
    }
  }

  // ----- Fates -----

  /** What can have become of a row. A stranded one is claimed but nobody's: the write
      that should have released or removed it failed. */
  datatype Fate = Waiting | Held | Stranded | Sent | Discarded | GivenUp

  ghost predicate HasFate(s: State, id: Id, fate: Fate)
    requires id < |s.hist|
  {
    var h := s.hist[id];
    match fate
    case Waiting => id in s.rows && s.rows[id].claimedAt.None?
    case Held => id in s.rows && s.rows[id].claimedAt.Some? && exists w :: Holds(s, w, id)
    case Stranded => id in s.rows && s.rows[id].claimedAt.Some? && !exists w :: Holds(s, w, id)
    case Sent => AfterDelivery in h.removals
    case Discarded => ByOperator in h.removals
    case GivenUp => AfterGivingUp in h.removals
  }

  /** Conservation: every enqueued row has exactly one fate at every moment; it is never
      lost and never counted twice. */
  lemma ExactlyOneFate(max: nat, s: State, id: Id) returns (fate: Fate)
    requires Reachable(max, s) && id < |s.hist|
    ensures HasFate(s, id, fate)
    ensures forall other :: HasFate(s, id, other) ==> other == fate
  {
    ReachableInv(max, s);
    var h := s.hist[id];
    assert RowOk(max, s.rows, id, h);
    fate :=
      if id in s.rows then
        if s.rows[id].claimedAt.None? then Waiting
        else if exists w :: Holds(s, w, id) then Fate.Held else Stranded
      else match h.removals[0]
        case AfterDelivery => Sent
        case ByOperator => Discarded
        case AfterGivingUp => GivenUp;
    assert id !in s.rows ==> h.removals == [h.removals[0]];
  }

  /** What each fate says about the attempts made. */
  lemma FateExplained(max: nat, s: State, id: Id)
    requires Reachable(max, s) && id < |s.hist|
    ensures HasFate(s, id, Waiting) ==>
      AllFailed(s.hist[id].attempts) && |s.hist[id].attempts| < max
    ensures HasFate(s, id, Stranded) ==> s.hist[id].faults > 0
    ensures HasFate(s, id, Sent) ==>
      |s.hist[id].attempts| > 0 && s.hist[id].attempts[|s.hist[id].attempts| - 1].ok
    ensures HasFate(s, id, GivenUp) ==> Exhausted(max, s.hist[id])
  {
    ReachableInv(max, s);
    var h := s.hist[id];
    assert RowOk(max, s.rows, id, h);
    assert h.removals != [] ==> h.removals == [h.removals[0]];
    if HasFate(s, id, Stranded) {
      assert Claims(s);
      assert forall w :: s.Pc(w).Holding() ==> !Holds(s, w, id) ==> s.Pc(w).id != id;
    }
  }

  // ----- Failure notices -----

  /** A row has a failure notice only if it is a post and all `max` attempts failed; it
      has at most one, addressed to the poster, and a notice never has a notice. A
      given-up post has exactly one, unless a write about it failed. */
  lemma NoticesAreExact(max: nat, s: State, id: Id)
    requires Reachable(max, s) && id < |s.hist|
    ensures |s.hist[id].notices| <= 1
    ensures s.hist[id].notices != [] ==>
      && s.hist[id].Post() && Exhausted(max, s.hist[id])
      && var n := s.hist[id].notices[0];
         n < |s.hist| && Announces(s.hist[n].q, s.hist[id].q) && s.hist[n].notices == []
    ensures HasFate(s, id, GivenUp) && s.hist[id].Post() && s.hist[id].faults == 0 ==>
      |s.hist[id].notices| == 1
  {
    ReachableInv(max, s);
    var h := s.hist[id];
    assert RowOk(max, s.rows, id, h);
    assert Link(s.hist, id);
    assert h.removals != [] ==> h.removals == [h.removals[0]];
    if h.notices != [] {
      var n := h.notices[0];
      assert n in h.notices;
      assert Link(s.hist, n);
      assert RowOk(max, s.rows, n, s.hist[n]);
    }
  }

  /** Two rows never share a notice. */
  lemma NoticesAreDistinct(max: nat, s: State, a: Id, b: Id)
    requires Reachable(max, s) && a < |s.hist| && b < |s.hist|
    requires s.hist[a].notices != [] && s.hist[a].notices == s.hist[b].notices
    ensures a == b
  {
    ReachableInv(max, s);
    assert Link(s.hist, a) && Link(s.hist, b);
    assert s.hist[a].notices[0] in s.hist[a].notices && s.hist[b].notices[0] in s.hist[b].notices;
  }

  // ----- Backoff -----

  /** The time that must lie between the first of `k` attempts and the last. */
  function BackoffSum(k: nat): Time {
    if k <= 1 then 0 else BackoffSum(k - 1) + BackoffDuration(k - 2)
  }

  lemma {:induction false} SpacedAdds(attempts: seq<Attempt>, k: nat)
    requires Spaced(attempts) && 1 <= k <= |attempts|
    ensures attempts[k - 1].batch - attempts[0].batch >= BackoffSum(k)
  {
    if k > 1 {
      SpacedAdds(attempts, k - 1);
      assert attempts[k - 2 + 1].batch >= attempts[k - 2].batch + BackoffDuration(k - 2);
    }
  }

  /** The batches of consecutive attempts are at least 1, 5, 15 and 60 minutes and then a
      day apart, whichever workers made them and however their clocks run. */
  lemma AttemptsAreSpaced(max: nat, s: State, id: Id, k: nat)
    requires Reachable(max, s) && id < |s.hist| && k + 1 < |s.hist[id].attempts|
    ensures s.hist[id].attempts[k + 1].batch - s.hist[id].attempts[k].batch >=
      [60, 300, 900, 3600, 86400][if k < 4 then k else 4]
  {
    ReachableInv(max, s);
    assert RowOk(max, s.rows, id, s.hist[id]);
  }

  /** With the default cap nothing is given up within 73h21m of its first attempt. */
  lemma NoEarlyGiveUp(s: State, id: Id)
    requires Reachable(DEFAULT_MAX_RETRIES, s) && id < |s.hist| && HasFate(s, id, GivenUp)
    ensures var a := s.hist[id].attempts;
            |a| == DEFAULT_MAX_RETRIES && a[|a| - 1].batch - a[0].batch >= 73 * HOUR + 21 * MINUTE
  {
    ReachableInv(DEFAULT_MAX_RETRIES, s);
    FateExplained(DEFAULT_MAX_RETRIES, s, id);
    assert RowOk(s.max, s.rows, id, s.hist[id]);
    SpacedAdds(s.hist[id].attempts, 8);
    assert BackoffSum(4) == 21 * MINUTE;
    assert BackoffSum(8) == 21 * MINUTE + HOUR + 3 * DAY;
  }

  // ----- The bound on Sends -----

  function TotalSends(hist: seq<History>): nat {
    if hist == [] then 0 else TotalSends(hist[..|hist| - 1]) + |hist[|hist| - 1].attempts|
  }

  function Ids(n: nat): (ids: set<Id>)
    ensures |ids| == n && forall id: Id :: id in ids <==> id < n
  {
    if n == 0 then {} else Ids(n - 1) + {n - 1}
  }

  ghost function CallerPosts(s: State): set<Id> {
    set id | id in Ids(|s.hist|) && s.hist[id].parent.None? && s.hist[id].Post()
  }

  ghost function CallerNotices(s: State): set<Id> {
    set id | id in Ids(|s.hist|) && s.hist[id].parent.None? && !s.hist[id].Post()
  }

  ghost function FailureNotices(s: State): set<Id> {
    set id | id in Ids(|s.hist|) && s.hist[id].parent.Some?
  }

  lemma {:induction false} SendsCapped(max: nat, hist: seq<History>)
    requires forall id :: 0 <= id < |hist| ==> |hist[id].attempts| <= max
    ensures TotalSends(hist) <= max * |hist|
  {
    if hist != [] {
      SendsCapped(max, hist[..|hist| - 1]);
      assert max * |hist| == max * (|hist| - 1) + max;
    }
  }

  lemma {:induction false} NoMoreThan(a: set<Id>, b: set<Id>, image: map<Id, Id>)
    requires forall x :: x in a ==> x in image && image[x] in b
    requires forall x, y :: x in a && y in a && image[x] == image[y] ==> x == y
    ensures |a| <= |b|
    decreases a
  {
    if a != {} {
      var x :| x in a;
      NoMoreThan(a - {x}, b - {image[x]}, image);
    }
  }

  lemma ParentOfNotice(s: State, n: Id) returns (p: Id)
    requires Inv(s) && n < |s.hist| && s.hist[n].parent.Some?
    ensures p == s.hist[n].parent.value && p in CallerPosts(s) && s.hist[p].notices == [n]
  {
    assert Link(s.hist, n);
    p := s.hist[n].parent.value;
    assert RowOk(s.max, s.rows, p, s.hist[p]);
    assert s.hist[p].notices == [s.hist[p].notices[0]];
  }

  /** Every failure notice belongs to its own post. */
  lemma OneNoticeAPost(s: State)
    requires Inv(s)
    ensures |FailureNotices(s)| <= |CallerPosts(s)|
  {
    var parents := map id | id in FailureNotices(s) :: s.hist[id].parent.value;
    forall n | n in FailureNotices(s)
      ensures parents[n] in CallerPosts(s) && s.hist[parents[n]].notices == [n]
    {
      var p := ParentOfNotice(s, n);
    }
    hide Inv;
    NoMoreThan(FailureNotices(s), CallerPosts(s), parents);
  }

  /** In every run Send is called at most `max` times for each notice a caller enqueued
      and at most 2 * `max` times for each post: its own attempts and its notice's. */
  lemma SendsAreBounded(max: nat, s: State)
    requires Reachable(max, s)
    ensures TotalSends(s.hist) <= max * (2 * |CallerPosts(s)| + |CallerNotices(s)|)
  {
    ReachableInv(max, s);
    forall id | 0 <= id < |s.hist| ensures |s.hist[id].attempts| <= max {
      AttemptsAreCapped(max, s, id);
    }
    hide Inv, CallerPosts, CallerNotices, FailureNotices;
    SendsCapped(max, s.hist);
    OneNoticeAPost(s);
    RowsCounted(s);
    MulMonotone(max, |s.hist|, 2 * |CallerPosts(s)| + |CallerNotices(s)|);
  }

  lemma RowsCounted(s: State)
    ensures |s.hist| == |CallerPosts(s)| + |CallerNotices(s)| + |FailureNotices(s)|
  {
    assert Ids(|s.hist|) == CallerPosts(s) + CallerNotices(s) + FailureNotices(s);
  }

  lemma MulMonotone(a: nat, b: nat, c: nat)
    requires b <= c
    ensures a * b <= a * c
  {
    assert a * c - a * b == a * (c - b);
  }

  // ----- What a discard stops -----

  /** Some continuation of the run calls Send for the row (once more). */
  ghost predicate MayBeAttempted(s: State, id: Id)
    requires id < |s.hist|
  {
    exists steps, s' :: Reaches(s, steps, s') && id < |s'.hist| && |s'.hist[id].attempts| > |s.hist[id].attempts|
  }

  /** Some continuation of the run enqueues a failure notice for the row. */
  ghost predicate MayBeAnnounced(s: State, id: Id)
    requires id < |s.hist|
  {
    exists steps, s' :: Reaches(s, steps, s') && id < |s'.hist| && |s'.hist[id].notices| > |s.hist[id].notices|
  }

  /** A worker is about to call Send for the row. */
  ghost predicate IsSending(s: State, w: Worker, id: Id) { s.Pc(w).Sending? && s.Pc(w).id == id }

  /** A worker holds a post whose failure, past or coming, is its last. */
  ghost predicate IsOnLastAttempt(s: State, w: Worker, id: Id) {
    var pc := s.Pc(w);
    (pc.Sending? || pc.Failed?) && pc.id == id && pc.q.retries + 1 >= s.max && pc.q.IsPost()
  }

  ghost predicate Gone(s: State, id: Id) { id < |s.hist| && id !in s.rows }

  /** No step brings the row back, or makes a worker start on it. */
  lemma StepLeavesHolders(s: State, step: Step, id: Id)
    requires Gone(s, id) && Enabled(s, step)
    ensures var s' := Apply(s, step);
      && Gone(s', id)
      && (forall w :: IsSending(s', w, id) ==> IsSending(s, w, id))
      && (forall w :: IsOnLastAttempt(s', w, id) ==> IsOnLastAttempt(s, w, id))
  {
  }

  lemma StepLeavesGone(s: State, step: Step, id: Id)
    requires Gone(s, id) && Enabled(s, step)
    ensures var s' := Apply(s, step);
      && id < |s'.hist|
      && ((forall w :: !IsSending(s, w, id)) ==> s'.hist[id].attempts == s.hist[id].attempts)
      && ((forall w :: !IsOnLastAttempt(s, w, id)) ==> s'.hist[id].notices == s.hist[id].notices)
  {
    if step.Send? {
      assert s.Pc(step.w).id == id ==> IsSending(s, step.w, id);
    } else if step.Notify? {
      assert s.Pc(step.w).id == id ==> IsOnLastAttempt(s, step.w, id);
    }
  }

  lemma {:induction false} RunLeavesGone(s: State, steps: seq<Step>, s': State, id: Id)
    requires Gone(s, id) && Reaches(s, steps, s')
    ensures Gone(s', id)
    ensures (forall w :: !IsSending(s, w, id)) ==> s'.hist[id].attempts == s.hist[id].attempts
    ensures (forall w :: !IsOnLastAttempt(s, w, id)) ==> s'.hist[id].notices == s.hist[id].notices
    decreases |steps|
  {
    hide Apply, Enabled, IsSending, IsOnLastAttempt;
    if steps != [] {
      StepLeavesHolders(s, steps[0], id);
      StepLeavesGone(s, steps[0], id);
      RunLeavesGone(Apply(s, steps[0]), steps[1..], s', id);
    }
  }

  lemma OneStep(s: State, step: Step)
    requires Enabled(s, step)
    ensures Reaches(s, [step], Apply(s, step))
  {
    assert Reaches(s, [], s);
    ReachesOneMore(s, [], s, step);
    assert [] + [step] == [step];
  }

  lemma SendingIsAttempted(s: State, w: Worker, id: Id)
    requires id < |s.hist| && IsSending(s, w, id)
    ensures MayBeAttempted(s, id)
  {
    OneStep(s, Send(w, false));
    var s' := Apply(s, Send(w, false));
    assert Reaches(s, [Send(w, false)], s') && |s'.hist[id].attempts| > |s.hist[id].attempts|;
  }

  /** A failure on the last attempt, and the notice is written. */
  lemma LastAttemptIsAnnounced(s: State, w: Worker, id: Id)
    requires id < |s.hist| && IsOnLastAttempt(s, w, id)
    ensures MayBeAnnounced(s, id)
  {
    var steps := if s.Pc(w).Sending? then [Send(w, false)] else [];
    var mid := if s.Pc(w).Sending? then Apply(s, Send(w, false)) else s;
    assert Reaches(s, steps, mid) by {
      if s.Pc(w).Sending? {
        OneStep(s, Send(w, false));
      }
    }
    var notify := Notify(w, "", 0, true);
    ReachesOneMore(s, steps, mid, notify);
    var s' := Apply(mid, notify);
    assert mid.hist[id].notices == s.hist[id].notices;
    assert Reaches(s, steps + [notify], s') && |s'.hist[id].notices| > |s.hist[id].notices|;
  }

  /** What an operator's discard achieves, in every state: the row is attempted after it
      in some continuation if and only if a worker was about to send it, and announced to
      its poster in one if and only if a worker held it on its last attempt. */
  lemma DiscardStopsExactly(s: State, id: Id)
    requires id < |s.hist|
    ensures var s' := Apply(s, Discard(id));
      && id < |s'.hist| && (id in s.rows ==> HasFate(s', id, Discarded))
      && (MayBeAttempted(s', id) <==> exists w :: IsSending(s, w, id))
      && (MayBeAnnounced(s', id) <==> exists w :: IsOnLastAttempt(s, w, id))
  {
    var s' := Apply(s, Discard(id));
    assert forall w :: s'.Pc(w) == s.Pc(w);
    assert Gone(s', id);
    assert id in s.rows ==> s'.hist[id].removals == s.hist[id].removals + [ByOperator];
    assert forall w :: IsSending(s', w, id) <==> IsSending(s, w, id);
    assert forall w :: IsOnLastAttempt(s', w, id) <==> IsOnLastAttempt(s, w, id);
    hide Apply, IsSending, IsOnLastAttempt;
    if w :| IsSending(s, w, id) {
      SendingIsAttempted(s', w, id);
    }
    if w :| IsOnLastAttempt(s, w, id) {
      LastAttemptIsAnnounced(s', w, id);
    }
    forall steps, s'' | Reaches(s', steps, s'') && id < |s''.hist|
      ensures (forall w :: !IsSending(s', w, id)) ==> s''.hist[id].attempts == s'.hist[id].attempts
      ensures (forall w :: !IsOnLastAttempt(s', w, id)) ==> s''.hist[id].notices == s'.hist[id].notices
    {
      RunLeavesGone(s', steps, s'', id);
    }
  }

  // ----- A run in which a discard comes too late -----

  lemma Then(max: nat, s: State, step: Step, s': State)
    requires Reachable(max, s) && Enabled(s, step) && Apply(s, step) == s'
    ensures Reachable(max, s')
  {
    ReachableOneMore(max, s, step);
  }

  /** Worker 0 has claimed row 0. */
  lemma ClaimedPost(q: QueuedMessage) returns (s: State)
    requires Fresh(q)
    ensures Reachable(1, s)
    ensures s == State(1, map[0 := q.(claimedAt := Some(q.nextAttempt))], map[0 := Sending(q.nextAttempt, 0, q)],
                       [NewHistory(q, None)])
  {
    var t, h := q.nextAttempt, NewHistory(q, None);
    assert Reaches(Init(1), [], Init(1));
    Then(1, Init(1), Enqueue(q), State(1, map[0 := q], map[], [h]));
    Then(1, State(1, map[0 := q], map[], [h]), Begin(0, t), State(1, map[0 := q], map[0 := Polling(t)], [h]));
    s := State(1, map[0 := q.(claimedAt := Some(t))], map[0 := Sending(t, 0, q)], [h]);
    Then(1, State(1, map[0 := q], map[0 := Polling(t)], [h]), Claim(0, 0), s);
  }

  /** It holds it when the operator discards it. */
  lemma DiscardedWhileHeld(q: QueuedMessage) returns (s: State)
    requires Fresh(q)
    ensures Reachable(1, s)
    ensures s == State(1, map[], map[0 := Sending(q.nextAttempt, 0, q)], [History(q, None, [], [ByOperator], [], 0)])
  {
    hide Reachable;
    var s3 := ClaimedPost(q);
    s := Apply(s3, Discard(0));
    Then(1, s3, Discard(0), s);
    assert s3.rows - {0} == map[];
    assert s.hist[0].removals == [ByOperator];
  }

  /** Discarding a row that a worker holds stops neither its delivery nor its failure
      notice: a run ends with the row discarded, attempted and announced to its poster. */
  lemma DiscardDoesNotRecall(q: QueuedMessage) returns (s: State)
    requires Fresh(q) && q.IsPost()
    ensures Reachable(1, s) && |s.hist| == 2
    ensures HasFate(s, 0, Discarded) && |s.hist[0].attempts| == 1 && s.hist[0].notices == [1]
  {
    var s4 := DiscardedWhileHeld(q);
    var s5 := Apply(s4, Send(0, false));
    Then(1, s4, Send(0, false), s5);
    s := Apply(s5, Notify(0, "", 0, true));
    Then(1, s5, Notify(0, "", 0, true), s);
  }
}
