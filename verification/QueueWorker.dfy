/** The queue worker's batch loop: a run of the protocol, and one that ends. */
module QueueWorker {
  import opened Wrappers
  import opened Model
  import opened QueueTable
  import opened SqliteStore
  import P = QueueProtocol

  // ----- The termination measure -----

  ghost function EligibleIds(rows: Queue, now: Time, post: bool): set<Id> {
    set id | id in rows && Eligible(rows[id], now) && rows[id].IsPost() == post
  }

  /** How many Sends the eligible rows can cost in one batch: a post may fail and leave
      a notice, a notice leaves nothing. */
  ghost function Weight(rows: Queue, now: Time): nat {
    2 * |EligibleIds(rows, now, true)| + |EligibleIds(rows, now, false)|
  }

  function RowWeight(q: QueuedMessage): nat { if q.IsPost() then 2 else 1 }

  lemma WeightClaimed(rows: Queue, now: Time, id: Id)
    requires id in rows && Eligible(rows[id], now)
    ensures Weight(Claim(rows, id, now), now) == Weight(rows, now) - RowWeight(rows[id])
  {
    var rows' := Claim(rows, id, now);
    var post := rows[id].IsPost();
    assert EligibleIds(rows', now, post) == EligibleIds(rows, now, post) - {id};
    assert EligibleIds(rows', now, !post) == EligibleIds(rows, now, !post);
  }

  /** A row that is eligible neither before nor after does not count. */
  lemma WeightUnmoved(rows: Queue, rows': Queue, now: Time, id: Id)
    requires forall j :: j != id ==> (j in rows <==> j in rows') && (j in rows ==> rows[j] == rows'[j])
    requires id in rows ==> !Eligible(rows[id], now)
    requires id in rows' ==> !Eligible(rows'[id], now)
    ensures Weight(rows', now) == Weight(rows, now)
  {
    assert EligibleIds(rows', now, true) == EligibleIds(rows, now, true);
    assert EligibleIds(rows', now, false) == EligibleIds(rows, now, false);
  }

  lemma WeightAdded(rows: Queue, now: Time, id: Id, q: QueuedMessage)
    requires id !in rows && !q.IsPost()
    ensures Weight(rows[id := q], now) <= Weight(rows, now) + 1
  {
    var rows' := rows[id := q];
    assert EligibleIds(rows', now, true) == EligibleIds(rows, now, true);
    assert EligibleIds(rows', now, false) <= EligibleIds(rows, now, false) + {id};
    assert |EligibleIds(rows', now, false)| <= |EligibleIds(rows, now, false) + {id}| by {
      SubsetSize(EligibleIds(rows', now, false), EligibleIds(rows, now, false) + {id});
    }
  }

  // ----- Traces -----

  /** One call of Send and how it went. */
  datatype Sent = Sent(from: string, to: string, body: string, ok: bool)

  /** The Send a step stands for, if it is one: of the row the worker holds. */
  ghost function SendOf(s: P.State, step: P.Step): seq<Sent>
    requires P.Enabled(s, step)
  {
    if !step.Send? then []
    else
      var q := s.Pc(step.w).q;
      [Sent(q.envelopeSender, q.to, q.body, step.ok)]
  }

  /** The Sends of a run, in order. */
  ghost function SentBy(s: P.State, steps: seq<P.Step>): seq<Sent>
    decreases |steps|
  {
    if steps == [] || !P.Enabled(s, steps[0]) then []
    else SendOf(s, steps[0]) + SentBy(P.Apply(s, steps[0]), steps[1..])
  }

  predicate IsUnwritten(step: P.Step) {
    (step.Requeue? || step.Notify? || step.Remove?) && !step.written
  }

  /** How many writes of a run failed. */
  function Unwritten(steps: seq<P.Step>): nat {
    if steps == [] then 0 else (if IsUnwritten(steps[0]) then 1 else 0) + Unwritten(steps[1..])
  }

  /** A step of worker `w` in its batch at `now`. */
  predicate IsOwn(step: P.Step, w: P.Worker, now: Time) {
    match step
    case Enqueue(_) => false
    case Discard(_) => false
    case Begin(v, t) => v == w && t == now
    case _ => step.w == w
  }

  /** `steps` lead from `s` to `s'`, all of them taken by worker `w` in its batch at `now`. */
  ghost predicate Ran(s: P.State, steps: seq<P.Step>, s': P.State, w: P.Worker, now: Time) {
    P.Reaches(s, steps, s') && forall step :: step in steps ==> IsOwn(step, w, now)
  }

  lemma RanNothing(s: P.State, w: P.Worker, now: Time)
    ensures Ran(s, [], s, w, now) && SentBy(s, []) == [] && Unwritten([]) == 0
  {
  }

  lemma {:induction false} RunsConcat(s: P.State, a: seq<P.Step>, mid: P.State, b: seq<P.Step>, s': P.State)
    requires P.Reaches(s, a, mid) && P.Reaches(mid, b, s')
    ensures P.Reaches(s, a + b, s')
    ensures SentBy(s, a + b) == SentBy(s, a) + SentBy(mid, b)
    ensures Unwritten(a + b) == Unwritten(a) + Unwritten(b)
    decreases |a|
  {
    hide P.Apply, P.Enabled, SendOf, IsUnwritten;
    if a == [] {
      assert a + b == b;
    } else {
      assert (a + b)[0] == a[0] && (a + b)[1..] == a[1..] + b;
      RunsConcat(P.Apply(s, a[0]), a[1..], mid, b, s');
    }
  }

  lemma RanTwice(s: P.State, a: seq<P.Step>, mid: P.State, b: seq<P.Step>, s': P.State, w: P.Worker, now: Time)
    requires Ran(s, a, mid, w, now) && Ran(mid, b, s', w, now)
    ensures Ran(s, a + b, s', w, now)
    ensures SentBy(s, a + b) == SentBy(s, a) + SentBy(mid, b)
    ensures Unwritten(a + b) == Unwritten(a) + Unwritten(b)
  {
    hide P.Reaches, SentBy, Unwritten, IsOwn;
    RunsConcat(s, a, mid, b, s');
  }

  lemma RanOne(s: P.State, step: P.Step, w: P.Worker, now: Time)
    requires P.Enabled(s, step) && IsOwn(step, w, now)
    ensures Ran(s, [step], P.Apply(s, step), w, now)
    ensures SentBy(s, [step]) == SendOf(s, step) && Unwritten([step]) == if IsUnwritten(step) then 1 else 0
  {
    hide P.Apply, P.Enabled, SendOf, IsUnwritten, IsOwn;
    var steps, s' := [step], P.Apply(s, step);
    assert steps[0] == step && steps[1..] == [];
    assert P.Reaches(s', [], s');
    assert SentBy(s', []) == [] && Unwritten([]) == 0;
  }

  /** What a step of worker `w` does to the rows and to `w`. */
  ghost predicate StepEffect(s: P.State, w: P.Worker, step: P.Step, s': P.State)
    requires P.Enabled(s, step)
  {
    var pc := s.Pc(w);
    var added := |s'.hist| - |s.hist|;
    match step
    case Begin(_, now) => s'.rows == s.rows && added == 0 && s'.Pc(w) == P.Polling(now)
    case End(_) => s'.rows == s.rows && added == 0 && s'.Pc(w) == P.Idle
    case Claim(v, id) =>
      v == w ==>
        && s'.rows == Claim(s.rows, id, pc.now) && added == 0
        && s'.Pc(w) == P.Sending(pc.now, id, s.rows[id])
    case Send(v, ok) =>
      v == w ==>
        && s'.rows == s.rows && added == 0
        && s'.Pc(w) == if ok then P.Delivered(pc.now, pc.id, pc.q) else P.Failed(pc.now, pc.id, pc.q)
    case Requeue(v, written) =>
      v == w ==>
        && s'.rows == (if written then Requeue(s.rows, pc.id, pc.now + BackoffDuration(pc.q.retries)) else s.rows)
        && added == 0 && s'.Pc(w) == P.Polling(pc.now)
    case Notify(v, body, clock, written) =>
      v == w ==>
        && s'.rows == (if written then s.rows[|s.hist| := NoticeFor(pc.q, body, clock)] else s.rows)
        && added == (if written then 1 else 0) && s'.Pc(w) == P.GivingUp(pc.now, pc.id, pc.q)
    case Remove(v, written) =>
      v == w ==>
        && s'.rows == (if written then Remove(s.rows, pc.id) else s.rows)
        && added == 0 && s'.Pc(w) == P.Polling(pc.now)
    case _ => true
  }

  lemma Effect(s: P.State, w: P.Worker, step: P.Step)
    requires P.Enabled(s, step)
    requires (step.Begin? || step.End?) ==> step.w == w
    ensures StepEffect(s, w, step, P.Apply(s, step)) && P.Apply(s, step).max == s.max
  {
    if step.Remove? && step.w == w && step.written && s.Pc(w).id !in s.rows {
      assert Remove(s.rows, s.Pc(w).id) == s.rows;
    }
  }

  /** One more step of worker `w` at the end of a run. */
  lemma Advance(s: P.State, steps: seq<P.Step>, mid: P.State, w: P.Worker, now: Time, step: P.Step)
    returns (steps': seq<P.Step>, s': P.State)
    requires Ran(s, steps, mid, w, now) && P.Inv(mid)
    requires P.Enabled(mid, step) && IsOwn(step, w, now)
    ensures Ran(s, steps', s', w, now) && P.Inv(s') && s'.max == mid.max && StepEffect(mid, w, step, s')
    ensures SentBy(s, steps') == SentBy(s, steps) + SendOf(mid, step)
    ensures Unwritten(steps') == Unwritten(steps) + if IsUnwritten(step) then 1 else 0
  {
    hide P.Inv, Ran, P.Apply, StepEffect, SentBy, Unwritten;
    s' := P.Apply(mid, step);
    P.StepKeepsInv(mid, step);
    Effect(mid, w, step);
    RanOne(mid, step, w, now);
    RanTwice(s, steps, mid, [step], s', w, now);
    steps' := steps + [step];
  }

  lemma HeldRow(s: P.State, w: P.Worker)
    requires P.Inv(s)
    ensures |s.hist| !in s.rows
    ensures s.Pc(w).Holding() ==>
      s.Pc(w).id < |s.hist| && (s.Pc(w).id in s.rows ==> s.rows[s.Pc(w).id].claimedAt.Some?)
  {
  }

  /** Row `rowId` is gone and, if it was a post, its poster has a notice under id `next`. */
  predicate GaveUp(q: QueuedMessage, rowId: Id, clock: Time, before: Queue, next: Id, after: Queue) {
    if q.originalSender == "" then after == before - {rowId}
    else
      && next in after
      && after == before[next :=
           QueuedMessage(q.listId, q.from, q.originalSender, after[next].body, q.from, "", 0, clock, None)] - {rowId}
  }

  /** Row `rowId`, if it is still there, waits for its next attempt: a minute after the
      first failure, then 5 and 15 minutes, an hour, and a day after every later one. */
  predicate Requeued(q: QueuedMessage, rowId: Id, now: Time, before: Queue, after: Queue) {
    if rowId !in before then after == before
    else after == before[rowId := before[rowId].(
                           claimedAt := None, retries := before[rowId].retries + 1,
                           nextAttempt := now + [60, 300, 900, 3600, 86400][if q.retries < 4 then q.retries else 4])]
  }

  // ----- The worker -----

  class Worker {
    const store: Store
    const id: P.Worker
    const configuredRetries: int
    const hasClient: bool
    /** The Sends made, in order. */
    ghost var sent: seq<Sent>

    constructor (store: Store, id: P.Worker, configuredRetries: int, hasClient: bool)
      ensures this.store == store && this.id == id && sent == []
      ensures this.configuredRetries == configuredRetries && this.hasClient == hasClient
    {
      this.store, this.id, sent := store, id, [];
      this.configuredRetries, this.hasClient := configuredRetries, hasClient;
    }

    /** The store holds the rows of the protocol state `s`, in which this worker's
        attempt cap applies. */
    ghost predicate Mirrors(s: P.State)
      reads store
    {
      && P.Inv(s) && s.max == MaxRetries(configuredRetries)
      && s.rows == store.queue && |s.hist| == store.nextQueueId
    }

    /** SMTP: accepted or not, as the MTA pleases. */
    method SendQueued(q: QueuedMessage) returns (ok: bool)
      modifies this`sent
      ensures ok ==> hasClient
      ensures sent == old(sent) + [Sent(q.envelopeSender, q.to, q.body, ok)]
    {
      ok := false;
      if hasClient {
        ok := *;
      }
      sent := sent + [Sent(q.envelopeSender, q.to, q.body, ok)];
    }

    /** Drops a row that exhausted its attempts, after telling the poster if it has one. */
    method GiveUp(now: Time, rowId: Id, q: QueuedMessage, clock: Time, ghost s: P.State)
      returns (ghost steps: seq<P.Step>, ghost s': P.State)
      requires Mirrors(s) && s.Pc(id) == P.Failed(now, rowId, q) && q.retries + 1 >= s.max
      modifies store`queue, store`nextQueueId, store`faults, store`calls
      ensures Mirrors(s') && s'.Pc(id) == P.Polling(now)
      ensures Ran(s, steps, s', id, now) && SentBy(s, steps) == []
      ensures store.faults == old(store.faults) + Unwritten(steps)
      ensures Weight(store.queue, now) <= Weight(old(store.queue), now) + (if q.IsPost() then 1 else 0)
      ensures store.faults == old(store.faults) ==>
        GaveUp(q, rowId, clock, old(store.queue), old(store.nextQueueId), store.queue)
    {
      hide P.Inv, Ran, P.Apply, Weight, SentBy, Unwritten;
      HeldRow(s, id);
      RanNothing(s, id, now);
      steps, s' := [], s;
      if q.originalSender != "" {
        var body := "Your message to " + q.from + " could not be delivered to " + q.to;
        var enqueued := store.Enqueue(q.listId, q.from, q.originalSender, body, q.from, "", clock);
        if enqueued {
          WeightAdded(s.rows, now, |s.hist|, NoticeFor(q, body, clock));
        }
        steps, s' := Advance(s, steps, s', id, now, P.Notify(id, body, clock, enqueued));
      }
      HeldRow(s', id);
      ghost var before := store.queue;
      var removed := store.MarkQueuedSent(rowId);
      WeightUnmoved(before, store.queue, now, rowId);
      steps, s' := Advance(s, steps, s', id, now, P.Remove(id, removed));
    }

    /** A failed row is given up after its last attempt, and requeued with backoff before. */
    method Retry(now: Time, rowId: Id, q: QueuedMessage, clock: Time, ghost s: P.State)
      returns (ghost steps: seq<P.Step>, ghost s': P.State)
      requires Mirrors(s) && s.Pc(id) == P.Failed(now, rowId, q)
      modifies store`queue, store`nextQueueId, store`faults, store`calls
      ensures Mirrors(s') && s'.Pc(id) == P.Polling(now)
      ensures Ran(s, steps, s', id, now) && SentBy(s, steps) == []
      ensures store.faults == old(store.faults) + Unwritten(steps)
      ensures Weight(store.queue, now) <= Weight(old(store.queue), now) + (if q.IsPost() then 1 else 0)
      ensures store.faults == old(store.faults) ==>
        if q.retries + 1 < (if configuredRetries > 0 then configuredRetries else 8)
        then Requeued(q, rowId, now, old(store.queue), store.queue)
        else GaveUp(q, rowId, clock, old(store.queue), old(store.nextQueueId), store.queue)
    {
      hide P.Inv, Ran, P.Apply, Weight, SentBy, Unwritten, GaveUp;
      if q.retries + 1 >= MaxRetries(configuredRetries) {
        steps, s' := GiveUp(now, rowId, q, clock, s);
        return;
      }
      HeldRow(s, id);
      RanNothing(s, id, now);
      var requeued := store.RequeueWithBackoff(rowId, now + BackoffDuration(q.retries));
      steps, s' := Advance(s, [], s, id, now, P.Requeue(id, requeued));
      WeightUnmoved(s.rows, store.queue, now, rowId);
    }

    /** Sends a claimed row once and settles it: removed, requeued with backoff, or given
        up. */
    method Settle(now: Time, rowId: Id, q: QueuedMessage, clock: Time, ghost s: P.State)
      returns (ghost steps: seq<P.Step>, ghost s': P.State)
      requires Mirrors(s) && s.Pc(id) == P.Sending(now, rowId, q)
      modifies store`queue, store`nextQueueId, store`faults, store`calls, this`sent
      ensures Mirrors(s') && s'.Pc(id) == P.Polling(now)
      ensures Ran(s, steps, s', id, now)
      ensures sent == old(sent) + SentBy(s, steps) && |SentBy(s, steps)| == 1
      ensures store.faults == old(store.faults) + Unwritten(steps)
      ensures Weight(store.queue, now) <= Weight(old(store.queue), now) + (if q.IsPost() then 1 else 0)
      ensures var last := sent[|old(sent)|];
        last.from == q.envelopeSender && last.to == q.to && last.body == q.body && (last.ok ==> hasClient)
      ensures store.faults == old(store.faults) ==>
        if sent[|old(sent)|].ok then store.queue == old(store.queue) - {rowId}
        else if q.retries + 1 < (if configuredRetries > 0 then configuredRetries else 8)
        then Requeued(q, rowId, now, old(store.queue), store.queue)
        else GaveUp(q, rowId, clock, old(store.queue), old(store.nextQueueId), store.queue)
    {
      hide P.Inv, Ran, P.Apply, Weight, SentBy, Unwritten, GaveUp, Requeued;
      HeldRow(s, id);
      RanNothing(s, id, now);
      var ok := SendQueued(q);
      steps, s' := Advance(s, [], s, id, now, P.Send(id, ok));
      if !ok {
        ghost var more, s'' := Retry(now, rowId, q, clock, s');
        RanTwice(s, steps, s', more, s'', id, now);
        steps, s' := steps + more, s'';
        return;
      }
      var removed := store.MarkQueuedSent(rowId);
      steps, s' := Advance(s, steps, s', id, now, P.Remove(id, removed));
      WeightUnmoved(s.rows, store.queue, now, rowId);
    }

    /** Handles every eligible row. The batch is a run of the protocol, every step of which
        is this worker's, so every guarantee about runs covers it: its Sends are those of
        the Send steps, and its failed writes the unwritten ones. It ends although failures
        add notices that may be eligible at once: the eligible rows bound its Sends. When
        it ends no row is eligible, unless the store failed to claim one. */
    method ProcessBatch(now: Time, ghost s: P.State)
      returns (ghost steps: seq<P.Step>, ghost s': P.State)
      requires Mirrors(s) && s.Pc(id).Idle?
      modifies store`queue, store`nextQueueId, store`faults, store`calls, this`sent
      ensures Mirrors(s') && s'.Pc(id).Idle?
      ensures Ran(s, steps, s', id, now) && sent == old(sent) + SentBy(s, steps)
      ensures |SentBy(s, steps)| <= Weight(old(store.queue), now)
      ensures Unwritten(steps) <= store.faults - old(store.faults) <= Unwritten(steps) + 1
      ensures store.faults - old(store.faults) == Unwritten(steps) ==>
        forall rowId :: rowId in store.queue ==>
          store.queue[rowId].claimedAt.Some? || store.queue[rowId].nextAttempt > now
    {
      hide P.Inv, Ran, P.Apply, Weight, SentBy, Unwritten;
      RanNothing(s, id, now);
      steps, s' := Advance(s, [], s, id, now, P.Begin(id, now));
      while true
        invariant Mirrors(s') && s'.Pc(id) == P.Polling(now)
        invariant Ran(s, steps, s', id, now) && sent == old(sent) + SentBy(s, steps)
        invariant |SentBy(s, steps)| + Weight(store.queue, now) <= Weight(old(store.queue), now)
        invariant store.faults == old(store.faults) + Unwritten(steps)
        decreases Weight(store.queue, now)
      {
        ghost var before := store.queue;
        var ok, claimed := store.ClaimNextQueued(now);
        if claimed.None? {
          steps, s' := Advance(s, steps, s', id, now, P.End(id));
          return;
        }
        var (rowId, q) := claimed.value;
        WeightClaimed(before, now, rowId);
        steps, s' := Advance(s, steps, s', id, now, P.Claim(id, rowId));
        var clock: Time := *;
        ghost var more, s'' := Settle(now, rowId, q, clock, s');
        RanTwice(s, steps, s', more, s'', id, now);
        steps, s' := steps + more, s'';
      }
    }
  }
}
