/**
  The outbound queue as a protocol. Any number of workers run their batches at the same
  time, one store call or one Send per step, beside callers that enqueue and operators
  that discard. Worker clocks are arbitrary, and every write may fail.
 */
module QueueProtocol {
  import opened Wrappers
  import opened Model
  import opened QueueTable

  type Worker = nat

  /** Where a worker stands in its batch, with the copy of the row it claimed. */
  datatype Pc =
    | Idle
    | Polling(now: Time)
    | Sending(now: Time, id: Id, q: QueuedMessage)
    | Delivered(now: Time, id: Id, q: QueuedMessage)
    | Failed(now: Time, id: Id, q: QueuedMessage)
    | GivingUp(now: Time, id: Id, q: QueuedMessage)
  {
    predicate Holding() { !Idle? && !Polling? }
  }

  /** One call of Send: the worker's batch time and whether the MTA took the message. */
  datatype Attempt = Attempt(batch: Time, ok: bool)

  datatype Removal = AfterDelivery | AfterGivingUp | ByOperator

  /** What has happened to a row since it was enqueued as `q`. `parent` is the row whose
      delivery failure this row announces, `faults` the writes about it that failed. */
  datatype History = History(
    q: QueuedMessage,
    parent: Option<Id>,
    attempts: seq<Attempt>,
    removals: seq<Removal>,
    notices: seq<Id>,
    faults: nat)
  {
    predicate Post() { q.IsPost() }
  }

  /** Row ids are given out in order and never reused, so they index `hist`. */
  datatype State = State(max: nat, rows: Queue, pcs: map<Worker, Pc>, hist: seq<History>) {
    function Pc(w: Worker): Pc { if w in pcs then pcs[w] else Idle }
  }

  datatype Step =
    | Enqueue(q: QueuedMessage)
    | Discard(id: Id)
    | Begin(w: Worker, now: Time)
    | End(w: Worker)
    | Claim(w: Worker, id: Id)
    | Send(w: Worker, ok: bool)
    | Requeue(w: Worker, written: bool)
    | Notify(w: Worker, body: string, clock: Time, written: bool)
    | Remove(w: Worker, written: bool)

  ghost function Init(max: nat): State { State(max, map[], map[], []) }

  /** A fresh row: no attempts, not claimed. */
  predicate Fresh(q: QueuedMessage) { q.retries == 0 && q.claimedAt.None? }

  ghost predicate Enabled(s: State, step: Step) {
    match step
    case Enqueue(q) => Fresh(q)
    case Discard(_) => true
    case Begin(w, _) => s.Pc(w).Idle?
    case End(w) => s.Pc(w).Polling?
    case Claim(w, id) => s.Pc(w).Polling? && IsNext(s.rows, s.Pc(w).now, id)
    case Send(w, _) => s.Pc(w).Sending?
    case Requeue(w, _) => s.Pc(w).Failed? && s.Pc(w).q.retries + 1 < s.max
    case Notify(w, _, _, _) =>
      s.Pc(w).Failed? && s.Pc(w).q.retries + 1 >= s.max && s.Pc(w).q.IsPost()
    case Remove(w, _) =>
      || s.Pc(w).Delivered?
      || s.Pc(w).GivingUp?
      || (s.Pc(w).Failed? && s.Pc(w).q.retries + 1 >= s.max && !s.Pc(w).q.IsPost())
  }

  function NewHistory(q: QueuedMessage, parent: Option<Id>): History {
    History(q, parent, [], [], [], 0)
  }

  function HistoryOf(s: State, id: Id): History {
    if id < |s.hist| then s.hist[id] else NewHistory(NewRow(0, "", "", "", "", "", 0), None)
  }

  function Recorded(s: State, id: Id, h: History): State {
    if id < |s.hist| then s.(hist := s.hist[id := h]) else s
  }

  /** A new row, under the next id. */
  function Added(s: State, q: QueuedMessage, parent: Option<Id>): State {
    s.(rows := s.rows[|s.hist| := q], hist := s.hist + [NewHistory(q, parent)])
  }

  /** A delete of row `id`: it leaves a trace only if the row was still there. */
  function Deleted(s: State, id: Id, why: Removal): State {
    if id !in s.rows then s
    else
      var h := HistoryOf(s, id);
      Recorded(s.(rows := QueueTable.Remove(s.rows, id)), id, h.(removals := h.removals + [why]))
  }

  function Fault(s: State, id: Id): State {
    var h := HistoryOf(s, id);
    Recorded(s, id, h.(faults := h.faults + 1))
  }

  function Moved(s: State, w: Worker, pc: Pc): State { s.(pcs := s.pcs[w := pc]) }

  ghost function Apply(s: State, step: Step): State
    requires Enabled(s, step)
  {
    match step
    case Enqueue(q) => Added(s, q, None)
    case Discard(id) => Deleted(s, id, ByOperator)
    case Begin(w, now) => Moved(s, w, Polling(now))
    case End(w) => Moved(s, w, Idle)
    case Claim(w, id) =>
      var now := s.Pc(w).now;
      Moved(s.(rows := QueueTable.Claim(s.rows, id, now)), w, Sending(now, id, s.rows[id]))
    case Send(w, ok) =>
      var pc := s.Pc(w);
      var h := HistoryOf(s, pc.id);
      Recorded(
        Moved(s, w, if ok then Delivered(pc.now, pc.id, pc.q) else Failed(pc.now, pc.id, pc.q)),
        pc.id, h.(attempts := h.attempts + [Attempt(pc.now, ok)]))
    case Requeue(w, written) =>
      var pc := s.Pc(w);
      var s' := Moved(s, w, Polling(pc.now));
      if written
      then s'.(rows := QueueTable.Requeue(s.rows, pc.id, pc.now + BackoffDuration(pc.q.retries)))
      else Fault(s', pc.id)
    case Notify(w, body, clock, written) =>
      var pc := s.Pc(w);
      var s' := Moved(s, w, GivingUp(pc.now, pc.id, pc.q));
      var h := HistoryOf(s, pc.id);
      if written
      then Added(Recorded(s', pc.id, h.(notices := h.notices + [|s.hist|])),
                 NoticeFor(pc.q, body, clock), Some(pc.id))
      else Fault(s', pc.id)
    case Remove(w, written) =>
      var pc := s.Pc(w);
      var s' := Moved(s, w, Polling(pc.now));
      if written
      then Deleted(s', pc.id, if pc.Delivered? then AfterDelivery else AfterGivingUp)
      else Fault(s', pc.id)
  }

  /** `s'` follows from `s` by `steps`, each enabled in turn. */
  ghost predicate Reaches(s: State, steps: seq<Step>, s': State)
    decreases |steps|
  {
    if steps == [] then s == s'
    else Enabled(s, steps[0]) && Reaches(Apply(s, steps[0]), steps[1..], s')
  }

  // ----- The invariant -----

  ghost predicate AllFailed(attempts: seq<Attempt>) {
    forall i :: 0 <= i < |attempts| ==> !attempts[i].ok
  }

  ghost predicate Spaced(attempts: seq<Attempt>) {
    forall i :: 0 <= i < |attempts| - 1 ==>
      attempts[i + 1].batch >= attempts[i].batch + BackoffDuration(i)
  }

  /** No attempt may start before the backoff of the last failed one has passed. */
  function NotBefore(attempts: seq<Attempt>, t: Time): bool {
    attempts != [] ==> t >= attempts[|attempts| - 1].batch + BackoffDuration(|attempts| - 1)
  }

  /** A row that may still be attempted. */
  ghost predicate Pending(max: nat, h: History, retries: nat, notBefore: Time) {
    && retries == |h.attempts| < max && AllFailed(h.attempts)
    && NotBefore(h.attempts, notBefore) && h.notices == []
  }

  /** A row with nothing left but its removal: attempted `retries` + 1 times. */
  ghost predicate Attempted(max: nat, h: History, retries: nat, ok: bool) {
    && |h.attempts| == retries + 1 <= max
    && AllFailed(h.attempts[..retries]) && h.attempts[retries].ok == ok
  }

  ghost predicate Exhausted(max: nat, h: History) {
    |h.attempts| == max && AllFailed(h.attempts)
  }

  /** Nothing is attempted again once the MTA has taken it. */
  ghost predicate AtMostLastOk(attempts: seq<Attempt>) {
    forall i :: 0 <= i < |attempts| - 1 ==> !attempts[i].ok
  }

  /** The two rows differ at most in their delivery state. */
  predicate SameMessage(a: QueuedMessage, b: QueuedMessage) {
    a == b.(retries := a.retries, nextAttempt := a.nextAttempt, claimedAt := a.claimedAt)
  }

  /** A failure notice tells the poster, from the list, and has no poster itself. */
  predicate Announces(notice: QueuedMessage, q: QueuedMessage) {
    && notice.to == q.originalSender && notice.from == q.from && notice.envelopeSender == q.from
    && notice.listId == q.listId && !notice.IsPost()
  }

  ghost predicate RowOk(max: nat, rows: Queue, id: Id, h: History) {
    && |h.attempts| <= max && Spaced(h.attempts)
    && |h.removals| <= 1 && (id in rows <==> h.removals == [])
    && (id in rows ==> SameMessage(rows[id], h.q))
    && AtMostLastOk(h.attempts)
    && (id in rows && rows[id].claimedAt.None? ==> Pending(max, h, rows[id].retries, rows[id].nextAttempt))
    && (h.removals == [AfterDelivery] ==> |h.attempts| > 0 && h.attempts[|h.attempts| - 1].ok)
    && (h.removals == [AfterGivingUp] ==>
          Exhausted(max, h) && (h.Post() && h.faults == 0 ==> |h.notices| == 1))
    && (h.parent.Some? ==> !h.Post())
    && |h.notices| <= (if h.Post() then 1 else 0)
    && (h.notices != [] ==> Exhausted(max, h))
  }

  ghost predicate PcOk(max: nat, rows: Queue, pc: Pc, h: History)
    requires pc.Holding()
  {
    && SameMessage(pc.q, h.q)
    && (pc.id in rows ==> rows[pc.id] == pc.q.(claimedAt := Some(pc.now)))
    && match pc
       case Sending(now, _, q) => Pending(max, h, q.retries, now)
       case Delivered(_, _, q) => Attempted(max, h, q.retries, true) && h.notices == []
       case Failed(now, _, q) =>
         Attempted(max, h, q.retries, false) && h.attempts[q.retries].batch == now && h.notices == []
       case GivingUp(_, _, q) =>
         Attempted(max, h, q.retries, false) && Exhausted(max, h) && h.Post() && (h.faults == 0 ==> |h.notices| == 1)
       case _ => true
  }

  ghost predicate Link(hist: seq<History>, id: Id)
    requires id < |hist|
  {
    && (forall n :: n in hist[id].notices ==> n < |hist| && hist[n].parent == Some(id))
    && (hist[id].parent.Some? ==>
          && hist[id].parent.value < |hist| && id in hist[hist[id].parent.value].notices
          && Announces(hist[id].q, hist[hist[id].parent.value].q))
  }

  ghost predicate Links(hist: seq<History>) {
    forall id :: 0 <= id < |hist| ==> Link(hist, id)
  }

  ghost predicate Rows(max: nat, rows: Queue, hist: seq<History>) {
    && (forall id :: id in rows ==> id < |hist|)
    && (forall id :: 0 <= id < |hist| ==> RowOk(max, rows, id, hist[id]))
  }

  ghost predicate Workers(s: State) {
    forall w :: s.Pc(w).Holding() ==>
      s.Pc(w).id < |s.hist| && PcOk(s.max, s.rows, s.Pc(w), s.hist[s.Pc(w).id])
  }

  ghost predicate Exclusive(s: State) {
    forall v, w :: v != w && s.Pc(v).Holding() && s.Pc(w).Holding() ==> s.Pc(v).id != s.Pc(w).id
  }

  /** A claimed row has a holder, unless a write about it failed. */
  ghost predicate Claims(s: State) {
    forall id :: id in s.rows && s.rows[id].claimedAt.Some? ==>
      HistoryOf(s, id).faults > 0 || exists w :: s.Pc(w).Holding() && s.Pc(w).id == id
  }

  ghost predicate Core(s: State) {
    s.max >= 1 && Rows(s.max, s.rows, s.hist) && Workers(s) && Exclusive(s) && Claims(s)
  }

  ghost predicate Inv(s: State) { Core(s) && Links(s.hist) }

  // ----- Every step keeps it -----

  lemma LinksUpdated(hist: seq<History>, id: Id, h: History)
    requires Links(hist) && id < |hist|
    requires h.notices == hist[id].notices && h.parent == hist[id].parent && h.q == hist[id].q
    ensures Links(hist[id := h])
  {
    var hist' := hist[id := h];
    forall j | 0 <= j < |hist'| ensures Link(hist', j) {
      assert Link(hist, j);
    }
  }

  lemma LinksAdded(hist: seq<History>, h: History)
    requires Links(hist) && h.notices == [] && h.parent == None
    ensures Links(hist + [h])
  {
    forall j | 0 <= j < |hist| ensures Link(hist + [h], j) {
      assert Link(hist, j);
    }
  }

  /** Parent and notice come to point at each other in one step. */
  lemma LinksNotified(hist: seq<History>, id: Id, notice: History)
    requires Links(hist) && id < |hist|
    requires hist[id].notices == [] && notice.notices == [] && notice.parent == Some(id)
    requires Announces(notice.q, hist[id].q)
    ensures Links(hist[id := hist[id].(notices := hist[id].notices + [|hist|])] + [notice])
  {
    var hist' := hist[id := hist[id].(notices := hist[id].notices + [|hist|])] + [notice];
    forall j | 0 <= j < |hist'| ensures Link(hist', j) {
      if j < |hist| {
        assert Link(hist, j);
      }
    }
  }

  lemma AddKeepsCore(s: State, q: QueuedMessage, parent: Option<Id>)
    requires Core(s) && Fresh(q) && (parent.Some? ==> !q.IsPost())
    ensures Core(Added(s, q, parent))
  {
    var s' := Added(s, q, parent);
    forall w ensures s'.Pc(w) == s.Pc(w) {}
  }

  /** A step of worker `w` about row `id`, which no other worker holds, changes only
      that row, its history and `w`: what is left to check is local to them. */
  lemma LocalStep(s: State, s': State, w: Worker, id: Id)
    requires Core(s) && id < |s.hist| == |s'.hist| && s'.max == s.max
    requires forall v :: v != w ==> s'.Pc(v) == s.Pc(v)
    requires forall v :: v != w && s.Pc(v).Holding() ==> s.Pc(v).id != id
    requires s.Pc(w).Holding() ==> s.Pc(w).id == id
    requires forall j :: 0 <= j < |s.hist| && j != id ==> s'.hist[j] == s.hist[j]
    requires forall j :: j != id ==> (j in s'.rows <==> j in s.rows)
    requires forall j :: j != id && j in s.rows ==> s'.rows[j] == s.rows[j]
    requires RowOk(s.max, s'.rows, id, s'.hist[id])
    requires s'.Pc(w).Holding() ==> s'.Pc(w).id == id && PcOk(s.max, s'.rows, s'.Pc(w), s'.hist[id])
    requires id in s'.rows && s'.rows[id].claimedAt.Some? ==> s'.Pc(w).Holding() || s'.hist[id].faults > 0
    ensures Core(s')
  {
    forall j | 0 <= j < |s'.hist| ensures RowOk(s'.max, s'.rows, j, s'.hist[j]) {
      assert RowOk(s.max, s.rows, j, s.hist[j]);
    }
  }

  lemma DeleteKeepsRow(s: State, id: Id, why: Removal)
    requires Core(s) && id in s.rows
    requires why == AfterDelivery ==> Attempted(s.max, s.hist[id], s.rows[id].retries, true)
    requires why == AfterGivingUp ==>
      && Exhausted(s.max, s.hist[id])
      && (s.hist[id].Post() && s.hist[id].faults == 0 ==> |s.hist[id].notices| == 1)
    ensures RowOk(s.max, Deleted(s, id, why).rows, id, Deleted(s, id, why).hist[id])
  {
    assert RowOk(s.max, s.rows, id, s.hist[id]);
    assert s.hist[id].removals + [why] == [why];
  }

  lemma EnqueueKeepsInv(s: State, q: QueuedMessage)
    requires Inv(s) && Fresh(q)
    ensures Inv(Added(s, q, None))
  {
    hide Core, Links;
    AddKeepsCore(s, q, None);
    LinksAdded(s.hist, NewHistory(q, None));
  }

  lemma DiscardKeepsInv(s: State, id: Id)
    requires Inv(s)
    ensures Inv(Deleted(s, id, ByOperator))
  {
    hide Links;
    var s' := Deleted(s, id, ByOperator);
    if id in s.rows {
      LinksUpdated(s.hist, id, s'.hist[id]);
      DeleteKeepsRow(s, id, ByOperator);
      forall j | 0 <= j < |s'.hist| ensures RowOk(s'.max, s'.rows, j, s'.hist[j]) {
        assert RowOk(s.max, s.rows, j, s.hist[j]);
      }
    }
    forall w ensures s'.Pc(w) == s.Pc(w) {}
  }

  lemma MoveKeepsInv(s: State, w: Worker, pc: Pc)
    requires Inv(s) && !s.Pc(w).Holding() && !pc.Holding()
    ensures Inv(Moved(s, w, pc))
  {
    hide Links, Rows;
    var s' := Moved(s, w, pc);
    forall v ensures s'.Pc(v) == if v == w then pc else s.Pc(v) {}
  }

  lemma ClaimKeepsInv(s: State, w: Worker, id: Id)
    requires Inv(s) && Enabled(s, Claim(w, id))
    ensures Inv(Apply(s, Claim(w, id)))
  {
    hide Links;
    var s' := Apply(s, Claim(w, id));
    assert RowOk(s.max, s.rows, id, s.hist[id]);
    LocalStep(s, s', w, id);
  }

  /** One more attempt: all before it failed, and its batch time respects the backoff. */
  lemma AttemptMade(max: nat, h: History, retries: nat, now: Time, ok: bool)
    requires Pending(max, h, retries, now) && Spaced(h.attempts)
    ensures var h' := h.(attempts := h.attempts + [Attempt(now, ok)]);
            Attempted(max, h', retries, ok) && h'.attempts[retries].batch == now && Spaced(h'.attempts)
  {
    assert (h.attempts + [Attempt(now, ok)])[..retries] == h.attempts;
  }

  lemma SendKeepsInv(s: State, w: Worker, ok: bool)
    requires Inv(s) && Enabled(s, Send(w, ok))
    ensures Inv(Apply(s, Send(w, ok)))
  {
    hide Links;
    var s' := Apply(s, Send(w, ok));
    var pc := s.Pc(w);
    LinksUpdated(s.hist, pc.id, s'.hist[pc.id]);
    assert RowOk(s.max, s.rows, pc.id, s.hist[pc.id]);
    AttemptMade(s.max, s.hist[pc.id], pc.q.retries, pc.now, ok);
    LocalStep(s, s', w, pc.id);
  }

  lemma RequeueKeepsInv(s: State, w: Worker, written: bool)
    requires Inv(s) && Enabled(s, Requeue(w, written))
    ensures Inv(Apply(s, Requeue(w, written)))
  {
    hide Links;
    var s' := Apply(s, Requeue(w, written));
    var id := s.Pc(w).id;
    LinksUpdated(s.hist, id, s'.hist[id]);
    assert RowOk(s.max, s.rows, id, s.hist[id]);
    LocalStep(s, s', w, id);
  }

  lemma NotifyKeepsInv(s: State, w: Worker, body: string, clock: Time, written: bool)
    requires Inv(s) && Enabled(s, Notify(w, body, clock, written))
    ensures Inv(Apply(s, Notify(w, body, clock, written)))
  {
    hide Links;
    var pc := s.Pc(w);
    var notice := NoticeFor(pc.q, body, clock);
    var h := s.hist[pc.id];
    var s0 := Moved(s, w, GivingUp(pc.now, pc.id, pc.q));
    var s1 := if written then Recorded(s0, pc.id, h.(notices := h.notices + [|s.hist|])) else Fault(s0, pc.id);
    assert RowOk(s.max, s.rows, pc.id, h);
    LocalStep(s, s1, w, pc.id);
    if written {
      AddKeepsCore(s1, notice, Some(pc.id));
      LinksNotified(s.hist, pc.id, NewHistory(notice, Some(pc.id)));
    } else {
      LinksUpdated(s.hist, pc.id, s1.hist[pc.id]);
    }
  }

  /** The row a worker removes: gone, or left behind with a failed write on record. */
  lemma RemovedRow(s: State, w: Worker, written: bool)
    requires Core(s) && Enabled(s, Remove(w, written))
    ensures var id, s' := s.Pc(w).id, Apply(s, Remove(w, written));
      && id < |s.hist| == |s'.hist| && RowOk(s.max, s'.rows, id, s'.hist[id])
      && (id in s'.rows ==> s'.hist[id].faults > 0)
      && s'.hist[id].notices == s.hist[id].notices && s'.hist[id].parent == s.hist[id].parent
      && s'.hist[id].q == s.hist[id].q
  {
    var pc := s.Pc(w);
    assert RowOk(s.max, s.rows, pc.id, s.hist[pc.id]);
    assert PcOk(s.max, s.rows, pc, s.hist[pc.id]);
    hide Exclusive, Claims, Workers, Rows;
    if written && pc.id in s.rows {
      DeleteKeepsRow(s, pc.id, if pc.Delivered? then AfterDelivery else AfterGivingUp);
    }
  }

  lemma RemoveKeepsInv(s: State, w: Worker, written: bool)
    requires Inv(s) && Enabled(s, Remove(w, written))
    ensures Inv(Apply(s, Remove(w, written)))
  {
    hide Links, RowOk, PcOk, Rows, Claims;
    var s' := Apply(s, Remove(w, written));
    var id := s.Pc(w).id;
    RemovedRow(s, w, written);
    LinksUpdated(s.hist, id, s'.hist[id]);
    LocalStep(s, s', w, id);
  }

  lemma StepKeepsInv(s: State, step: Step)
    requires Inv(s) && Enabled(s, step)
    ensures Inv(Apply(s, step))
  {
    hide Inv;
    match step
    case Enqueue(q) => EnqueueKeepsInv(s, q);
    case Discard(id) => DiscardKeepsInv(s, id);
    case Begin(w, now) => MoveKeepsInv(s, w, Polling(now));
    case End(w) => MoveKeepsInv(s, w, Idle);
    case Claim(w, id) => ClaimKeepsInv(s, w, id);
    case Send(w, ok) => SendKeepsInv(s, w, ok);
    case Requeue(w, written) => RequeueKeepsInv(s, w, written);
    case Notify(w, body, clock, written) => NotifyKeepsInv(s, w, body, clock, written);
    case Remove(w, written) => RemoveKeepsInv(s, w, written);
  }

  lemma {:induction false} RunKeepsInv(s: State, steps: seq<Step>, s': State)
    requires Inv(s) && Reaches(s, steps, s')
    ensures Inv(s') && s'.max == s.max
    decreases |steps|
  {
    hide Inv;
    if steps != [] {
      StepKeepsInv(s, steps[0]);
      RunKeepsInv(Apply(s, steps[0]), steps[1..], s');
    }
  }

  ghost predicate Reachable(max: nat, s: State) {
    max >= 1 && exists steps :: Reaches(Init(max), steps, s)
  }

  lemma ReachableInv(max: nat, s: State)
    requires Reachable(max, s)
    ensures Inv(s) && s.max == max
  {
    var steps :| Reaches(Init(max), steps, s);
    assert Inv(Init(max));
    RunKeepsInv(Init(max), steps, s);
  }

  lemma {:induction false} ReachesOneMore(s: State, steps: seq<Step>, s': State, step: Step)
    requires Reaches(s, steps, s') && Enabled(s', step)
    ensures Reaches(s, steps + [step], Apply(s', step))
    decreases |steps|
  {
    if steps == [] {
      assert Reaches(Apply(s, step), [], Apply(s', step));
    } else {
      ReachesOneMore(Apply(s, steps[0]), steps[1..], s', step);
      assert (steps + [step])[1..] == steps[1..] + [step];
    }
  }

  lemma ReachableOneMore(max: nat, s: State, step: Step)
    requires Reachable(max, s) && Enabled(s, step)
    ensures Reachable(max, Apply(s, step))
  {
    var steps :| Reaches(Init(max), steps, s);
    ReachesOneMore(Init(max), steps, s, step);
  }
}
