/**
  Digest workers of any number of instances racing for one list's watermark, beside
  posts being archived. A worker reads its clock, takes a snapshot of the list, reads the
  archive, and claims: four separate steps, so every snapshot may be stale.

  With `strict` the clock readings of all parties increase strictly and a post is stamped
  and inserted in one step. Without it clocks are arbitrary, and a post may be inserted
  long after the time it is stamped with.
 */
module DigestProtocol {
  import opened Wrappers
  import opened Model
  import opened DigestSchedule

  type Worker = nat

  /** `seen` is how many posts had been inserted when the entries were read. */
  datatype Pc =
    | Idle
    | Clocked(now: Time)
    | Snapshot(now: Time, from: Option<Time>, frequency: DigestFrequency)
    | Read(now: Time, from: Option<Time>, frequency: DigestFrequency, entries: set<nat>, seen: nat)
  {
    predicate HasSnapshot() { Snapshot? || Read? }
  }

  /** A successful claim of the window (from, to], for a list of that frequency. */
  datatype Win = Win(from: Option<Time>, to: Time, frequency: DigestFrequency, entries: set<nat>, seen: nat)

  /** `archive` holds the time stamps of the list's posts, in order of insertion. */
  datatype State = State(
    clock: Time,
    watermark: Option<Time>,
    archive: seq<Time>,
    pcs: map<Worker, Pc>,
    wins: seq<Win>)
  {
    function Pc(w: Worker): Pc { if w in pcs then pcs[w] else Idle }
  }

  datatype Step =
    | Archive(receivedAt: Time)
    | ReadClock(w: Worker, now: Time)
    | TakeSnapshot(w: Worker, frequency: DigestFrequency)
    | ReadEntries(w: Worker)
    | Advance(w: Worker)

  const INIT := State(ZERO_TIME, None, [], map[], [])

  ghost predicate Enabled(strict: bool, s: State, step: Step) {
    match step
    case Archive(t) => t > (if strict then s.clock else ZERO_TIME)
    case ReadClock(w, now) => strict ==> now > s.clock
    case TakeSnapshot(w, _) => s.Pc(w).Clocked?
    case ReadEntries(w) => s.Pc(w).Snapshot?
    case Advance(w) => s.Pc(w).Read?
  }

  /** ListArchiveSince, as the indices of the posts it returns. */
  function Since(archive: seq<Time>, since: Time): set<nat> {
    set p: nat | p < |archive| && archive[p] > since
  }

  function Moved(s: State, w: Worker, pc: Pc): State { s.(pcs := s.pcs[w := pc]) }

  ghost function Apply(strict: bool, s: State, step: Step): State
    requires Enabled(strict, s, step)
  {
    match step
    case Archive(t) => s.(archive := s.archive + [t], clock := if t > s.clock then t else s.clock)
    case ReadClock(w, now) => Moved(s, w, Clocked(now)).(clock := if now > s.clock then now else s.clock)
    case TakeSnapshot(w, frequency) =>
      var now := s.Pc(w).now;
      Moved(s, w, if DigestDue(s.watermark, frequency, now) then Snapshot(now, s.watermark, frequency) else Idle)
    case ReadEntries(w) =>
      var pc := s.Pc(w);
      Moved(s, w, Read(pc.now, pc.from, pc.frequency, Since(s.archive, SinceWatermark(pc.from)), |s.archive|))
    case Advance(w) =>
      var pc := s.Pc(w);
      var s' := Moved(s, w, Idle);
      if Matches(s.watermark, pc.from)
      then s'.(watermark := Some(pc.now),
               wins := s.wins + [Win(pc.from, pc.now, pc.frequency, pc.entries, pc.seen)])
      else s'
  }

  ghost predicate Reaches(strict: bool, s: State, steps: seq<Step>, s': State)
    decreases |steps|
  {
    if steps == [] then s == s'
    else Enabled(strict, s, steps[0]) && Reaches(strict, Apply(strict, s, steps[0]), steps[1..], s')
  }

  ghost predicate Reachable(strict: bool, s: State) {
    exists steps :: Reaches(strict, INIT, steps, s)
  }

  // ----- What every run keeps -----

  /** A week has passed for a weekly list, and a day for any other. */
  predicate PeriodPassed(frequency: DigestFrequency, elapsed: Time) {
    elapsed >= if frequency == Weekly then 7 * 24 * HOUR else 24 * HOUR
  }

  /** Snapshots lie behind the watermark, and their digest was due. */
  ghost predicate SnapshotOk(s: State, pc: Pc)
    requires pc.HasSnapshot()
  {
    pc.from.Some? ==>
      && s.watermark.Some? && pc.from.value <= s.watermark.value
      && PeriodPassed(pc.frequency, pc.now - pc.from.value)
  }

  /** The entries read are exactly the posts inserted so far and stamped after `from`. */
  ghost predicate EntriesOk(archive: seq<Time>, from: Option<Time>, entries: set<nat>, seen: nat) {
    seen <= |archive| && entries == Since(archive[..seen], SinceWatermark(from))
  }

  /** Each win starts where the one before it ended, at least its own period earlier. */
  ghost predicate Chained(wins: seq<Win>, watermark: Option<Time>) {
    && (wins != [] ==> wins[0].from == None)
    && (forall k :: 1 <= k < |wins| ==>
          wins[k].from == Some(wins[k - 1].to) && PeriodPassed(wins[k].frequency, wins[k].to - wins[k - 1].to))
    && watermark == (if wins == [] then None else Some(wins[|wins| - 1].to))
  }

  ghost predicate Inv(s: State) {
    && Chained(s.wins, s.watermark)
    && s.clock >= ZERO_TIME
    && (forall p :: 0 <= p < |s.archive| ==> s.archive[p] > ZERO_TIME)
    && (forall w :: s.Pc(w).HasSnapshot() ==> SnapshotOk(s, s.Pc(w)))
    && (forall w :: s.Pc(w).Read? ==> EntriesOk(s.archive, s.Pc(w).from, s.Pc(w).entries, s.Pc(w).seen))
    && (forall k :: 0 <= k < |s.wins| ==>
          EntriesOk(s.archive, s.wins[k].from, s.wins[k].entries, s.wins[k].seen))
  }

  /** Under the strict clock nobody is ahead of it, and a worker that has read the archive
      has seen every post stamped up to its own clock reading. */
  ghost predicate Complete(archive: seq<Time>, now: Time, seen: nat) {
    forall p :: seen <= p < |archive| ==> archive[p] > now
  }

  ghost predicate StrictInv(s: State) {
    && (forall p :: 0 <= p < |s.archive| ==> s.archive[p] <= s.clock)
    && (forall w :: !s.Pc(w).Idle? ==> s.Pc(w).now <= s.clock)
    && (forall w :: s.Pc(w).Read? ==> Complete(s.archive, s.Pc(w).now, s.Pc(w).seen))
    && (forall k :: 0 <= k < |s.wins| ==> s.wins[k].to <= s.clock && Complete(s.archive, s.wins[k].to, s.wins[k].seen))
  }

  /** The heart of the protocol: although it compares with `<=`, the guard succeeds
      exactly when the stored watermark is still the snapshot. */
  lemma GuardIsEquality(s: State, w: Worker)
    requires Inv(s) && s.Pc(w).Read?
    ensures Matches(s.watermark, s.Pc(w).from) <==> s.watermark == s.Pc(w).from
  {
    assert s.Pc(w).HasSnapshot();
  }

  lemma EntriesGrow(archive: seq<Time>, t: Time, from: Option<Time>, entries: set<nat>, seen: nat)
    requires EntriesOk(archive, from, entries, seen)
    ensures EntriesOk(archive + [t], from, entries, seen)
  {
    assert (archive + [t])[..seen] == archive[..seen];
  }

  lemma ArchiveKeepsInv(strict: bool, s: State, t: Time)
    requires Inv(s) && Enabled(strict, s, Archive(t))
    ensures Inv(Apply(strict, s, Archive(t)))
  {
    var s' := Apply(strict, s, Archive(t));
    forall w ensures s'.Pc(w) == s.Pc(w) {}
    forall w | s.Pc(w).Read?
      ensures EntriesOk(s'.archive, s.Pc(w).from, s.Pc(w).entries, s.Pc(w).seen)
    {
      EntriesGrow(s.archive, t, s.Pc(w).from, s.Pc(w).entries, s.Pc(w).seen);
    }
    forall k | 0 <= k < |s.wins|
      ensures EntriesOk(s'.archive, s.wins[k].from, s.wins[k].entries, s.wins[k].seen)
    {
      EntriesGrow(s.archive, t, s.wins[k].from, s.wins[k].entries, s.wins[k].seen);
    }
  }

  lemma WorkerKeepsInv(strict: bool, s: State, step: Step)
    requires Inv(s) && Enabled(strict, s, step) && !step.Archive? && !step.Advance?
    ensures Inv(Apply(strict, s, step))
  {
    var s' := Apply(strict, s, step);
    assert s.archive[..|s.archive|] == s.archive;
    forall v | v != step.w ensures s'.Pc(v) == s.Pc(v) {}
  }

  lemma ChainGrows(wins: seq<Win>, watermark: Option<Time>, win: Win)
    requires Chained(wins, watermark) && win.from == watermark
    requires win.from.Some? ==> PeriodPassed(win.frequency, win.to - win.from.value)
    ensures Chained(wins + [win], Some(win.to))
  {
    var wins' := wins + [win];
    forall k | 1 <= k < |wins'|
      ensures wins'[k].from == Some(wins'[k - 1].to)
      ensures PeriodPassed(wins'[k].frequency, wins'[k].to - wins'[k - 1].to)
    {
      if k < |wins| {
        assert wins'[k] == wins[k];
      }
    }
  }

  lemma AdvanceKeepsInv(strict: bool, s: State, w: Worker)
    requires Inv(s) && Enabled(strict, s, Advance(w))
    ensures Inv(Apply(strict, s, Advance(w)))
  {
    var s' := Apply(strict, s, Advance(w));
    var pc := s.Pc(w);
    GuardIsEquality(s, w);
    assert pc.HasSnapshot() && SnapshotOk(s, pc);
    forall v ensures s'.Pc(v) == if v == w then Idle else s.Pc(v) {}
    if Matches(s.watermark, pc.from) {
      ChainGrows(s.wins, s.watermark, Win(pc.from, pc.now, pc.frequency, pc.entries, pc.seen));
      forall v | s'.Pc(v).HasSnapshot() ensures SnapshotOk(s', s'.Pc(v)) {
        assert s.Pc(v).HasSnapshot();
      }
    }
  }

  lemma StepKeepsStrictInv(s: State, step: Step)
    requires Inv(s) && StrictInv(s) && Enabled(true, s, step)
    ensures StrictInv(Apply(true, s, step))
  {
    var s' := Apply(true, s, step);
    if step.Archive? {
      forall v ensures s'.Pc(v) == s.Pc(v) {}
    } else {
      forall v | v != step.w ensures s'.Pc(v) == s.Pc(v) {}
    }
  }

  lemma {:induction false} RunKeepsInv(strict: bool, s: State, steps: seq<Step>, s': State)
    requires Inv(s) && (strict ==> StrictInv(s)) && Reaches(strict, s, steps, s')
    ensures Inv(s') && (strict ==> StrictInv(s'))
    decreases |steps|
  {
    hide Inv, StrictInv;
    if steps != [] {
      match steps[0] {
        case Archive(t) => ArchiveKeepsInv(strict, s, t);
        case Advance(w) => AdvanceKeepsInv(strict, s, w);
        case _ => WorkerKeepsInv(strict, s, steps[0]);
      }
      if strict {
        StepKeepsStrictInv(s, steps[0]);
      }
      RunKeepsInv(strict, Apply(strict, s, steps[0]), steps[1..], s');
    }
  }

  lemma ReachableInv(strict: bool, s: State)
    requires Reachable(strict, s)
    ensures Inv(s) && (strict ==> StrictInv(s))
  {
    var steps :| Reaches(strict, INIT, steps, s);
    RunKeepsInv(strict, INIT, steps, s);
  }
}
