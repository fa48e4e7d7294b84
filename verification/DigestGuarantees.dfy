/** What the digest watermark guarantees in every run. */
module DigestGuarantees {
  import opened Wrappers
  import opened Model
  import opened DigestSchedule
  import opened DigestProtocol

  /** `t` lies in the window (from, to] that `win` closed. */
  predicate InWindow(win: Win, t: Time) { SinceWatermark(win.from) < t <= win.to }

  lemma {:induction false} ChainIncreases(wins: seq<Win>, watermark: Option<Time>, j: nat, k: nat)
    requires Chained(wins, watermark) && j < k < |wins|
    ensures PeriodPassed(wins[k].frequency, wins[k].to - wins[j].to)
    decreases k - j
  {
    assert wins[k].from == Some(wins[k - 1].to);
    if j + 1 < k {
      ChainIncreases(wins, watermark, j, k - 1);
    }
  }

  /** With stale snapshots and arbitrary clocks alike, a win for a weekly list comes at
      least a week after any before it, and every other at least a day after, even if the
      frequency changed in between; and no window is won twice. */
  lemma WinsAreSpaced(strict: bool, s: State, j: nat, k: nat)
    requires Reachable(strict, s) && j < k < |s.wins|
    ensures s.wins[k].to - s.wins[j].to >= if s.wins[k].frequency == Weekly then 7 * 24 * HOUR else 24 * HOUR
    ensures s.wins[j].from != s.wins[k].from
  {
    ReachableInv(strict, s);
    ChainIncreases(s.wins, s.watermark, j, k);
    assert s.wins[k].from == Some(s.wins[k - 1].to);
    if j > 0 {
      assert s.wins[j].from == Some(s.wins[j - 1].to);
      ChainIncreases(s.wins, s.watermark, j - 1, k - 1);
    }
  }

  /** The watermark only grows: once set, each step leaves it or moves it on by at least
      the period of the list in the snapshot that is claimed. */
  lemma WatermarkGrows(strict: bool, s: State, step: Step)
    requires Reachable(strict, s) && Enabled(strict, s, step) && s.watermark.Some?
    ensures var s' := Apply(strict, s, step);
            s'.watermark.Some? &&
            (s'.watermark == s.watermark ||
              (step.Advance? && s'.watermark.value - s.watermark.value >=
                 if s.Pc(step.w).frequency == Weekly then 7 * 24 * HOUR else 24 * HOUR))
  {
    ReachableInv(strict, s);
    if step.Advance? {
      GuardIsEquality(s, step.w);
      assert s.Pc(step.w).HasSnapshot();
    }
  }

  /** A claim succeeds exactly when nobody has claimed since the snapshot was taken. */
  lemma ClaimSucceedsIff(strict: bool, s: State, w: Worker)
    requires Reachable(strict, s) && Enabled(strict, s, Advance(w))
    ensures |Apply(strict, s, Advance(w)).wins| > |s.wins| <==> s.watermark == s.Pc(w).from
  {
    ReachableInv(strict, s);
    GuardIsEquality(s, w);
  }

  /** The windows tile the time up to the watermark: every stamp lies in exactly one. */
  lemma {:induction false} WindowOf(wins: seq<Win>, watermark: Option<Time>, t: Time) returns (k: nat)
    requires Chained(wins, watermark) && watermark.Some? && ZERO_TIME < t <= watermark.value
    ensures k < |wins| && InWindow(wins[k], t)
    ensures forall j :: 0 <= j < |wins| && InWindow(wins[j], t) ==> j == k
  {
    k := |wins| - 1;
    while !InWindow(wins[k], t)
      invariant 0 <= k < |wins| && t <= wins[k].to
      decreases k
    {
      assert k > 0 ==> wins[k].from == Some(wins[k - 1].to);
      k := k - 1;
    }
    forall j | 0 <= j < |wins| && InWindow(wins[j], t) ensures j == k {
      if j < k {
        if j < k - 1 { ChainIncreases(wins, watermark, j, k - 1); }
      } else if k < j {
        if k < j - 1 { ChainIncreases(wins, watermark, k, j - 1); }
      }
    }
  }

  /** Exactness, for all clocks: of the posts up to the watermark, the digest that closed
      a post's window carries it if and only if the post had been inserted when that
      digest read the archive. */
  lemma CoveredIffInsertedInTime(strict: bool, s: State, p: nat) returns (k: nat)
    requires Reachable(strict, s) && p < |s.archive|
    requires s.watermark.Some? && s.archive[p] <= s.watermark.value
    ensures k < |s.wins| && InWindow(s.wins[k], s.archive[p])
    ensures p in s.wins[k].entries <==> p < s.wins[k].seen
  {
    ReachableInv(strict, s);
    k := WindowOf(s.wins, s.watermark, s.archive[p]);
    assert EntriesOk(s.archive, s.wins[k].from, s.wins[k].entries, s.wins[k].seen);
  }

  /** Coverage: when clock readings strictly increase and archiving is atomic, no post
      falls between digests, whatever the interleaving of workers. */
  lemma NoPostFallsBetweenDigests(s: State, p: nat) returns (k: nat)
    requires Reachable(true, s) && p < |s.archive|
    requires s.watermark.Some? && s.archive[p] <= s.watermark.value
    ensures k < |s.wins| && InWindow(s.wins[k], s.archive[p]) && p in s.wins[k].entries
  {
    ReachableInv(true, s);
    k := CoveredIffInsertedInTime(true, s, p);
    assert Complete(s.archive, s.wins[k].to, s.wins[k].seen);
  }

  lemma {:induction false} ReachesOneMore(strict: bool, s: State, steps: seq<Step>, s': State, step: Step)
    requires Reaches(strict, s, steps, s') && Enabled(strict, s', step)
    ensures Reaches(strict, s, steps + [step], Apply(strict, s', step))
    decreases |steps|
  {
    if steps == [] {
      assert Reaches(strict, Apply(strict, s, step), [], Apply(strict, s', step));
    } else {
      ReachesOneMore(strict, Apply(strict, s, steps[0]), steps[1..], s', step);
      assert (steps + [step])[1..] == steps[1..] + [step];
    }
  }

  lemma Then(s: State, step: Step, s': State)
    requires Reachable(false, s) && Enabled(false, s, step) && Apply(false, s, step) == s'
    ensures Reachable(false, s')
  {
    var steps :| Reaches(false, INIT, steps, s);
    ReachesOneMore(false, INIT, steps, s, step);
  }

  /** Worker 0 has read the empty archive at time 2, and a post stamped at 1 comes in. */
  lemma ReadTooEarly() returns (s: State)
    ensures Reachable(false, s) && s == State(2, None, [1], map[0 := Read(2, None, Daily, {}, 0)], [])
  {
    var s1 := State(2, None, [], map[0 := Clocked(2)], []);
    var s2 := State(2, None, [], map[0 := Snapshot(2, None, Daily)], []);
    var s3 := State(2, None, [], map[0 := Read(2, None, Daily, {}, 0)], []);
    s := State(2, None, [1], map[0 := Read(2, None, Daily, {}, 0)], []);
    assert Reaches(false, INIT, [], INIT);
    assert Since([], ZERO_TIME) == {};
    Then(INIT, ReadClock(0, 2), s1);
    Then(s1, TakeSnapshot(0, Daily), s2);
    Then(s2, ReadEntries(0), s3);
    Then(s3, Archive(1), s);
  }

  /** Coverage needs its assumption: a post stamped at 1 but inserted after the archive
      was read is behind the watermark and in no digest. */
  lemma LatePostIsLost() returns (s: State)
    ensures Reachable(false, s) && |s.archive| == 1
    ensures s.watermark.Some? && s.archive[0] <= s.watermark.value
    ensures forall k :: 0 <= k < |s.wins| ==> 0 !in s.wins[k].entries
  {
    hide Reachable;
    var s4 := ReadTooEarly();
    s := Apply(false, s4, Advance(0));
    Then(s4, Advance(0), s);
  }
}
