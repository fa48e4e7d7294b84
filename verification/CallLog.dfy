/** The log of store calls: how each went, in order. A contract that says what a failing
    operation leaves behind says it by the calls that had succeeded. */
module CallLog {

  /** The first `n` of these calls were made and succeeded. */
  predicate FirstSucceed(calls: seq<bool>, n: nat) {
    |calls| >= n && forall i :: 0 <= i < n ==> calls[i]
  }

  /** The calls made since the log was `before`. */
  function CallsSince(before: seq<bool>, after: seq<bool>): seq<bool> {
    if |before| <= |after| then after[|before|..] else []
  }

  /** One call was made, and counted if it failed. */
  predicate OneCall(before: seq<bool>, after: seq<bool>, faults: nat, faults': nat) {
    && |after| == |before| + 1 && before <= after
    && faults' == faults + if after[|before|] then 0 else 1
  }

  /** What the log gained began with `head`. */
  lemma CallsBegin(before: seq<bool>, head: seq<bool>, after: seq<bool>, n: nat)
    requires before + head <= after && n <= |head|
    ensures FirstSucceed(CallsSince(before, after), n) <==> FirstSucceed(head, n)
  {
    var made := CallsSince(before, after);
    assert forall i :: 0 <= i < |head| ==> (before + head)[|before| + i] == head[i] == made[i];
  }

  /** After calls that all succeeded it depends on the rest. */
  lemma CallsJoin(before: seq<bool>, mid: seq<bool>, after: seq<bool>, k: nat, n: nat)
    requires before <= mid <= after && |mid| == |before| + k && FirstSucceed(CallsSince(before, mid), k)
    ensures FirstSucceed(CallsSince(before, after), k + n) <==> FirstSucceed(CallsSince(mid, after), n)
  {
    var made, rest := CallsSince(before, after), CallsSince(mid, after);
    assert forall i :: 0 <= i < |rest| ==> rest[i] == made[k + i];
    forall i | 0 <= i < k ensures made[i] {
      assert CallsSince(before, mid)[i] == mid[|before| + i] == after[|before| + i];
    }
    if FirstSucceed(rest, n) {
      forall i | 0 <= i < k + n ensures made[i] {
        if i >= k {
          assert rest[i - k];
        }
      }
    }
  }

  /** Later calls do not change how earlier ones went. */
  lemma CallsStay(before: seq<bool>, mid: seq<bool>, after: seq<bool>, n: nat)
    requires before <= mid <= after && n <= |mid| - |before|
    ensures FirstSucceed(CallsSince(before, after), n) <==> FirstSucceed(CallsSince(before, mid), n)
  {
    assert forall i :: 0 <= i < n ==> CallsSince(before, after)[i] == CallsSince(before, mid)[i];
  }

  lemma FewerSucceed(calls: seq<bool>, k: nat, n: nat)
    requires k <= n
    ensures FirstSucceed(calls, n) ==> FirstSucceed(calls, k)
  {
  }

  lemma SucceededCalls(calls: seq<bool>, n: nat)
    requires FirstSucceed(calls, n)
    ensures |calls| >= n
  {
  }

  lemma TwoCalls(before: seq<bool>, made: seq<bool>, after: seq<bool>)
    requires after == before + made && 1 <= |made| <= 2
    ensures FirstSucceed(CallsSince(before, after), 1) <==> made[0]
    ensures FirstSucceed(CallsSince(before, after), 2) <==> |made| == 2 && made[0] && made[1]
  {
    assert CallsSince(before, after) == made;
  }

  lemma ShortCalls(before: seq<bool>, made: seq<bool>, after: seq<bool>)
    requires after == before + made && |made| == 1
    ensures !FirstSucceed(CallsSince(before, after), 2)
  {
  }

  /** How the first call after `mid` went. */
  lemma TurnOf(before: seq<bool>, mid: seq<bool>, after: seq<bool>)
    requires before <= mid < after
    ensures var made, turn := CallsSince(before, after), |CallsSince(before, mid)|;
      && turn < |made| && (made[turn] <==> FirstSucceed(CallsSince(mid, after), 1))
      && CallsSince(before, mid) <= made && made[turn..] == CallsSince(mid, after)
  {
    assert CallsSince(before, after)[|CallsSince(before, mid)|] == CallsSince(mid, after)[0];
  }
}
