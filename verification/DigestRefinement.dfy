/** A digest worker's run on one list is two steps of the digest protocol. */
module DigestRefinement {
  import opened Wrappers
  import opened Model
  import opened ArchiveTable
  import opened DigestSchedule
  import P = DigestProtocol

  /** The protocol state `s` is about list `listId` of these tables; `posts` names its
      archive entries in the order in which they were inserted. */
  ghost predicate Mirrors(lists: map<Id, List>, archive: map<Id, ArchiveEntry>, listId: Id,
                          s: P.State, posts: seq<Id>) {
    && listId in lists && s.watermark == lists[listId].lastDigestSentAt
    && |posts| == |s.archive|
    && (forall p, q :: 0 <= p < q < |posts| ==> posts[p] != posts[q])
    && (forall p :: 0 <= p < |posts| ==>
          posts[p] in archive && archive[posts[p]].listId == listId && archive[posts[p]].receivedAt == s.archive[p])
    && (forall id :: id in archive && archive[id].listId == listId ==> id in posts)
  }

  /** The posts the protocol says were read are the entries the worker reads. */
  lemma SameEntries(lists: map<Id, List>, archive: map<Id, ArchiveEntry>, listId: Id,
                    s: P.State, posts: seq<Id>, since: Time)
    requires Mirrors(lists, archive, listId, s, posts)
    ensures (set p | p in P.Since(s.archive, since) :: posts[p]) == ReceivedSince(archive, listId, since).Keys
  {
    var read := P.Since(s.archive, since);
    forall id | id in ReceivedSince(archive, listId, since)
      ensures id in (set p | p in read :: posts[p])
    {
      var p :| 0 <= p < |posts| && posts[p] == id;
      assert p in read;
    }
  }

  /** Window `win` is the one the worker won from snapshot `l`, and carries exactly the
      entries the digest is made of. */
  ghost predicate IsDigestOf(win: P.Win, l: List, now: Time, archive: map<Id, ArchiveEntry>, posts: seq<Id>) {
    && win.from == l.lastDigestSentAt && win.to == now && win.frequency == l.settings.digestFrequency
    && (forall p :: p in win.entries ==> p < |posts|)
    && (set p | p in win.entries :: posts[p]) == ReceivedSince(archive, l.id, SinceWatermark(l.lastDigestSentAt)).Keys
  }

  /** What DigestWorker.DigestList does to the tables, by its contract, is what its worker's
      steps do in the protocol: reading the archive and advancing the watermark, or no step
      at all if a call failed. It wins a window if and only if it claimed it. */
  lemma DigestListRefines(lists: map<Id, List>, lists': map<Id, List>, archive: map<Id, ArchiveEntry>,
                          l: List, now: Time, claimed: bool, failed: bool,
                          w: P.Worker, s: P.State, posts: seq<Id>)
    returns (steps: seq<P.Step>, s': P.State)
    requires Mirrors(lists, archive, l.id, s, posts)
    requires s.Pc(w) == P.Snapshot(now, l.lastDigestSentAt, l.settings.digestFrequency)
    requires claimed ==> Matches(lists[l.id].lastDigestSentAt, l.lastDigestSentAt)
    requires !failed && Matches(lists[l.id].lastDigestSentAt, l.lastDigestSentAt) ==> claimed
    requires lists' == if claimed then lists[l.id := lists[l.id].(lastDigestSentAt := Some(now))] else lists
    ensures P.Reaches(false, s, steps, s') && Mirrors(lists', archive, l.id, s', posts)
    ensures steps == if failed && !claimed then [] else [P.ReadEntries(w), P.Advance(w)]
    ensures !failed ==> s'.Pc(w).Idle?
    ensures if claimed then |s'.wins| == |s.wins| + 1 && s'.wins[..|s.wins|] == s.wins &&
                            IsDigestOf(s'.wins[|s.wins|], l, now, archive, posts)
            else s'.wins == s.wins
  {
    if failed && !claimed {
      return [], s;
    }
    SameEntries(lists, archive, l.id, s, posts, SinceWatermark(l.lastDigestSentAt));
    var s1 := P.Apply(false, s, P.ReadEntries(w));
    s' := P.Apply(false, s1, P.Advance(w));
    steps := [P.ReadEntries(w), P.Advance(w)];
    assert P.Reaches(false, s', [], s');
    assert steps[1..] == [P.Advance(w)] && steps[1..][1..] == [];
    assert P.Reaches(false, s1, steps[1..], s');
  }
}
