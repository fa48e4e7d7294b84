/** The full-text index follows the archive through every run of writes. */
module ArchiveIndex {
  import opened Wrappers
  import opened Model
  import opened ArchiveTable

  const EMPTY := Index(map[], map[], 0)

  function Run(s: Index, steps: seq<Step>): Index
    decreases |steps|
  {
    if steps == [] then s else Run(Apply(s, steps[0]), steps[1..])
  }

  /** What the index should hold: subject and text of every entry, under its id. */
  function Projection(archive: map<Id, ArchiveEntry>): map<Id, FtsRow> {
    map id | id in archive :: FtsRow(archive[id].subject, archive[id].bodyText)
  }

  ghost predicate Agrees(s: Index) { FreshIds(s.archive, s.next) && s.fts == Projection(s.archive) }

  /** An index row is its entry's, except that it may have no text where the entry has. */
  ghost predicate RowFits(e: ArchiveEntry, row: FtsRow) {
    row.subject == e.subject && (row.bodyText == e.bodyText || row.bodyText == "")
  }

  /** No index row is orphaned or has anything but its own entry's subject and text. */
  ghost predicate Sound(s: Index) {
    && FreshIds(s.archive, s.next)
    && forall id :: id in s.fts ==> id in s.archive && RowFits(s.archive[id], s.fts[id])
  }

  /** An entry the index does not show as it is: it has no row, or one without its text. */
  ghost predicate Spoiled(s: Index, id: Id) {
    id in s.archive && (id !in s.fts || s.fts[id] != Projection(s.archive)[id])
  }

  /** A step fails between its two statements about entry `id`. */
  ghost predicate Tears(s: Index, step: Step, id: Id) {
    match step
    case Archive(_, indexed) => !indexed && id == s.next
    case Backfill(extractText, filled, torn) =>
      && torn == Some(id) && id !in filled
      && id in Textless(s.archive) && extractText(s.archive[id].body) != ""
    case DeleteList(_) => false
  }

  lemma StepKeepsSound(s: Index, step: Step)
    requires Sound(s)
    ensures Sound(Apply(s, step))
  {
  }

  /** After a step the index lacks what it lacked before, as far as the entry is still
      there, and what the step itself tore. */
  lemma SpoiledAfter(s: Index, step: Step, id: Id)
    requires Sound(s)
    ensures var s' := Apply(s, step); Spoiled(s', id) <==> id in s'.archive && (Spoiled(s, id) || Tears(s, step, id))
  {
    var s' := Apply(s, step);
    if step.Archive? {
      assert s.next !in s.archive && s.next !in s.fts;
    }
  }

  lemma AgreesIff(s: Index)
    requires Sound(s)
    ensures Agrees(s) <==> forall id :: !Spoiled(s, id)
  {
    if forall id :: !Spoiled(s, id) {
      forall id | id in s.archive ensures id in s.fts && s.fts[id] == Projection(s.archive)[id] {
        assert !Spoiled(s, id);
      }
      assert s.fts.Keys == s.archive.Keys;
    }
  }

  /** Entries keep their list; they leave with it, and ids are not given out twice. */
  lemma EntryAfter(s: Index, step: Step, id: Id)
    requires Sound(s) && id in s.archive
    ensures var s' := Apply(s, step);
      && (id in s'.archive <==> step != DeleteList(s.archive[id].listId))
      && (id in s'.archive ==> s'.archive[id].listId == s.archive[id].listId)
  {
  }

  // ----- Whole runs -----

  /** Whenever a step tears an entry, a later step deletes the entry's list. */
  ghost predicate Mended(s: Index, steps: seq<Step>)
    decreases |steps|
  {
    steps != [] ==>
      var s' := Apply(s, steps[0]);
      && (forall id :: Tears(s, steps[0], id) && id in s'.archive ==> DeleteList(s'.archive[id].listId) in steps[1..])
      && Mended(s', steps[1..])
  }

  /** And so for the entries that were spoiled before. */
  ghost predicate OldMended(s: Index, steps: seq<Step>) {
    forall id :: Spoiled(s, id) ==> DeleteList(s.archive[id].listId) in steps
  }

  lemma OldMendedAfter(s: Index, steps: seq<Step>)
    requires Sound(s) && steps != []
    ensures var s' := Apply(s, steps[0]);
      OldMended(s', steps[1..]) <==>
        && OldMended(s, steps)
        && forall id :: Tears(s, steps[0], id) && id in s'.archive ==> DeleteList(s'.archive[id].listId) in steps[1..]
  {
    hide Apply, Tears, Spoiled;
    var s' := Apply(s, steps[0]);
    assert steps == [steps[0]] + steps[1..];
    forall id ensures Spoiled(s', id) <==> id in s'.archive && (Spoiled(s, id) || Tears(s, steps[0], id)) {
      SpoiledAfter(s, steps[0], id);
    }
    forall id | Spoiled(s, id)
      ensures id in s.archive
      ensures id in s'.archive <==> steps[0] != DeleteList(s.archive[id].listId)
      ensures id in s'.archive ==> s'.archive[id].listId == s.archive[id].listId
    {
      SpoiledIsThere(s, id);
      EntryAfter(s, steps[0], id);
    }
  }

  lemma SpoiledIsThere(s: Index, id: Id)
    requires Spoiled(s, id)
    ensures id in s.archive
  {
  }

  lemma {:induction false} AgreesInTheEnd(s: Index, steps: seq<Step>)
    requires Sound(s)
    ensures Sound(Run(s, steps))
    ensures Agrees(Run(s, steps)) <==> OldMended(s, steps) && Mended(s, steps)
    decreases |steps|
  {
    hide Sound, Agrees, Apply, Tears;
    if steps == [] {
      AgreesIff(s);
    } else {
      StepKeepsSound(s, steps[0]);
      OldMendedAfter(s, steps);
      AgreesInTheEnd(Apply(s, steps[0]), steps[1..]);
    }
  }

  /** From an empty database no run of archiving, backfilling and list deletions, whichever
      of their statements fail, gives an index row anything but its own entry's subject
      and text. At its end the index equals the archive's projection if and only if the
      list of every entry between whose two statements a step failed was deleted later. */
  lemma FromEmpty(steps: seq<Step>)
    ensures Sound(Run(EMPTY, steps))
    ensures Agrees(Run(EMPTY, steps)) <==> Mended(EMPTY, steps)
  {
    AgreesInTheEnd(EMPTY, steps);
  }

  /** A spoiled entry stays so for good: no later write, and no backfill, mends it; only
      the deletion of its list removes the gap. */
  lemma {:induction false} GapRemains(s: Index, steps: seq<Step>, id: Id)
    requires Sound(s) && Spoiled(s, id)
    ensures DeleteList(s.archive[id].listId) !in steps ==> Spoiled(Run(s, steps), id)
    ensures DeleteList(s.archive[id].listId) in steps ==> id !in Run(s, steps).archive
    decreases |steps|
  {
    hide Apply, Sound;
    if steps != [] {
      var s' := Apply(s, steps[0]);
      assert steps == [steps[0]] + steps[1..];
      StepKeepsSound(s, steps[0]);
      SpoiledAfter(s, steps[0], id);
      EntryAfter(s, steps[0], id);
      if id in s'.archive {
        GapRemains(s', steps[1..], id);
      } else {
        StaysAway(s, s', id);
        NeverBack(s', steps[1..], id);
      }
    }
  }

  lemma StaysAway(s: Index, s': Index, id: Id)
    requires Sound(s) && Spoiled(s, id) && exists step :: s' == Apply(s, step)
    ensures id < s'.next
  {
  }

  lemma {:induction false} NeverBack(s: Index, steps: seq<Step>, id: Id)
    requires id !in s.archive && id < s.next
    ensures id !in Run(s, steps).archive
    decreases |steps|
  {
    if steps != [] {
      NeverBack(Apply(s, steps[0]), steps[1..], id);
    }
  }

  /** Running the migration again, as every start of the server does, changes nothing. */
  lemma BackfillIsIdempotent(s: Index, extractText: string -> string)
    requires Sound(s)
    ensures var once := Apply(s, FullBackfill(s, extractText)); Apply(once, FullBackfill(once, extractText)) == once
  {
    var once := Apply(s, FullBackfill(s, extractText));
    var twice := Apply(once, FullBackfill(once, extractText));
    assert twice.archive == once.archive;
    assert twice.fts == once.fts;
  }

  /** A backfill that fails between its two statements leaves a row without text, which
      no repetition of it fills in. */
  lemma TornBackfillStays(s: Index, extractText: string -> string, id: Id)
    requires Sound(s) && id in Textless(s.archive) && extractText(s.archive[id].body) != ""
    ensures var once := Apply(s, Backfill(extractText, {}, Some(id)));
      Spoiled(once, id) && Spoiled(Apply(once, FullBackfill(once, extractText)), id)
  {
    var torn := Backfill(extractText, {}, Some(id));
    var once := Apply(s, torn);
    StepKeepsSound(s, torn);
    SpoiledAfter(s, torn, id);
    SpoiledAfter(once, FullBackfill(once, extractText), id);
  }
}
