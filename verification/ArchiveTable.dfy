/** The archive and its full-text index as tables: the effect of each write on both. */
module ArchiveTable {
  import opened Wrappers
  import opened Model

  datatype Index = Index(archive: map<Id, ArchiveEntry>, fts: map<Id, FtsRow>, next: Id)

  /** `indexed` says whether the second of ArchiveMessage's two statements succeeded. A
      backfill makes two statements for each entry without text; it may fail between two
      entries, having filled in those in `filled`, or between the two statements for
      `torn`. */
  datatype Step =
    | Archive(entry: ArchiveEntry, indexed: bool)
    | Backfill(extractText: string -> string, filled: set<Id>, torn: Option<Id>)
    | DeleteList(listId: Id)

  function Apply(s: Index, step: Step): Index {
    match step
    case Archive(e, indexed) =>
      Index(s.archive[s.next := e],
            if indexed then s.fts[s.next := FtsRow(e.subject, e.bodyText)] else s.fts,
            s.next + 1)
    case Backfill(extractText, filled, torn) =>
      var reached := if torn.Some? then filled + {torn.value} else filled;
      Index(WithTexts(s.archive, extractText, reached), WithFtsTexts(s.archive, s.fts, extractText, filled), s.next)
    case DeleteList(listId) =>
      Index(s.archive - EntriesOf(s.archive, listId), s.fts - EntriesOf(s.archive, listId), s.next)
  }

  /** The keys of a list's entries. */
  function EntriesOf(archive: map<Id, ArchiveEntry>, listId: Id): set<Id> {
    set id | id in archive && archive[id].listId == listId
  }

  /** The entries a backfill looks for. */
  function Textless(archive: map<Id, ArchiveEntry>): set<Id> {
    set id | id in archive && archive[id].bodyText == ""
  }

  /** A backfill in which nothing fails. */
  function FullBackfill(s: Index, extractText: string -> string): Step {
    Backfill(extractText, Textless(s.archive), None)
  }

  /** The first statement, for the textless among `ids`. */
  function WithTexts(archive: map<Id, ArchiveEntry>, extractText: string -> string, ids: set<Id>)
    : map<Id, ArchiveEntry>
  {
    map id | id in archive ::
      if id in ids && archive[id].bodyText == "" then archive[id].(bodyText := extractText(archive[id].body))
      else archive[id]
  }

  /** The second statement, for the textless among `ids`. */
  function WithFtsTexts(archive: map<Id, ArchiveEntry>, fts: map<Id, FtsRow>, extractText: string -> string,
                        ids: set<Id>): map<Id, FtsRow> {
    map id | id in fts ::
      if id in ids && id in archive && archive[id].bodyText == ""
      then fts[id].(bodyText := extractText(archive[id].body))
      else fts[id]
  }

  function ReceivedSince(archive: map<Id, ArchiveEntry>, listId: Id, since: Time): map<Id, ArchiveEntry> {
    map id | id in archive && archive[id].listId == listId && archive[id].receivedAt > since :: archive[id]
  }
}
