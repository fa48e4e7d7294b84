/** The outbound queue as a table: the effect of each of the store's queue calls. */
module QueueTable {
  import opened Wrappers
  import opened Model

  type Queue = map<Id, QueuedMessage>

  predicate Eligible(q: QueuedMessage, now: Time) {
    q.claimedAt.None? && q.nextAttempt <= now
  }

  /** The claim order: by next attempt, then by primary key. */
  predicate NoLater(rows: Queue, a: Id, b: Id)
    requires a in rows && b in rows
  {
    rows[a].nextAttempt < rows[b].nextAttempt ||
    (rows[a].nextAttempt == rows[b].nextAttempt && a <= b)
  }

  ghost predicate IsNext(rows: Queue, now: Time, id: Id) {
    && id in rows && Eligible(rows[id], now)
    && forall j :: j in rows && Eligible(rows[j], now) ==> NoLater(rows, id, j)
  }

  function NewRow(listId: Id, from: string, to: string, body: string,
                  envelopeSender: string, originalSender: string, clock: Time): QueuedMessage {
    QueuedMessage(listId, from, to, body, envelopeSender, originalSender, 0, clock, None)
  }

  function Claim(rows: Queue, id: Id, now: Time): Queue
    requires id in rows
  {
    rows[id := rows[id].(claimedAt := Some(now))]
  }

  function Requeue(rows: Queue, id: Id, nextAttempt: Time): Queue {
    if id !in rows then rows
    else rows[id := rows[id].(claimedAt := None, retries := rows[id].retries + 1, nextAttempt := nextAttempt)]
  }

  function Remove(rows: Queue, id: Id): Queue { rows - {id} }

  /** Exponential backoff: 1m, 5m, 15m, 1h, then 24h. */
  function BackoffDuration(retries: int): Time {
    if retries < 1 then MINUTE
    else if retries < 2 then 5 * MINUTE
    else if retries < 3 then 15 * MINUTE
    else if retries < 4 then HOUR
    else DAY
  }

  const DEFAULT_MAX_RETRIES := 8

  /** The attempt cap: the configured one if positive, else the default. */
  function MaxRetries(configured: int): (max: nat)
    ensures max >= 1
  {
    if configured > 0 then configured else DEFAULT_MAX_RETRIES
  }

  /** The failure notice of a given-up post: it goes to the poster, from the list, and
      has no original sender of its own. */
  function NoticeFor(q: QueuedMessage, body: string, clock: Time): QueuedMessage {
    NewRow(q.listId, q.from, q.originalSender, body, q.from, "", clock)
  }
}
