/** xMailman's domain entities, as rows of the store's tables. */
module Model {
  import opened Wrappers

  /** Instants and durations, in seconds. */
  type Time = int

  const MINUTE: Time := 60
  const HOUR: Time := 60 * MINUTE
  const DAY: Time := 24 * HOUR

  type Id = nat

  /** A message pending delivery to the MTA. `originalSender` is the poster of a post
      delivery, and "" for anything the list itself originates. */
  datatype QueuedMessage = QueuedMessage(
    listId: Id,
    from: string,
    to: string,
    body: string,
    envelopeSender: string,
    originalSender: string,
    retries: nat,
    nextAttempt: Time,
    claimedAt: Option<Time>)
  {
    predicate IsPost() { originalSender != "" }
  }

  datatype ListType = Discussion | Newsletter | OtherType

  datatype SubscriptionStatus = Pending | Active | Held | Disabled

  datatype DeliveryMode = Regular | Digest | Nomail

  datatype DigestFrequency = Daily | Weekly | OtherFrequency

  /** The settings that decide what happens to mail. */
  datatype ListSettings = ListSettings(
    moderationEnabled: bool,
    maxMessageSize: nat,
    digestFrequency: DigestFrequency,
    bounceThreshold: int,
    heldExpiryDays: int,
    senderHeldNotice: bool)

  datatype List = List(
    id: Id,
    listName: string,
    domain: string,
    listType: ListType,
    settings: ListSettings,
    lastDigestSentAt: Option<Time>)
  {
    function Address(): string { listName + "@" + domain }
  }

  datatype Subscription = Subscription(
    id: Id,
    listId: Id,
    subscriberId: Id,
    deliveryMode: DeliveryMode,
    status: SubscriptionStatus,
    bounceCount: nat)

  datatype ArchiveEntry = ArchiveEntry(
    listId: Id,
    subject: string,
    from: string,
    body: string,
    bodyText: string,
    receivedAt: Time)

  /** A row of the full-text index. */
  datatype FtsRow = FtsRow(subject: string, bodyText: string)

  datatype HeldMessage = HeldMessage(
    listId: Id,
    sender: string,
    subject: string,
    body: string,
    expiresAt: Time)

  /** No row has the next id yet, or a later one. */
  ghost predicate FreshIds<T>(table: map<Id, T>, next: Id) { forall id :: id in table ==> id < next }

  lemma SubsetSize<T>(a: set<T>, b: set<T>)
    requires a <= b
    ensures |a| <= |b|
  {
    assert b == a + (b - a);
  }
}
