/** What the store tells its listeners. */
module Events {
  datatype Event<Id> = Created(id: Id) | Deleted(id: Id) | Cleared

  type MailEvent = Event<string>

  /** The slots of a subscriber's channel. */
  const BUFFER_SIZE := 64

  function Deletions<Id>(ids: seq<Id>): seq<Event<Id>> {
    seq(|ids|, i requires 0 <= i < |ids| => Deleted(ids[i]))
  }
}
