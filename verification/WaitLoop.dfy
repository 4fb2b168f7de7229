/**
 * One wake-up of `waitMessage`, on the subscription and store objects: drain
 * the channel, decide whether to look at the store, look.  How wake-ups
 * interleave with saves and publishes is the subject of WaitProtocol.
 */
module WaitLoop {
  import opened Seqs
  import opened Text
  import opened Mail
  import opened Filters
  import opened Events
  import opened StoreSpec
  import opened Broker
  import opened Store
  import Paging

  datatype Outcome = KeepWaiting | Reply(m: Message) | NoContent | ShuttingDown

  predicate AnyCreated(events: seq<MailEvent>) { exists e <- events :: e.Created? }

  /** Receives until the channel is empty; `open` is false when it turned out to be closed. */
  method Drain(sub: Subscription) returns (created: bool, open: bool)
    requires sub.Valid()
    modifies sub
    ensures sub.Valid() && sub.buffer == [] && sub.closed == old(sub.closed) && sub.missed == old(sub.missed)
    ensures created == AnyCreated(old(sub.buffer)) && open == !sub.closed
    ensures Received(sub.record) == Received(old(sub.record)) + old(sub.buffer)
  {
    created, open := false, true;
    var drained := false;
    ghost var seen: seq<MailEvent> := [];
    assert Received(sub.record) == Received(old(sub.record)) + seen;
    while !drained
      invariant sub.Valid() && sub.closed == old(sub.closed) && sub.missed == old(sub.missed)
      invariant seen + sub.buffer == old(sub.buffer) && created == AnyCreated(seen)
      invariant Received(sub.record) == Received(old(sub.record)) + seen
      invariant drained ==> sub.buffer == [] && open == !sub.closed
      decreases |sub.buffer|, !drained
    {
      ghost var before, record := sub.buffer, sub.record;
      var e, ok := sub.Receive();
      if e.Some? {
        RecordMore(record, Get(e.value));
        Next(seen, before);
        Associative(Received(old(sub.record)), seen, [e.value]);
        created := created || e.value.Created?;
        seen := seen + [e.value];
      } else {
        drained, open := true, ok;
      }
    }
    assert seen + [] == seen;
  }

  lemma Next(seen: seq<MailEvent>, buffer: seq<MailEvent>)
    requires buffer != []
    ensures seen + buffer == seen + [buffer[0]] + buffer[1..]
    ensures AnyCreated(seen + [buffer[0]]) == (AnyCreated(seen) || buffer[0].Created?)
  {
    assert AnyCreated(seen) ==> AnyCreated(seen + [buffer[0]]) by {
      if e :| e in seen && e.Created? {
        assert e in seen + [buffer[0]];
      }
    }
    assert buffer[0] in seen + [buffer[0]];
  }

  /** A look at the store: the newest match is the answer, if there is one. */
  method Look(store: MemoryStore, f: Filter, otherwise: Outcome) returns (r: Outcome)
    requires store.Valid()
    ensures var list := Paging.PageOf(store.now.entries, f, 0, 0).shown;
            r == if list != [] then Reply(list[0].item.msg) else otherwise
  {
    var m := store.Latest(f);
    r := if m.Some? then Reply(m.value) else otherwise;
  }

  /** The look before the loop: a message that is already stored is answered at once. */
  method FirstLook(store: MemoryStore, f: Filter) returns (r: Outcome)
    requires store.Valid()
    ensures r.Reply? <==> exists e <- store.now.entries :: Match(f, e.item.msg)
    ensures r.Reply? ==>
              exists e <- store.now.entries ::
                && r.m == e.item.msg && Match(f, r.m)
                && forall x <- store.now.entries | x.no > e.no :: !Match(f, x.item.msg)
    ensures !r.Reply? ==> r == KeepWaiting
  {
    NewestIsLatest(store, f);
    r := Look(store, f, KeepWaiting);
  }

  /** The look when the timer has fired: without a match there is no content. */
  method LastLook(store: MemoryStore, f: Filter) returns (r: Outcome)
    requires store.Valid()
    ensures r.Reply? <==> exists e <- store.now.entries :: Match(f, e.item.msg)
    ensures r.Reply? ==> Match(f, r.m)
    ensures !r.Reply? ==> r == NoContent
  {
    NewestIsLatest(store, f);
    r := Look(store, f, NoContent);
  }

  /** The head of the list is the match that arrived last. */
  lemma NewestIsLatest(store: MemoryStore, f: Filter)
    requires store.Valid()
    ensures var list := Paging.PageOf(store.now.entries, f, 0, 0).shown;
            && (list != [] <==> exists e <- store.now.entries :: Match(f, e.item.msg))
            && (list != [] ==> list[0] in store.now.entries && Match(f, list[0].item.msg)
                               && forall x <- store.now.entries | x.no > list[0].no :: !Match(f, x.item.msg))
  {
    ReachedIsWellFormed(store.lim, store.ops, store.now);
    var list := Paging.PageOf(store.now.entries, f, 0, 0).shown;
    Paging.PageIsExact(store.now.entries, f, 0, 0);
    forall x | x in list ensures x.no <= list[0].no {
      var i :| 0 <= i < |list| && list[i] == x;
    }
    assert list != [] ==> list[0] in list;
    if e :| e in store.now.entries && Match(f, e.item.msg) {
      assert e in list;
    }
  }

  /**
   * One turn of the loop: the store is looked at exactly when a creation was
   * received or something was missed, and a match found there is the answer.
   */
  method WakeUp(sub: Subscription, store: MemoryStore, f: Filter) returns (r: Outcome)
    requires sub.Valid() && store.Valid()
    modifies sub
    ensures sub.Valid() && (r == ShuttingDown <==> sub.closed) && sub.closed == old(sub.closed) && sub.buffer == []
    ensures var list := Paging.PageOf(store.now.entries, f, 0, 0).shown;
            !sub.closed ==>
              if (AnyCreated(old(sub.buffer)) || old(sub.missed) > 0) && list != [] then r == Reply(list[0].item.msg)
              else r == KeepWaiting
    ensures sub.missed == if sub.closed || AnyCreated(old(sub.buffer)) then old(sub.missed) else 0
  {
    var created, open := Drain(sub);
    if !open {
      return ShuttingDown;
    }
    if !created {
      var missed := sub.Missed();
      if missed == 0 {
        return KeepWaiting;
      }
    }
    r := Look(store, f, KeepWaiting);
  }
}
