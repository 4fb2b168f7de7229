/**
 * The event broker: every subscriber has a channel of 64 slots; an event that
 * finds it full is dropped and counted.  Each subscription keeps a ghost
 * record of everything that happened to it, so that what holds after every
 * call holds in every run and every interleaving of calls.
 */
module Broker {
  import opened Events
  import opened Text

  /** What can happen to one subscription; a Publish is one Put or Miss for each live one. */
  datatype Act =
    | Put(e: MailEvent)   // a send that found room
    | Miss(e: MailEvent)  // a send that did not
    | Get(e: MailEvent)   // a receive by the subscriber
    | ReadMissed(n: nat)  // Missed(), which returned n and reset the count
    | Shut                // the channel was closed

  // ----- what a record says -----

  /** The events published to the subscription while it was live. */
  function Offered(record: seq<Act>): seq<MailEvent> {
    if record == [] then []
    else
      var a := record[|record| - 1];
      var prior := Offered(record[..|record| - 1]);
      if a.Put? || a.Miss? then prior + [a.e] else prior
  }

  function Received(record: seq<Act>): seq<MailEvent> {
    if record == [] then []
    else
      var a := record[|record| - 1];
      var prior := Received(record[..|record| - 1]);
      if a.Get? then prior + [a.e] else prior
  }

  /** The sum of what Missed() has reported. */
  function Reported(record: seq<Act>): nat {
    if record == [] then 0
    else
      var a := record[|record| - 1];
      Reported(record[..|record| - 1]) + if a.ReadMissed? then a.n else 0
  }

  function Closings(record: seq<Act>): nat {
    if record == [] then 0
    else Closings(record[..|record| - 1]) + if record[|record| - 1].Shut? then 1 else 0
  }

  /** `a` is what is left of `b` when some elements are struck out. */
  ghost predicate Subsequence(a: seq<MailEvent>, b: seq<MailEvent>) {
    if b == [] then a == []
    else
      var init, last := b[..|b| - 1], b[|b| - 1];
      Subsequence(a, init) || (a != [] && a[|a| - 1] == last && Subsequence(a[..|a| - 1], init))
  }

  /** Nothing is sent to the channel, and it is not closed, once it has been closed. */
  ghost predicate SafeChannel(record: seq<Act>) {
    forall i, j | 0 <= i < j < |record| && record[i].Shut? :: !record[j].Put? && !record[j].Miss? && !record[j].Shut?
  }

  /**
   * Conservation for one subscriber: what was offered is what was received,
   * is still buffered, or was missed; nothing is reordered or invented.
   */
  ghost predicate Conserved(record: seq<Act>, buffer: seq<MailEvent>, missed: nat, closed: bool) {
    && |Offered(record)| == |Received(record)| + |buffer| + missed + Reported(record)
    && Subsequence(Received(record) + buffer, Offered(record))
    && |buffer| <= BUFFER_SIZE
    && SafeChannel(record) && Closings(record) == (if closed then 1 else 0) && (closed <==> Shut in record)
  }

  lemma RecordMore(record: seq<Act>, a: Act)
    ensures Offered(record + [a]) == if a.Put? || a.Miss? then Offered(record) + [a.e] else Offered(record)
    ensures Received(record + [a]) == if a.Get? then Received(record) + [a.e] else Received(record)
    ensures Reported(record + [a]) == Reported(record) + if a.ReadMissed? then a.n else 0
    ensures Closings(record + [a]) == Closings(record) + if a.Shut? then 1 else 0
  {
    assert (record + [a])[..|record|] == record;
  }

  lemma SubsequenceGrows(a: seq<MailEvent>, b: seq<MailEvent>, e: MailEvent)
    requires Subsequence(a, b)
    ensures Subsequence(a, b + [e]) && Subsequence(a + [e], b + [e])
  {
    assert (b + [e])[..|b|] == b && (a + [e])[..|a|] == a;
  }

  lemma SafeMore(record: seq<Act>, a: Act)
    requires SafeChannel(record) && (Shut in record ==> a.Get? || a.ReadMissed?)
    ensures SafeChannel(record + [a])
  {
    forall i, j | 0 <= i < j < |record + [a]| && (record + [a])[i].Shut?
      ensures var x := (record + [a])[j]; !x.Put? && !x.Miss? && !x.Shut?
    {
      assert (record + [a])[i] == record[i] && record[i] in record;
    }
  }

  // ----- one step keeps it -----

  lemma PutConserves(record: seq<Act>, buffer: seq<MailEvent>, missed: nat, e: MailEvent)
    requires Conserved(record, buffer, missed, false)
    ensures |buffer| < BUFFER_SIZE ==> Conserved(record + [Put(e)], buffer + [e], missed, false)
    ensures |buffer| == BUFFER_SIZE ==> Conserved(record + [Miss(e)], buffer, missed + 1, false)
  {
    var a := if |buffer| < BUFFER_SIZE then Put(e) else Miss(e);
    RecordMore(record, a);
    SafeMore(record, a);
    SubsequenceGrows(Received(record) + buffer, Offered(record), e);
    assert Received(record) + (buffer + [e]) == Received(record) + buffer + [e];
  }

  lemma GetConserves(record: seq<Act>, buffer: seq<MailEvent>, missed: nat, closed: bool)
    requires Conserved(record, buffer, missed, closed) && buffer != []
    ensures Conserved(record + [Get(buffer[0])], buffer[1..], missed, closed)
  {
    RecordMore(record, Get(buffer[0]));
    SafeMore(record, Get(buffer[0]));
    assert Received(record) + [buffer[0]] + buffer[1..] == Received(record) + buffer;
  }

  lemma OtherConserves(record: seq<Act>, buffer: seq<MailEvent>, missed: nat, closed: bool)
    requires Conserved(record, buffer, missed, closed)
    ensures Conserved(record + [ReadMissed(missed)], buffer, 0, closed)
    ensures !closed ==> Conserved(record + [Shut], buffer, missed, true)
  {
    RecordMore(record, ReadMissed(missed));
    SafeMore(record, ReadMissed(missed));
    if !closed {
      RecordMore(record, Shut);
      SafeMore(record, Shut);
    }
  }

  // ----- every run of one subscription -----

  datatype Channel = Channel(buffer: seq<MailEvent>, missed: nat, closed: bool, record: seq<Act>)

  /** What others and the subscriber may do; `CloseIt` is any of the three Close calls. */
  datatype Call = Offer(e: MailEvent) | Take | Ask | CloseIt

  /** What a call does, as the broker's list of live subscriptions lets it through. */
  function Effect(ch: Channel, call: Call): Option<Act> {
    match call
    case Offer(e) => if ch.closed then None else if |ch.buffer| < BUFFER_SIZE then Some(Put(e)) else Some(Miss(e))
    case Take => if ch.buffer == [] then None else Some(Get(ch.buffer[0]))
    case Ask => Some(ReadMissed(ch.missed))
    case CloseIt => if ch.closed then None else Some(Shut)
  }

  function Did(ch: Channel, a: Act): Channel {
    var record := ch.record + [a];
    match a
    case Put(e) => ch.(buffer := ch.buffer + [e], record := record)
    case Miss(e) => ch.(missed := ch.missed + 1, record := record)
    case Get(_) => ch.(buffer := if ch.buffer == [] then [] else ch.buffer[1..], record := record)
    case ReadMissed(_) => ch.(missed := 0, record := record)
    case Shut => ch.(closed := true, record := record)
  }

  function After(ch: Channel, call: Call): Channel {
    var a := Effect(ch, call);
    if a.None? then ch else Did(ch, a.value)
  }

  function AfterAll(calls: seq<Call>): Channel {
    if calls == [] then Channel([], 0, false, []) else After(AfterAll(calls[..|calls| - 1]), calls[|calls| - 1])
  }

  /**
   * Broker conservation, over every interleaving of publishes, receives,
   * readings of the count and closings.
   */
  lemma {:induction false} EveryRunConserves(calls: seq<Call>)
    ensures Balanced(AfterAll(calls))
  {
    if calls != [] {
      EveryRunConserves(calls[..|calls| - 1]);
      CallConserves(AfterAll(calls[..|calls| - 1]), calls[|calls| - 1]);
    }
  }

  ghost predicate Balanced(ch: Channel) { Conserved(ch.record, ch.buffer, ch.missed, ch.closed) }

  lemma CallConserves(ch: Channel, call: Call)
    requires Balanced(ch)
    ensures Balanced(After(ch, call))
  {
    match call {
      case Offer(e) =>
        if !ch.closed {
          PutConserves(ch.record, ch.buffer, ch.missed, e);
        }
      case Take =>
        if ch.buffer != [] {
          GetConserves(ch.record, ch.buffer, ch.missed, ch.closed);
        }
      case Ask => OtherConserves(ch.record, ch.buffer, ch.missed, ch.closed);
      case CloseIt => OtherConserves(ch.record, ch.buffer, ch.missed, ch.closed);
    }
  }

  /** The events offered before the first Close: what the subscriber was entitled to see. */
  function Entitled(calls: seq<Call>): seq<MailEvent> {
    if calls == [] then []
    else
      var init, call := calls[..|calls| - 1], calls[|calls| - 1];
      if call.Offer? && CloseIt !in init then Entitled(init) + [call.e] else Entitled(init)
  }

  /** The record counts exactly the events published while the subscription was live. */
  lemma {:induction false} OfferedWhileLive(calls: seq<Call>)
    ensures Offered(AfterAll(calls).record) == Entitled(calls) && (AfterAll(calls).closed <==> CloseIt in calls)
  {
    if calls != [] {
      var init, call := calls[..|calls| - 1], calls[|calls| - 1];
      OfferedWhileLive(init);
      OfferedMore(AfterAll(init), call);
      assert CloseIt in calls <==> CloseIt in init || call == CloseIt by {
        assert calls == init + [call];
      }
    }
  }

  lemma OfferedMore(ch: Channel, call: Call)
    ensures Offered(After(ch, call).record)
         == if call.Offer? && !ch.closed then Offered(ch.record) + [call.e] else Offered(ch.record)
    ensures After(ch, call).closed == (ch.closed || call == CloseIt)
  {
    var a := Effect(ch, call);
    if a.Some? {
      RecordMore(ch.record, a.value);
    }
  }

  /** With room for everything nothing is lost: a subscriber that is never 64 behind sees every event, in order. */
  lemma {:induction false} NeverFullNeverMisses(calls: seq<Call>)
    requires forall n | 0 <= n < |calls| && calls[n].Offer? :: |AfterAll(calls[..n]).buffer| < BUFFER_SIZE
    ensures var ch := AfterAll(calls); ch.missed == 0 && Received(ch.record) + ch.buffer == Entitled(calls)
  {
    if calls != [] {
      var init, call := calls[..|calls| - 1], calls[|calls| - 1];
      forall n | 0 <= n < |init| && init[n].Offer? ensures |AfterAll(init[..n]).buffer| < BUFFER_SIZE {
        assert init[n] == calls[n] && init[..n] == calls[..n];
      }
      NeverFullNeverMisses(init);
      OfferedWhileLive(init);
      KeepsUp(AfterAll(init), call);
    }
  }

  lemma KeepsUp(ch: Channel, call: Call)
    requires ch.missed == 0 && (call.Offer? ==> |ch.buffer| < BUFFER_SIZE)
    ensures var ch' := After(ch, call);
            && ch'.missed == 0
            && Received(ch'.record) + ch'.buffer
            == if call.Offer? && !ch.closed then Received(ch.record) + ch.buffer + [call.e]
               else Received(ch.record) + ch.buffer
  {
    var a := Effect(ch, call);
    if a.Some? {
      RecordMore(ch.record, a.value);
    }
    if ch.buffer != [] {
      assert [ch.buffer[0]] + ch.buffer[1..] == ch.buffer;
    }
  }

  lemma ClosedAtOnce()
    ensures AfterAll([CloseIt]) == After(AfterAll([]), CloseIt)
  {
    assert [CloseIt][..0] == [];
  }

  // ----- how much fits -----

  /** How many events came, while the channel was open, when 64 were waiting in it. */
  function Overruns(calls: seq<Call>): nat {
    if calls == [] then 0
    else
      var init, call := calls[..|calls| - 1], calls[|calls| - 1];
      Overruns(init) + if call.Offer? && CloseIt !in init && |AfterAll(init).buffer| == 64 then 1 else 0
  }

  /** Just these are counted as missed, and Missed() reports all it has not reported before. */
  lemma {:induction false} MissesAreOverruns(calls: seq<Call>)
    ensures Reported(AfterAll(calls).record) + AfterAll(calls).missed == Overruns(calls)
    ensures calls != [] && calls[|calls| - 1] == Ask ==> Reported(AfterAll(calls).record) == Overruns(calls)
  {
    if calls != [] {
      var init, call := calls[..|calls| - 1], calls[|calls| - 1];
      MissesAreOverruns(init);
      OfferedWhileLive(init);
      EveryRunConserves(init);
      MissedMore(AfterAll(init), call);
    }
  }

  lemma MissedMore(ch: Channel, call: Call)
    requires |ch.buffer| <= 64
    ensures var ch' := After(ch, call);
            && Reported(ch'.record) + ch'.missed
            == Reported(ch.record) + ch.missed + (if call.Offer? && !ch.closed && |ch.buffer| == 64 then 1 else 0)
            && (call == Ask ==> ch'.missed == 0)
  {
    var a := Effect(ch, call);
    if a.Some? {
      RecordMore(ch.record, a.value);
    }
  }

  /** A receive gets the oldest event that waits, whenever one does, also when the channel is closed. */
  lemma {:induction false} TakesAreReceived(calls: seq<Call>)
    ensures var buffer := AfterAll(calls).buffer;
            Received(AfterAll(calls + [Take]).record)
            == Received(AfterAll(calls).record) + if buffer == [] then [] else [buffer[0]]
  {
    var ch := AfterAll(calls);
    assert (calls + [Take])[..|calls|] == calls;
    if ch.buffer != [] {
      RecordMore(ch.record, Get(ch.buffer[0]));
    }
  }

  // ----- the objects -----

  class Subscription {
    var buffer: seq<MailEvent>  // the channel
    var closed: bool            // the channel is closed
    var missed: nat
    ghost var record: seq<Act>

    ghost function View(): Channel
      reads this
    {
      Channel(buffer, missed, closed, record)
    }

    ghost predicate Valid()
      reads this
    {
      Balanced(View())
    }

    constructor ()
      ensures Valid() && View() == AfterAll([])
    {
      buffer, closed, missed, record := [], false, 0, [];
    }

    /** The non-blocking send of `Publish`; sending on a closed channel would panic. */
    method Send(e: MailEvent)
      requires Valid() && !closed
      modifies this
      ensures Valid() && View() == After(old(View()), Offer(e))
    {
      CallConserves(View(), Offer(e));
      TrySend(e);
    }

    method TrySend(e: MailEvent)
      requires !closed
      modifies this
      ensures View() == After(old(View()), Offer(e))
    {
      if |buffer| < BUFFER_SIZE {
        buffer := buffer + [e];
        record := record + [Put(e)];
      } else {
        missed := missed + 1;
        record := record + [Miss(e)];
      }
    }

    /** A receive that does not block: nothing when the channel is empty, and then `!ok` when it is closed. */
    method Receive() returns (got: Option<MailEvent>, ok: bool)
      requires Valid()
      modifies this
      ensures Valid() && View() == After(old(View()), Take)
      ensures got == if old(buffer) == [] then None else Some(old(buffer)[0])
      ensures ok == !(got == None && closed)
    {
      CallConserves(View(), Take);
      got, ok := None, !closed;
      if buffer != [] {
        got, ok := Some(buffer[0]), true;
        record := record + [Get(buffer[0])];
        buffer := buffer[1..];
      }
    }

    /** `Missed` */
    method Missed() returns (n: nat)
      requires Valid()
      modifies this
      ensures Valid() && View() == After(old(View()), Ask) && n == old(missed)
    {
      CallConserves(View(), Ask);
      n, missed := missed, 0;
      record := record + [ReadMissed(n)];
    }

    /** Closing a closed channel would panic. */
    method CloseChannel()
      requires Valid() && !closed
      modifies this
      ensures Valid() && View() == After(old(View()), CloseIt)
    {
      CallConserves(View(), CloseIt);
      closed := true;
      record := record + [Shut];
    }
  }

  method NewSubscription(closed: bool) returns (s: Subscription)
    ensures fresh(s) && s.Valid() && s.closed == closed && s.View() == AfterAll(if closed then [CloseIt] else [])
  {
    s := new Subscription();
    if closed {
      ClosedAtOnce();
      s.CloseChannel();
    }
  }

  class Broker {
    var subs: set<Subscription>
    var closed: bool
    ghost var all: set<Subscription>  // every subscription ever handed out

    /** A subscription is listed exactly while its channel is open; a closed broker lists none. */
    ghost predicate Valid()
      reads this, all
    {
      && (forall s <- all :: s.Valid() && (s in subs <==> !s.closed))
      && subs <= all
      && (closed ==> subs == {})
    }

    constructor ()
      ensures Valid() && subs == {} && all == {} && !closed
    {
      subs, all, closed := {}, {}, false;
    }

    /** `Subscribe` */
    method Subscribe() returns (s: Subscription)
      requires Valid()
      modifies this
      ensures Valid() && fresh(s) && all == old(all) + {s} && closed == old(closed)
      ensures s.View() == AfterAll(if closed then [CloseIt] else [])
    {
      s := NewSubscription(closed);
      all := all + {s};
      if !closed {
        subs := subs + {s};
      }
    }

    /** `remove`, and so `Subscription.Close`; the second time it does nothing. */
    method Remove(s: Subscription)
      requires Valid() && s in all
      modifies this, s
      ensures Valid() && all == old(all) && closed == old(closed)
      ensures s.View() == After(old(s.View()), CloseIt)
    {
      if s in subs {
        subs := subs - {s};
        s.CloseChannel();
      }
    }

    /** `Publish`: every subscription is offered the event once, and those closed before it stay as they are. */
    method Publish(e: MailEvent)
      requires Valid()
      modifies subs
      ensures Valid()
      ensures forall s <- all :: s.View() == After(old(s.View()), Offer(e))
    {
      SendEach(subs, e);
    }

    /** `Close` */
    method Close()
      requires Valid()
      modifies this, subs
      ensures Valid() && closed && subs == {} && all == old(all)
      ensures forall s <- all :: s.View() == After(old(s.View()), CloseIt)
    {
      closed := true;
      CloseEach(subs);
      subs := {};
    }
  }

  /** The loop of `Publish`, in any order. */
  method SendEach(open: set<Subscription>, e: MailEvent)
    requires forall s <- open :: s.Valid() && !s.closed
    modifies open
    ensures forall s <- open :: s.Valid() && s.View() == After(old(s.View()), Offer(e))
  {
    var left := open;
    while left != {}
      invariant left <= open
      invariant forall s <- left :: unchanged(s)
      invariant forall s <- open - left :: s.Valid() && s.View() == After(old(s.View()), Offer(e))
      decreases |left|
    {
      var s :| s in left;
      left := left - {s};
      s.Send(e);
    }
  }

  /** The loop of `Close`; its lock is held, so nobody sees the list half emptied. */
  method CloseEach(open: set<Subscription>)
    requires forall s <- open :: s.Valid() && !s.closed
    modifies open
    ensures forall s <- open :: s.Valid() && s.View() == After(old(s.View()), CloseIt)
  {
    var left := open;
    while left != {}
      invariant left <= open
      invariant forall s <- left :: unchanged(s)
      invariant forall s <- open - left :: s.Valid() && s.View() == After(old(s.View()), CloseIt)
      decreases |left|
    {
      var s :| s in left;
      left := left - {s};
      s.CloseChannel();
    }
  }
}
