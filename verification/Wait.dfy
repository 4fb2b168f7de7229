/**
 * The wait request against concurrent saves and deletions: every
 * interleaving of the store's locked sections, the broker's sends and the
 * waiter's own steps.  Sends go into a buffer of 64 and are dropped, and
 * counted, when it is full.
 */
module WaitProtocol {
  import opened Events

  type Id = nat

  datatype Reply = Found(id: Id) | NoContent | Unavailable

  /** Where the waiter stands in `waitMessage`. */
  datatype Pc =
    | Starting               // before Subscribe
    | Checking               // subscribed, before the first look at the store
    | Blocked                // in the select
    | Draining(created: bool)
    | Drained(created: bool) // the buffer was seen empty, before `!created && Missed() == 0`
    | Rechecking             // before the look at the store after a wake-up
    | TimedOut               // the timer fired, before the last look at the store
    | Done(reply: Reply)

  /**
   * `pending` holds, for every thread past its locked section, the events it
   * still has to publish.  `counting` says that the broker's lock is held by a
   * publisher whose send failed and whose `missed.Add` is still to come.
   */
  datatype Sys = Sys(
    stored: seq<Id>,
    nextId: Id,
    pending: map<nat, seq<Event<Id>>>,
    counting: bool,
    brokerClosed: bool,
    subscribed: bool,
    buffer: seq<Event<Id>>,
    missed: nat,
    pc: Pc)

  ghost predicate Init(s: Sys) {
    && s.pending == map[] && !s.counting && !s.brokerClosed && !s.subscribed
    && s.buffer == [] && s.missed == 0 && s.pc == Starting
    && forall id <- s.stored :: id < s.nextId
  }

  // ----- the store -----

  function Latest(wanted: Id -> bool, stored: seq<Id>): (r: Reply)
    ensures r.Found? ==> r.id in stored && wanted(r.id)
    ensures r == NoContent || r.Found?
  {
    if stored == [] then NoContent
    else
      var last := stored[|stored| - 1];
      if wanted(last) then Found(last) else Latest(wanted, stored[..|stored| - 1])
  }

  lemma {:induction false} LatestFinds(wanted: Id -> bool, stored: seq<Id>)
    ensures Latest(wanted, stored) == NoContent <==> forall id <- stored :: !wanted(id)
  {
    if stored != [] {
      LatestFinds(wanted, stored[..|stored| - 1]);
      assert stored == stored[..|stored| - 1] + [stored[|stored| - 1]];
    }
  }

  function Remaining(stored: seq<Id>, gone: set<Id>): seq<Id> {
    if stored == [] then []
    else
      var last := stored[|stored| - 1];
      Remaining(stored[..|stored| - 1], gone) + if last in gone then [] else [last]
  }

  // ----- steps -----

  datatype Step =
    | Save(thread: nat, evicted: nat)
    | Delete(thread: nat, gone: set<Id>, events: seq<Event<Id>>)
    | Send(thread: nat)
    | CountMiss
    | CloseBroker
    | Subscribe
    | Check
    | Receive
    | Drain
    | Decide
    | Recheck
    | TimerFires
    | TimerCheck
    | Cancel

  /** Closed by the broker: a receive returns `!ok` once the buffer is empty. */
  predicate ChannelClosed(s: Sys) { s.brokerClosed && s.pc != Starting }

  predicate Enabled(s: Sys, step: Step) {
    match step
    case Save(thread, evicted) => thread !in s.pending && evicted <= |s.stored|
    case Delete(thread, gone, events) => thread !in s.pending && forall e <- events :: !e.Created?
    case Send(thread) => !s.counting && thread in s.pending && s.pending[thread] != []
    case CountMiss => s.counting
    case CloseBroker => !s.counting
    case Subscribe => s.pc == Starting && !s.counting
    case Check => s.pc == Checking
    case Receive => s.pc == Blocked && (s.buffer != [] || ChannelClosed(s))
    case Drain => s.pc.Draining?
    case Decide => s.pc.Drained?
    case Recheck => s.pc == Rechecking
    case TimerFires => s.pc == Blocked
    case TimerCheck => s.pc == TimedOut
    case Cancel => s.pc == Blocked
  }

  function Publish(s: Sys, thread: nat): Sys
    requires thread in s.pending && s.pending[thread] != []
  {
    var e, rest := s.pending[thread][0], s.pending[thread][1..];
    var s' := s.(pending := if rest == [] then s.pending - {thread} else s.pending[thread := rest]);
    if !s.subscribed then s'
    else if |s.buffer| < BUFFER_SIZE then s'.(buffer := s.buffer + [e])
    else s'.(counting := true)
  }

  function Take(s: Sys, created: bool): Sys
    requires s.buffer != []
  {
    s.(buffer := s.buffer[1..], pc := Draining(created || s.buffer[0].Created?))
  }

  /** A look at the store: answer with the newest match, else `otherwise`. */
  function Look(wanted: Id -> bool, s: Sys, otherwise: Pc): Sys {
    var r := Latest(wanted, s.stored);
    s.(pc := if r.Found? then Done(r) else otherwise)
  }

  function Do(wanted: Id -> bool, s: Sys, step: Step): Sys
    requires Enabled(s, step)
  {
    match step
    case Save(thread, evicted) =>
      s.(stored := s.stored[evicted..] + [s.nextId], nextId := s.nextId + 1,
         pending := s.pending[thread := Deletions(s.stored[..evicted]) + [Created(s.nextId)]])
    case Delete(thread, gone, events) =>
      s.(stored := Remaining(s.stored, gone),
         pending := if events == [] then s.pending else s.pending[thread := events])
    case Send(thread) => Publish(s, thread)
    case CountMiss => s.(counting := false, missed := s.missed + 1)
    case CloseBroker => s.(brokerClosed := true, subscribed := false)
    case Subscribe => s.(subscribed := !s.brokerClosed, pc := Checking)
    case Check => Look(wanted, s, Blocked)
    case Receive => if s.buffer == [] then s.(pc := Done(Unavailable)) else Take(s, false)
    case Drain =>
      if s.buffer != [] then Take(s, s.pc.created)
      else if ChannelClosed(s) then s.(pc := Done(Unavailable))
      else s.(pc := Drained(s.pc.created))
    case Decide =>
      if s.pc.created then s.(pc := Rechecking)
      else s.(missed := 0, pc := if s.missed == 0 then Blocked else Rechecking)
    case Recheck => Look(wanted, s, Blocked)
    case TimerFires => s.(pc := TimedOut)
    case TimerCheck => Look(wanted, s, Done(NoContent))
    case Cancel => s.(pc := Done(Unavailable))
  }

  ghost predicate IsRun(wanted: Id -> bool, s: Sys, steps: seq<Step>)
    decreases |steps|, 0
  {
    steps != [] ==>
      IsRun(wanted, s, steps[..|steps| - 1]) && Enabled(Run(wanted, s, steps[..|steps| - 1]), steps[|steps| - 1])
  }

  ghost function Run(wanted: Id -> bool, s: Sys, steps: seq<Step>): Sys
    requires IsRun(wanted, s, steps)
    decreases |steps|, 1
  {
    if steps == [] then s else Do(wanted, Run(wanted, s, steps[..|steps| - 1]), steps[|steps| - 1])
  }

  /**
   * The one harmful step: between a failed send and its count, a waiter that
   * has received no creation reads a count of zero and goes back to sleep.
   */
  predicate Hasty(s: Sys, step: Step) {
    step.Decide? && s.pc.Drained? && !s.pc.created && s.counting && s.missed == 0
  }

  /** No step of the run was hasty; so it is, among others, when a failed send and its count are one step. */
  ghost predicate Calm(wanted: Id -> bool, s: Sys, steps: seq<Step>)
    requires IsRun(wanted, s, steps)
  {
    steps != [] ==>
      Calm(wanted, s, steps[..|steps| - 1]) && !Hasty(Run(wanted, s, steps[..|steps| - 1]), steps[|steps| - 1])
  }

  // ----- the invariant -----

  /** The message's event is still to be published by the thread that saved it. */
  ghost predicate Unpublished(s: Sys, id: Id) {
    exists t <- s.pending :: Created(id) in s.pending[t]
  }

  /** A drop that the waiter has not taken note of; in a calm run it finds something to receive first. */
  predicate Noted(calm: bool, s: Sys) {
    (s.missed > 0 || s.counting) && (calm && s.pc == Blocked ==> s.buffer != [])
  }

  /** Why a waiter past its first look need not know of a stored match yet. */
  ghost predicate Covered(calm: bool, s: Sys, id: Id) {
    || Unpublished(s, id)
    || Created(id) in s.buffer
    || ((s.pc.Draining? || s.pc.Drained?) && s.pc.created)
    || Noted(calm, s)
    || ChannelClosed(s)
  }

  predicate Watching(pc: Pc) { pc == Blocked || pc.Draining? || pc.Drained? }

  ghost predicate Inv(calm: bool, wanted: Id -> bool, s: Sys) {
    && |s.buffer| <= BUFFER_SIZE
    && (s.pc == Starting ==> !s.subscribed && !s.counting)
    && (s.pc != Starting ==> s.subscribed || s.brokerClosed)
    && (Watching(s.pc) ==> forall id <- s.stored :: wanted(id) ==> Covered(calm, s, id))
  }

  lemma SaveKeeps(calm: bool, wanted: Id -> bool, s: Sys, step: Step)
    requires Inv(calm, wanted, s) && step.Save? && Enabled(s, step)
    ensures Inv(calm, wanted, Do(wanted, s, step))
  {
    var s' := Do(wanted, s, step);
    forall id | id in s'.stored && wanted(id) && Watching(s.pc) ensures Covered(calm, s', id) {
      if id in s.stored {
        StillUnpublished(s, s', id);
      } else {
        assert Created(id) in s'.pending[step.thread];
      }
    }
  }

  /** Other threads' events stay where they are. */
  lemma StillUnpublished(s: Sys, s': Sys, id: Id)
    requires forall t <- s.pending :: t in s'.pending && s'.pending[t] == s.pending[t]
    ensures Unpublished(s, id) ==> Unpublished(s', id)
  {
    if Unpublished(s, id) {
      var t :| t in s.pending && Created(id) in s.pending[t];
      assert Created(id) in s'.pending[t];
    }
  }

  lemma {:induction false} RemainingMembers(stored: seq<Id>, gone: set<Id>)
    ensures forall id <- Remaining(stored, gone) :: id in stored
  {
    if stored != [] {
      RemainingMembers(stored[..|stored| - 1], gone);
    }
  }

  lemma DeleteKeeps(calm: bool, wanted: Id -> bool, s: Sys, step: Step)
    requires Inv(calm, wanted, s) && step.Delete? && Enabled(s, step)
    ensures Inv(calm, wanted, Do(wanted, s, step))
  {
    var s' := Do(wanted, s, step);
    RemainingMembers(s.stored, step.gone);
    forall id | id in s'.stored && wanted(id) && Watching(s.pc) ensures Covered(calm, s', id) {
      StillUnpublished(s, s', id);
    }
  }

  lemma SendKeeps(calm: bool, wanted: Id -> bool, s: Sys, step: Step)
    requires Inv(calm, wanted, s) && step.Send? && Enabled(s, step)
    ensures Inv(calm, wanted, Do(wanted, s, step))
  {
    var s' := Do(wanted, s, step);
    var thread := step.thread;
    var e, rest := s.pending[thread][0], s.pending[thread][1..];
    forall id | id in s.stored && wanted(id) && Watching(s.pc) ensures Covered(calm, s', id) {
      if Unpublished(s, id) && !ChannelClosed(s) {
        var t :| t in s.pending && Created(id) in s.pending[t];
        if t != thread {
          assert Created(id) in s'.pending[t];
        } else if e == Created(id) {
          assert |s.buffer| < BUFFER_SIZE ==> Created(id) in s'.buffer;
        } else {
          assert s.pending[t] == [e] + rest;
          assert Created(id) in s'.pending[t];
        }
      }
    }
  }

  lemma LookKeeps(calm: bool, wanted: Id -> bool, s: Sys, step: Step)
    requires Inv(calm, wanted, s) && (step.Check? || step.Recheck? || step.TimerCheck?) && Enabled(s, step)
    ensures Inv(calm, wanted, Do(wanted, s, step))
  {
    LatestFinds(wanted, s.stored);
  }

  lemma TakeKeeps(calm: bool, wanted: Id -> bool, s: Sys, step: Step)
    requires Inv(calm, wanted, s) && (step.Receive? || step.Drain?) && Enabled(s, step)
    ensures Inv(calm, wanted, Do(wanted, s, step))
  {
    var s' := Do(wanted, s, step);
    forall id | id in s.stored && wanted(id) && Watching(s'.pc) ensures Covered(calm, s', id) {
      StillUnpublished(s, s', id);
      if Created(id) in s.buffer {
        assert s.buffer == [s.buffer[0]] + s.buffer[1..];
      }
    }
  }

  lemma OtherKeeps(calm: bool, wanted: Id -> bool, s: Sys, step: Step)
    requires Inv(calm, wanted, s) && Enabled(s, step)
    requires step.CountMiss? || step.CloseBroker? || step.Subscribe? || step.Decide? || step.TimerFires? || step.Cancel?
    requires calm ==> !Hasty(s, step)
    ensures Inv(calm, wanted, Do(wanted, s, step))
  {
    var s' := Do(wanted, s, step);
    forall id | id in s.stored && wanted(id) && Watching(s'.pc) ensures Covered(calm, s', id) {
      StillUnpublished(s, s', id);
    }
  }

  lemma StepKeeps(calm: bool, wanted: Id -> bool, s: Sys, step: Step)
    requires Inv(calm, wanted, s) && Enabled(s, step)
    requires calm ==> !Hasty(s, step)
    ensures Inv(calm, wanted, Do(wanted, s, step))
  {
    match step {
      case Save(_, _) => SaveKeeps(calm, wanted, s, step);
      case Delete(_, _, _) => DeleteKeeps(calm, wanted, s, step);
      case Send(_) => SendKeeps(calm, wanted, s, step);
      case Check => LookKeeps(calm, wanted, s, step);
      case Recheck => LookKeeps(calm, wanted, s, step);
      case TimerCheck => LookKeeps(calm, wanted, s, step);
      case Receive => TakeKeeps(calm, wanted, s, step);
      case Drain => TakeKeeps(calm, wanted, s, step);
      case CountMiss => OtherKeeps(calm, wanted, s, step);
      case CloseBroker => OtherKeeps(calm, wanted, s, step);
      case Subscribe => OtherKeeps(calm, wanted, s, step);
      case Decide => OtherKeeps(calm, wanted, s, step);
      case TimerFires => OtherKeeps(calm, wanted, s, step);
      case Cancel => OtherKeeps(calm, wanted, s, step);
    }
  }

  lemma {:induction false} RunKeeps(calm: bool, wanted: Id -> bool, s: Sys, steps: seq<Step>)
    requires Init(s) && IsRun(wanted, s, steps) && (calm ==> Calm(wanted, s, steps))
    ensures Inv(calm, wanted, Run(wanted, s, steps))
  {
    if steps != [] {
      RunKeeps(calm, wanted, s, steps[..|steps| - 1]);
      StepKeeps(calm, wanted, Run(wanted, s, steps[..|steps| - 1]), steps[|steps| - 1]);
    }
  }

  // ----- the theorems -----

  /**
   * No lost wakeup.  In every interleaving, a waiter blocked on an empty
   * buffer while a match is stored still has that match's event coming, or a
   * drop is counted or about to be.  If no step was hasty the event is coming:
   * nothing else is possible.
   */
  lemma NoLostWakeup(wanted: Id -> bool, s0: Sys, steps: seq<Step>, id: Id)
    requires Init(s0) && IsRun(wanted, s0, steps)
    requires var s := Run(wanted, s0, steps);
             s.pc == Blocked && s.buffer == [] && !s.brokerClosed && id in s.stored && wanted(id)
    ensures var s := Run(wanted, s0, steps);
            && (Unpublished(s, id) || s.missed > 0 || s.counting)
            && (Calm(wanted, s0, steps) ==> Unpublished(s, id))
  {
    RunKeeps(false, wanted, s0, steps);
    if Calm(wanted, s0, steps) {
      RunKeeps(true, wanted, s0, steps);
    }
  }

  /** Asleep on a stored match with nothing to wake the waiter up but its timer. */
  ghost predicate Stranded(wanted: Id -> bool, s: Sys) {
    && s.pc == Blocked && s.buffer == [] && !s.brokerClosed && !s.counting && s.pending == map[]
    && exists id <- s.stored :: wanted(id)
  }

  /**
   * The converse: with everything published and a match stored, a waiter that
   * has drained its channel goes back to sleep exactly when that is hasty, and
   * is then stranded as soon as the drop is counted.
   */
  lemma HastyDecisionsStrand(wanted: Id -> bool, s0: Sys, steps: seq<Step>, id: Id)
    requires Init(s0) && IsRun(wanted, s0, steps)
    requires var s := Run(wanted, s0, steps);
             && s.pc == Drained(false) && s.buffer == [] && !s.brokerClosed && s.pending == map[]
             && id in s.stored && wanted(id)
    ensures var s := Run(wanted, s0, steps);
            && (Hasty(s, Decide) <==> Do(wanted, s, Decide).pc == Blocked)
            && (Hasty(s, Decide) ==> Stranded(wanted, Do(wanted, Do(wanted, s, Decide), CountMiss)))
  {
    RunKeeps(false, wanted, s0, steps);
    assert Covered(false, Run(wanted, s0, steps), id);
  }

  /** The last stored id that is wanted. */
  ghost predicate NewestWanted(wanted: Id -> bool, stored: seq<Id>, id: Id) {
    wanted(id) && exists i | 0 <= i < |stored| :: stored[i] == id && forall j | i < j < |stored| :: !wanted(stored[j])
  }

  lemma {:induction false} LatestIsNewest(wanted: Id -> bool, stored: seq<Id>)
    ensures Latest(wanted, stored).Found? ==> NewestWanted(wanted, stored, Latest(wanted, stored).id)
  {
    if stored != [] && !wanted(stored[|stored| - 1]) {
      var init := stored[..|stored| - 1];
      LatestIsNewest(wanted, init);
      if Latest(wanted, init).Found? {
        var id := Latest(wanted, init).id;
        var i :| 0 <= i < |init| && init[i] == id && forall j | i < j < |init| :: !wanted(init[j]);
        assert stored[i] == id && forall j | i < j < |stored| :: !wanted(stored[j]);
      }
    }
  }

  /**
   * Every reply, exactly.  Each of the three looks answers with the newest
   * stored match if there is one; without one the timer's look answers that
   * there is no content and the others wait.  Nothing but a cancelled request
   * or a closed, empty channel makes the service unavailable.
   */
  lemma RepliesAreExact(wanted: Id -> bool, s: Sys, step: Step)
    requires Enabled(s, step) && !s.pc.Done?
    ensures var (s', look) := (Do(wanted, s, step), step == Check || step == Recheck || step == TimerCheck);
            var found := exists id <- s.stored :: wanted(id);
            && (look && found ==> s'.pc.Done? && s'.pc.reply.Found? && NewestWanted(wanted, s.stored, s'.pc.reply.id))
            && (look && !found ==> s'.pc == if step == TimerCheck then Done(NoContent) else Blocked)
            && (s'.pc == Done(Unavailable)
                <==> step == Cancel || ((step == Receive || step == Drain) && s.buffer == [] && ChannelClosed(s)))
            && (s'.pc.Done? && s'.pc.reply != Unavailable ==> look)
            && (look ==> s' == s.(pc := s'.pc))
  {
    LatestFinds(wanted, s.stored);
    LatestIsNewest(wanted, s.stored);
  }

  // ----- a waiter that can move does answer -----

  /** The waiter alone, from the select on, until it answers or blocks again. */
  function Wake(wanted: Id -> bool, s: Sys): Sys
    requires Watching(s.pc) || s.pc == Rechecking
    decreases |s.buffer|, if s.pc == Blocked then 3 else if s.pc.Draining? then 2 else if s.pc.Drained? then 1 else 0
  {
    if s.pc == Blocked && s.buffer == [] then s
    else if s.pc == Rechecking then Do(wanted, s, Recheck)
    else
      var s' := Do(wanted, s, if s.pc == Blocked then Receive else if s.pc.Draining? then Drain else Decide);
      if s'.pc.Done? || s'.pc == Blocked then s' else Wake(wanted, s')
  }

  lemma {:induction false} WakeAnswers(wanted: Id -> bool, s: Sys, id: Id)
    requires Watching(s.pc) || s.pc == Rechecking
    requires !s.brokerClosed && id in s.stored && wanted(id)
    requires s.pc == Blocked ==> s.buffer != []
    requires || s.pc == Rechecking || (exists e <- s.buffer :: e.Created?)
             || s.missed > 0 || (!s.pc.Blocked? && s.pc.created)
    requires s.pc.Drained? ==> s.pc.created || s.missed > 0
    ensures Wake(wanted, s).pc.Done? && Wake(wanted, s).pc.reply.Found?
    ensures var m := Wake(wanted, s).pc.reply.id; m in s.stored && wanted(m)
    decreases |s.buffer|, if s.pc == Blocked then 3 else if s.pc.Draining? then 2 else if s.pc.Drained? then 1 else 0
  {
    if s.pc == Rechecking {
      LatestFinds(wanted, s.stored);
    } else {
      var s' := Do(wanted, s, if s.pc == Blocked then Receive else if s.pc.Draining? then Drain else Decide);
      if s.buffer != [] && !s.pc.Drained? {
        assert s.buffer == [s.buffer[0]] + s.buffer[1..];
      }
      WakeAnswers(wanted, s', id);
    }
  }

  /**
   * Once every publisher has finished, a blocked waiter with a stored match
   * answers by its own steps alone, with a stored match, if and only if its
   * buffer holds something; and if no step was hasty it does.
   */
  lemma QuietWaiterAnswersIff(wanted: Id -> bool, s0: Sys, steps: seq<Step>, id: Id)
    requires Init(s0) && IsRun(wanted, s0, steps)
    requires var s := Run(wanted, s0, steps);
             && s.pc == Blocked && !s.brokerClosed && s.pending == map[] && !s.counting
             && id in s.stored && wanted(id)
    ensures var (s, end) := (Run(wanted, s0, steps), Wake(wanted, Run(wanted, s0, steps)).pc);
            && (end.Done? <==> s.buffer != [])
            && (end.Done? ==> end.reply.Found? && end.reply.id in s.stored && wanted(end.reply.id))
            && (Calm(wanted, s0, steps) ==> s.buffer != [])
  {
    RunKeeps(false, wanted, s0, steps);
    var s := Run(wanted, s0, steps);
    assert Covered(false, s, id);
    if s.buffer != [] {
      WakeAnswers(wanted, s, id);
    }
    if Calm(wanted, s0, steps) {
      RunKeeps(true, wanted, s0, steps);
      assert Covered(true, s, id);
    }
  }

  // ----- the window between a failed send and its count -----

  ghost predicate Reaches(wanted: Id -> bool, s0: Sys, s: Sys) {
    exists steps :: IsRun(wanted, s0, steps) && Run(wanted, s0, steps) == s
  }

  lemma ReachesMore(wanted: Id -> bool, s0: Sys, s: Sys, step: Step)
    requires Reaches(wanted, s0, s) && Enabled(s, step)
    ensures Reaches(wanted, s0, Do(wanted, s, step))
  {
    var steps :| IsRun(wanted, s0, steps) && Run(wanted, s0, steps) == s;
    var more := steps + [step];
    assert more[..|more| - 1] == steps;
    assert IsRun(wanted, s0, more) && Run(wanted, s0, more) == Do(wanted, s, step);
  }

  /** A blocked waiter and one publisher, `k` of whose deletions are in the buffer. */
  function Filling(d: seq<Event<Id>>, k: nat): Sys
    requires k <= |d|
  {
    Sys([64], 65, map[0 := d[k..] + [Created(64)]], false, false, true, d[..k], 0, Blocked)
  }

  lemma FillStep(wanted: Id -> bool, s: Sys, first: Event<Id>, rest: seq<Event<Id>>)
    requires !s.counting && s.subscribed && |s.buffer| < BUFFER_SIZE && rest != []
    requires s.pending == map[0 := [first] + rest]
    ensures Enabled(s, Send(0)) && Do(wanted, s, Send(0)) == s.(pending := map[0 := rest], buffer := s.buffer + [first])
  {
    assert ([first] + rest)[1..] == rest;
    assert s.pending[0 := rest] == map[0 := rest];
  }

  lemma {:induction false} FillBuffer(wanted: Id -> bool, s0: Sys, d: seq<Event<Id>>, k: nat)
    requires |d| == BUFFER_SIZE && k <= |d| && Reaches(wanted, s0, Filling(d, 0))
    ensures Reaches(wanted, s0, Filling(d, k))
  {
    if k > 0 {
      FillBuffer(wanted, s0, d, k - 1);
      Shift(d, k, [Created(64)]);
      FillStep(wanted, Filling(d, k - 1), d[k - 1], d[k..] + [Created(64)]);
      ReachesMore(wanted, s0, Filling(d, k - 1), Send(0));
    }
  }

  lemma Shift(d: seq<Event<Id>>, k: nat, tail: seq<Event<Id>>)
    requires 0 < k <= |d|
    ensures d[k - 1..] + tail == [d[k - 1]] + (d[k..] + tail) && d[..k - 1] + [d[k - 1]] == d[..k]
  {
  }

  /** The drop happened but is not counted; the waiter has taken `k` of the deletions. */
  function Emptying(d: seq<Event<Id>>, k: nat): Sys
    requires 1 <= k <= |d|
  {
    Sys([64], 65, map[], true, false, true, d[k..], 0, Draining(false))
  }

  lemma {:induction false} EmptyBuffer(wanted: Id -> bool, s0: Sys, d: seq<Event<Id>>, k: nat)
    requires |d| == BUFFER_SIZE && 1 <= k <= |d| && (forall e <- d :: !e.Created?)
    requires Reaches(wanted, s0, Emptying(d, 1))
    ensures Reaches(wanted, s0, Emptying(d, k))
  {
    if k > 1 {
      EmptyBuffer(wanted, s0, d, k - 1);
      ReachesMore(wanted, s0, Emptying(d, k - 1), Drain);
      assert d[k - 1] in d && d[k - 1..][1..] == d[k..];
    }
  }

  lemma DropThenDrain(wanted: Id -> bool, s0: Sys, d: seq<Event<Id>>)
    requires |d| == BUFFER_SIZE && (forall e <- d :: !e.Created?)
    requires Reaches(wanted, s0, Filling(d, 0))
    ensures Reaches(wanted, s0, Sys([64], 65, map[], false, false, true, [], 1, Blocked))
  {
    FillBuffer(wanted, s0, d, BUFFER_SIZE);
    var full := Filling(d, BUFFER_SIZE);
    assert full.pending[0] == [Created(64)] && full.pending - {0} == map[];
    ReachesMore(wanted, s0, full, Send(0));
    var dropped := Sys([64], 65, map[], true, false, true, d, 0, Blocked);
    assert Do(wanted, full, Send(0)) == dropped;
    ReachesMore(wanted, s0, dropped, Receive);
    assert d[0] in d && Do(wanted, dropped, Receive) == Emptying(d, 1);
    EmptyBuffer(wanted, s0, d, BUFFER_SIZE);
    var empty := Emptying(d, BUFFER_SIZE);
    ReachesMore(wanted, s0, empty, Drain);
    var drained := empty.(pc := Drained(false));
    ReachesMore(wanted, s0, drained, Decide);
    ReachesMore(wanted, s0, empty.(pc := Blocked), CountMiss);
    assert d[BUFFER_SIZE..] == [];
  }

  /**
   * Hasty steps do happen: one save that evicts 64 messages fills the buffer
   * with deletions, its own event is dropped, and a waiter that drains the
   * buffer and reads a count of zero before the count is raised blocks again,
   * with the match stored and no event to come.
   */
  lemma UncountedDropCanStrandTheWaiter()
    ensures exists wanted: Id -> bool, s0: Sys, s: Sys :: Init(s0) && Reaches(wanted, s0, s) && Stranded(wanted, s)
  {
    var wanted := (id: Id) => id == 64;
    var ids := seq(BUFFER_SIZE, i => i);
    var s0 := Sys(ids, 64, map[], false, false, false, [], 0, Starting);
    SaveWhileBlocked(wanted, s0);
    DropThenDrain(wanted, s0, Deletions(ids));
    var s := Sys([64], 65, map[], false, false, true, [], 1, Blocked);
    assert 64 in s.stored && wanted(64);
    assert Stranded(wanted, s);
  }

  lemma SaveWhileBlocked(wanted: Id -> bool, s0: Sys)
    requires Init(s0) && |s0.stored| == BUFFER_SIZE && s0.nextId == 64 && forall id <- s0.stored :: !wanted(id)
    ensures |Deletions(s0.stored)| == BUFFER_SIZE && Reaches(wanted, s0, Filling(Deletions(s0.stored), 0))
  {
    assert IsRun(wanted, s0, []) && Run(wanted, s0, []) == s0;
    ReachesMore(wanted, s0, s0, Subscribe);
    var s1 := s0.(subscribed := true, pc := Checking);
    LatestFinds(wanted, s0.stored);
    ReachesMore(wanted, s0, s1, Check);
    var s2 := s1.(pc := Blocked);
    ReachesMore(wanted, s0, s2, Save(0, BUFFER_SIZE));
    var d := Deletions(s0.stored);
    assert s0.stored[..BUFFER_SIZE] == s0.stored && s0.stored[BUFFER_SIZE..] + [64] == [64];
    assert d[0..] == d && d[..0] == [];
    assert Do(wanted, s2, Save(0, BUFFER_SIZE)) == Filling(d, 0);
  }
}
