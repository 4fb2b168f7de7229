/**
 * Shutting the SMTP server down while connections come, talk and go: every
 * interleaving of the accept loop, the sessions and `Shutdown`, down to the
 * single flag reads and writes.
 */
module Shutdown {
  type Id = nat

  /** Where a session's goroutine stands; New to Tracking belong to the accept loop. */
  datatype Pc =
    | New          // accepted, before track
    | Refused      // track saw `closing`; the connection is closed
    | Tracking     // in track, past the check of `closing`, lock held
    | Tracked      // in the map and counted, goroutine about to start
    | Running      // in a handler or between commands
    | DeadlineSet  // readCommand: fresh deadline set, `idle` not yet
    | IdleSet      // readCommand: `idle` set, `closing` not yet checked
    | Reading      // blocked reading a command
    | Returning(error: bool)  // the read is over, `idle` not yet cleared
    | InData       // blocked reading message data
    | Ending       // serve returned, before untrack
    | Untracked    // out of the map, before wg.Done
    | Finished

  datatype Deadline = Fresh | Expired

  datatype Proc = Proc(pc: Pc, deadline: Deadline, idle: bool)

  datatype Lock = Free | ByTrack(id: Id) | ByShutdown

  /** Where `Shutdown` stands; the pass holds the lock and the sessions still to look at. */
  datatype Shut =
    | NotStarted
    | FlagSet
    | Passing(left: set<Id>)
    | Interrupting(id: Id, left: set<Id>)  // `idle` was read as true, the interrupt is still to come
    | PassDone
    | Returned

  datatype Sys = Sys(procs: map<Id, Proc>, sessions: set<Id>, wg: int, closing: bool, lock: Lock, shut: Shut)

  const EMPTY := Sys(map[], {}, 0, false, Free, NotStarted)

  datatype Step =
    | Accept(id: Id)
    | TrackCheck(id: Id)
    | TrackInsert(id: Id)
    | Start(id: Id)
    | SetDeadline(id: Id)
    | SetIdle(id: Id)
    | CheckClosing(id: Id)
    | ReadDone(id: Id, error: bool)
    | ClearIdle(id: Id)
    | StartData(id: Id)
    | DataDone(id: Id)
    | Finish(id: Id)
    | Untrack(id: Id)
    | WgDone(id: Id)
    | SetFlag
    | StartPass
    | Visit(id: Id)
    | Interrupt
    | EndPass
    | ForceClose
    | Return

  predicate At(s: Sys, id: Id, pc: Pc) { id in s.procs && s.procs[id].pc == pc }

  predicate Enabled(s: Sys, step: Step) {
    match step
    case Accept(id) => id !in s.procs
    case TrackCheck(id) => At(s, id, New) && s.lock == Free
    case TrackInsert(id) => At(s, id, Tracking) && s.lock == ByTrack(id)
    case Start(id) => At(s, id, Tracked) && s.lock == Free
    case SetDeadline(id) => At(s, id, Running)
    case SetIdle(id) => At(s, id, DeadlineSet)
    case CheckClosing(id) => At(s, id, IdleSet)
    case ReadDone(id, error) => At(s, id, Reading)
    case ClearIdle(id) => id in s.procs && s.procs[id].pc.Returning?
    case StartData(id) => At(s, id, Running)
    case DataDone(id) => At(s, id, InData)
    case Finish(id) => At(s, id, Running)
    case Untrack(id) => At(s, id, Ending) && s.lock == Free
    case WgDone(id) => At(s, id, Untracked)
    case SetFlag => s.shut == NotStarted
    case StartPass => s.shut == FlagSet && s.lock == Free
    case Visit(id) => s.shut.Passing? && id in s.shut.left
    case Interrupt => s.shut.Interrupting?
    case EndPass => s.shut == Passing({})
    case ForceClose => s.shut == PassDone && s.lock == Free
    case Return => s.shut == PassDone && s.wg == 0
  }

  function Put(s: Sys, id: Id, p: Proc): Sys { s.(procs := s.procs[id := p]) }

  function Goto(s: Sys, id: Id, pc: Pc): Sys
    requires id in s.procs
  {
    Put(s, id, s.procs[id].(pc := pc))
  }

  function ExpireAll(s: Sys): map<Id, Proc> {
    map id | id in s.procs :: if id in s.sessions then s.procs[id].(deadline := Expired) else s.procs[id]
  }

  function Do(s: Sys, step: Step, maxConnections: nat): Sys
    requires Enabled(s, step)
  {
    match step
    case Accept(id) => Put(s, id, Proc(New, Fresh, false))
    case TrackCheck(id) => if s.closing then Goto(s, id, Refused) else Goto(s, id, Tracking).(lock := ByTrack(id))
    case TrackInsert(id) => Goto(s, id, Tracked).(sessions := s.sessions + {id}, wg := s.wg + 1, lock := Free)
    case Start(id) => Goto(s, id, if |s.sessions| > maxConnections then Ending else Running)
    case SetDeadline(id) => Put(s, id, s.procs[id].(pc := DeadlineSet, deadline := Fresh))
    case SetIdle(id) => Put(s, id, s.procs[id].(pc := IdleSet, idle := true))
    case CheckClosing(id) => Goto(s, id, if s.closing then Returning(true) else Reading)
    case ReadDone(id, error) => Goto(s, id, Returning(error))
    case ClearIdle(id) =>
      Put(s, id, s.procs[id].(pc := if s.procs[id].pc.error then Ending else Running, idle := false))
    case StartData(id) => Put(s, id, s.procs[id].(pc := InData, deadline := Fresh))
    case DataDone(id) => Goto(s, id, Running)
    case Finish(id) => Goto(s, id, Ending)
    case Untrack(id) => Goto(s, id, Untracked).(sessions := s.sessions - {id})
    case WgDone(id) => Goto(s, id, Finished).(wg := s.wg - 1)
    case SetFlag => s.(closing := true, shut := FlagSet)
    case StartPass => s.(lock := ByShutdown, shut := Passing(s.sessions))
    case Visit(id) =>
      if id in s.procs && s.procs[id].idle then s.(shut := Interrupting(id, s.shut.left))
      else s.(shut := Passing(s.shut.left - {id}))
    case Interrupt =>
      var (id, left) := (s.shut.id, s.shut.left);
      var s' := s.(shut := Passing(left - {id}));
      if id in s.procs then Put(s', id, s.procs[id].(deadline := Expired)) else s'
    case EndPass => s.(lock := Free, shut := PassDone)
    case ForceClose => s.(procs := ExpireAll(s))
    case Return => s.(shut := Returned)
  }

  // ----- the invariant -----

  predicate InMap(pc: Pc) {
    !(pc == New || pc == Refused || pc == Tracking || pc == Untracked || pc == Finished)
  }

  predicate Counted(pc: Pc) { InMap(pc) || pc == Untracked }

  predicate IdlePc(pc: Pc) { pc == IdleSet || pc == Reading || pc.Returning? }

  predicate Over(shut: Shut) { shut == PassDone || shut == Returned }

  /** Blocked reading a command that will not be cut short. */
  predicate Stuck(p: Proc) { p.pc == Reading && p.deadline == Fresh }

  /** The pass has not got to this session yet. */
  predicate Ahead(shut: Shut, id: Id) {
    match shut
    case NotStarted => true
    case FlagSet => true
    case Passing(left) => id in left
    case Interrupting(_, left) => id in left
    case PassDone => false
    case Returned => false
  }

  /** What holds of one session, whatever the others do. */
  predicate ProcOk(s: Sys, id: Id, p: Proc) {
    && (id in s.sessions <==> InMap(p.pc))
    && (p.idle <==> IdlePc(p.pc))
    && (p.pc == Tracking <==> s.lock == ByTrack(id))
    && (Stuck(p) ==> Ahead(s.shut, id))
    && (p.deadline == Expired ==> !Ahead(s.shut, id))
  }

  function Live(s: Sys): set<Id> {
    set id | id in s.procs && Counted(s.procs[id].pc)
  }

  ghost predicate Inv(s: Sys) {
    && (forall id <- s.procs :: ProcOk(s, id, s.procs[id]))
    && (forall id <- s.sessions :: id in s.procs)
    && (s.lock.ByTrack? ==> s.lock.id in s.procs)
    && s.wg == |Live(s)|
    && (s.closing <==> s.shut != NotStarted)
    && (s.lock == ByShutdown <==> s.shut.Passing? || s.shut.Interrupting?)
    && (Over(s.shut) ==> !s.lock.ByTrack?)
    && (s.shut.Interrupting? ==> s.shut.id in s.shut.left)
    && (s.shut.Passing? || s.shut.Interrupting? ==> forall id <- s.shut.left :: id in s.procs)
  }

  /** One session changes its own record and nothing shared. */
  lemma OneMoves(s: Sys, id: Id, p: Proc, s': Sys)
    requires Inv(s) && s' == Put(s, id, p) && ProcOk(s', id, p)
    requires if id in s.procs then Counted(p.pc) == Counted(s.procs[id].pc) else !Counted(p.pc)
    ensures Inv(s')
  {
    assert Live(s') == Live(s);
  }

  lemma CommandKeeps(s: Sys, step: Step, max: nat)
    requires Inv(s) && Enabled(s, step)
    requires step.SetDeadline? || step.SetIdle? || step.CheckClosing? || step.ReadDone? || step.ClearIdle?
    ensures Inv(Do(s, step, max))
  {
    var s' := Do(s, step, max);
    OneMoves(s, step.id, s'.procs[step.id], s');
  }

  lemma SessionKeeps(s: Sys, step: Step, max: nat)
    requires Inv(s) && Enabled(s, step)
    requires step.Accept? || step.Start? || step.StartData? || step.DataDone? || step.Finish?
    ensures Inv(Do(s, step, max))
  {
    var s' := Do(s, step, max);
    OneMoves(s, step.id, s'.procs[step.id], s');
  }

  lemma TrackCheckKeeps(s: Sys, id: Id, max: nat)
    requires Inv(s) && Enabled(s, TrackCheck(id))
    ensures Inv(Do(s, TrackCheck(id), max))
  {
    var s' := Do(s, TrackCheck(id), max);
    assert Live(s') == Live(s);
    forall x | x in s'.procs && x != id ensures ProcOk(s', x, s'.procs[x]) {
      assert ProcOk(s, x, s.procs[x]);
    }
  }

  lemma LiveGrows(s: Sys, id: Id, s': Sys)
    requires id in s.procs && !Counted(s.procs[id].pc)
    requires id in s'.procs && Counted(s'.procs[id].pc) && s'.procs == s.procs[id := s'.procs[id]]
    ensures |Live(s')| == |Live(s)| + 1
  {
    assert Live(s') == Live(s) + {id};
  }

  lemma TrackInsertKeeps(s: Sys, id: Id, max: nat)
    requires Inv(s) && Enabled(s, TrackInsert(id))
    ensures Inv(Do(s, TrackInsert(id), max))
  {
    var s' := Do(s, TrackInsert(id), max);
    LiveGrows(s, id, s');
    forall x | x in s'.procs && x != id ensures ProcOk(s', x, s'.procs[x]) {
      assert ProcOk(s, x, s.procs[x]);
    }
  }

  lemma UntrackKeeps(s: Sys, id: Id, max: nat)
    requires Inv(s) && Enabled(s, Untrack(id))
    ensures Inv(Do(s, Untrack(id), max))
  {
    var s' := Do(s, Untrack(id), max);
    assert Live(s') == Live(s);
    forall x | x in s'.procs ensures ProcOk(s', x, s'.procs[x]) {
      assert ProcOk(s, x, s.procs[x]);
    }
  }

  lemma WgDoneKeeps(s: Sys, id: Id, max: nat)
    requires Inv(s) && Enabled(s, WgDone(id))
    ensures Inv(Do(s, WgDone(id), max))
  {
    var s' := Do(s, WgDone(id), max);
    assert id in Live(s) && Live(s') == Live(s) - {id};
    forall x | x in s'.procs ensures ProcOk(s', x, s'.procs[x]) {
      assert ProcOk(s, x, s.procs[x]);
    }
  }

  /** Steps of Shutdown that leave the sessions' records alone. */
  lemma FlagKeeps(s: Sys, step: Step, max: nat)
    requires Inv(s) && Enabled(s, step)
    requires step.SetFlag? || step.StartPass? || step.Visit? || step.EndPass? || step.Return?
    ensures Inv(Do(s, step, max))
  {
    var s' := Do(s, step, max);
    forall id | id in s'.procs ensures ProcOk(s', id, s'.procs[id]) {
      assert ProcOk(s, id, s.procs[id]);
    }
    assert Live(s') == Live(s);
  }

  lemma InterruptKeeps(s: Sys, step: Step, max: nat)
    requires Inv(s) && Enabled(s, step) && (step.Interrupt? || step.ForceClose?)
    ensures Inv(Do(s, step, max))
  {
    var s' := Do(s, step, max);
    forall id | id in s'.procs ensures ProcOk(s', id, s'.procs[id]) {
      assert ProcOk(s, id, s.procs[id]);
    }
    assert Live(s') == Live(s);
  }

  lemma StepKeeps(s: Sys, step: Step, max: nat)
    requires Inv(s) && Enabled(s, step)
    ensures Inv(Do(s, step, max))
  {
    if step.TrackCheck? {
      TrackCheckKeeps(s, step.id, max);
    } else if step.TrackInsert? {
      TrackInsertKeeps(s, step.id, max);
    } else if step.SetDeadline? || step.SetIdle? || step.CheckClosing? || step.ReadDone? || step.ClearIdle? {
      CommandKeeps(s, step, max);
    } else if step.Untrack? {
      UntrackKeeps(s, step.id, max);
    } else if step.WgDone? {
      WgDoneKeeps(s, step.id, max);
    } else if step.SetFlag? || step.StartPass? || step.Visit? || step.EndPass? || step.Return? {
      FlagKeeps(s, step, max);
    } else if step.Interrupt? || step.ForceClose? {
      InterruptKeeps(s, step, max);
    } else {
      SessionKeeps(s, step, max);
    }
  }

  ghost predicate IsRun(steps: seq<Step>, max: nat)
    decreases |steps|, 0
  {
    steps != [] ==> IsRun(steps[..|steps| - 1], max) && Enabled(Run(steps[..|steps| - 1], max), steps[|steps| - 1])
  }

  ghost function Run(steps: seq<Step>, max: nat): Sys
    requires IsRun(steps, max)
    decreases |steps|, 1
  {
    if steps == [] then EMPTY else Do(Run(steps[..|steps| - 1], max), steps[|steps| - 1], max)
  }

  lemma {:induction false} RunKeeps(steps: seq<Step>, max: nat)
    requires IsRun(steps, max)
    ensures Inv(Run(steps, max))
  {
    if steps != [] {
      RunKeeps(steps[..|steps| - 1], max);
      StepKeeps(Run(steps[..|steps| - 1], max), steps[|steps| - 1], max);
    } else {
      assert Live(EMPTY) == {};
    }
  }

  // ----- the theorem -----

  /**
   * Shutdown loses no idle session.  In every interleaving, once the pass is
   * over no session is blocked reading a command with a fresh deadline, and
   * when the wait group is at zero (which is when Shutdown returns) the
   * session map is empty.
   */
  lemma NoSessionIsLeftBehind(steps: seq<Step>, max: nat)
    requires IsRun(steps, max)
    ensures var s := Run(steps, max);
            && (Over(s.shut) ==> forall id <- s.procs :: !Stuck(s.procs[id]))
            && s.wg >= |s.sessions|
            && (s.wg == 0 ==> s.sessions == {})
  {
    RunKeeps(steps, max);
    var s := Run(steps, max);
    forall id | id in s.sessions ensures id in Live(s) {
      assert ProcOk(s, id, s.procs[id]);
    }
    SubsetSize(s.sessions, Live(s));
    assert s.wg == 0 ==> |s.sessions| == 0;
    forall id | id in s.procs && Over(s.shut) ensures !Stuck(s.procs[id]) {
      assert ProcOk(s, id, s.procs[id]);
    }
  }

  lemma {:induction false} SubsetSize(a: set<Id>, b: set<Id>)
    requires a <= b
    ensures |a| <= |b|
  {
    if a != {} {
      var x :| x in a;
      SubsetSize(a - {x}, b - {x});
    }
  }

  /** Once the pass is over, no step puts a session into the map, and none gets stuck again. */
  lemma NothingTrackedAfterThePass(steps: seq<Step>, max: nat, step: Step)
    requires IsRun(steps, max) && Over(Run(steps, max).shut) && Enabled(Run(steps, max), step)
    ensures var (s, s') := (Run(steps, max), Do(Run(steps, max), step, max));
            && s'.sessions <= s.sessions && Over(s'.shut)
            && forall id <- s'.procs :: !Stuck(s'.procs[id])
  {
    RunKeeps(steps, max);
    var s := Run(steps, max);
    StepKeeps(s, step, max);
    forall id | id in Do(s, step, max).procs ensures !Stuck(Do(s, step, max).procs[id]) {
      assert ProcOk(Do(s, step, max), id, Do(s, step, max).procs[id]);
    }
  }

  // ----- when Shutdown returns -----

  lemma SessionsAreLive(s: Sys)
    requires Inv(s)
    ensures s.sessions <= Live(s)
  {
    forall id | id in s.sessions ensures id in Live(s) {
      assert ProcOk(s, id, s.procs[id]);
    }
  }

  lemma WithNobodyLeft(s: Sys)
    requires Inv(s) && s.wg == 0
    ensures s.sessions == {} && forall id <- s.procs :: !Counted(s.procs[id].pc)
  {
    SessionsAreLive(s);
    assert Live(s) == {};
    assert forall id <- s.procs :: id !in Live(s);
  }

  /** After the pass the wait group does not grow. */
  lemma NobodyJoins(s: Sys, step: Step, max: nat)
    requires Inv(s) && Enabled(s, step) && Over(s.shut) && s.wg == 0
    ensures Do(s, step, max).wg == 0 && (s.shut == Returned ==> Do(s, step, max).shut == Returned)
  {
    WithNobodyLeft(s);
  }

  lemma {:induction false} ReturnedMeansZero(steps: seq<Step>, max: nat)
    requires IsRun(steps, max) && Run(steps, max).shut == Returned
    ensures Run(steps, max).wg == 0
  {
    assert steps != [];
    RunLast(steps, max);
    var init, last := steps[..|steps| - 1], steps[|steps| - 1];
    if last != Return {
      StillReturned(Run(init, max), last, max);
      ReturnedMeansZero(init, max);
      RunKeeps(init, max);
      NobodyJoins(Run(init, max), last, max);
    }
  }

  lemma StillReturned(s: Sys, step: Step, max: nat)
    requires Enabled(s, step) && step != Return && Do(s, step, max).shut == Returned
    ensures s.shut == Returned
  {
  }

  /**
   * Shutdown returns only when every session is gone: the wait group is at
   * zero, the session map is empty, and every connection that was ever
   * accepted is still unseen, refused, or finished.
   */
  lemma ReturnsWhenAllAreGone(steps: seq<Step>, max: nat)
    requires IsRun(steps, max) && Run(steps, max).shut == Returned
    ensures var s := Run(steps, max);
            && s.wg == 0 && s.sessions == {}
            && forall id <- s.procs :: s.procs[id].pc == New || s.procs[id].pc == Refused || s.procs[id].pc == Finished
  {
    ReturnedMeansZero(steps, max);
    RunKeeps(steps, max);
    var s := Run(steps, max);
    WithNobodyLeft(s);
    forall id | id in s.procs ensures s.procs[id].pc != Tracking {
      assert ProcOk(s, id, s.procs[id]);
    }
  }

  /** And that stays so, however the accept loop goes on. */
  lemma {:induction false} GoneForGood(s: Sys, more: seq<Step>, max: nat)
    requires Inv(s) && s.shut == Returned && s.wg == 0 && Goes(s, more, max)
    ensures var s' := Then(s, more, max); s'.shut == Returned && s'.wg == 0 && s'.sessions == {}
    decreases |more|
  {
    if more == [] {
      WithNobodyLeft(s);
    } else {
      NobodyJoins(s, more[0], max);
      StepKeeps(s, more[0], max);
      GoneForGood(Do(s, more[0], max), more[1..], max);
    }
  }

  // ----- how many are served -----

  predicate Served(pc: Pc) {
    pc == Running || pc == DeadlineSet || pc == IdleSet || pc == Reading || pc.Returning? || pc == InData
  }

  function AllServed(s: Sys): set<Id> {
    set id | id in s.procs && Served(s.procs[id].pc)
  }

  lemma ServedStays(s: Sys, step: Step, max: nat)
    requires Inv(s) && Enabled(s, step) && |AllServed(s)| <= max
    ensures |AllServed(Do(s, step, max))| <= max
  {
    var s' := Do(s, step, max);
    if step.Start? && s'.procs[step.id].pc == Running {
      forall id | id in AllServed(s') ensures id in s.sessions {
        assert ProcOk(s, id, s.procs[id]);
      }
      SubsetSize(AllServed(s'), s.sessions);
    } else {
      NoneIsAdded(s, step, max);
      SubsetSize(AllServed(s'), AllServed(s));
    }
  }

  lemma NoneIsAdded(s: Sys, step: Step, max: nat)
    requires Enabled(s, step) && !(step.Start? && Do(s, step, max).procs[step.id].pc == Running)
    ensures AllServed(Do(s, step, max)) <= AllServed(s)
  {
  }

  /** Never are more sessions served at a time than the server allows. */
  lemma {:induction false} NoMoreThanAllowed(steps: seq<Step>, max: nat)
    requires IsRun(steps, max)
    ensures |AllServed(Run(steps, max))| <= max
  {
    if steps == [] {
      assert AllServed(EMPTY) == {};
    } else {
      RunLast(steps, max);
      NoMoreThanAllowed(steps[..|steps| - 1], max);
      RunKeeps(steps[..|steps| - 1], max);
      ServedStays(Run(steps[..|steps| - 1], max), steps[|steps| - 1], max);
    }
  }

  /** A session is served exactly if there is room for it, itself counted; otherwise it ends at once. */
  lemma ServedIfRoom(steps: seq<Step>, max: nat, id: Id)
    requires IsRun(steps, max) && Enabled(Run(steps, max), Start(id))
    ensures var (s, s') := (Run(steps, max), Do(Run(steps, max), Start(id), max));
            && id in s.sessions
            && s'.procs[id].pc == if |s.sessions| <= max then Running else Ending
  {
    RunKeeps(steps, max);
    assert ProcOk(Run(steps, max), id, Run(steps, max).procs[id]);
  }

  /** A session that has read its message goes on, also during a shutdown, and is still counted. */
  lemma GoesOnAfterData(steps: seq<Step>, max: nat, id: Id)
    requires IsRun(steps, max) && Enabled(Run(steps, max), DataDone(id))
    ensures var (s, s') := (Run(steps, max), Do(Run(steps, max), DataDone(id), max));
            && s'.procs[id] == Proc(Running, s.procs[id].deadline, false)
            && id in s'.sessions && s'.shut == s.shut && s'.wg >= 1
  {
    RunKeeps(steps, max);
    var s := Run(steps, max);
    assert ProcOk(s, id, s.procs[id]) && id in Live(s);
  }

  /** Once the connections are closed by force, nobody is left waiting for a client. */
  lemma ForceLeavesNobodyWaiting(steps: seq<Step>, max: nat)
    requires IsRun(steps, max) && Enabled(Run(steps, max), ForceClose)
    ensures var s := Do(Run(steps, max), ForceClose, max);
            forall id | id in s.procs && (s.procs[id].pc == Reading || s.procs[id].pc == InData) ::
              s.procs[id].deadline == Expired
  {
    RunKeeps(steps, max);
    var s := Run(steps, max);
    forall id | id in s.procs ensures ProcOk(s, id, s.procs[id]) {
    }
  }

  // ----- what is not promised -----

  ghost predicate Reaches(s: Sys) {
    exists steps :: IsRun(steps, 100) && Run(steps, 100) == s
  }

  lemma ReachesMore(s: Sys, step: Step)
    requires Reaches(s) && Enabled(s, step)
    ensures Reaches(Do(s, step, 100))
  {
    var steps :| IsRun(steps, 100) && Run(steps, 100) == s;
    var more := steps + [step];
    assert more[..|more| - 1] == steps;
    assert IsRun(more, 100) && Run(more, 100) == Do(s, step, 100);
  }

  function One(p: Proc, closing: bool, lock: Lock, shut: Shut): Sys {
    Sys(map[0 := p], {0}, 1, closing, lock, shut)
  }

  lemma OneIsTracked()
    ensures Reaches(One(Proc(Tracked, Fresh, false), false, Free, NotStarted))
  {
    assert IsRun([], 100) && Run([], 100) == EMPTY;
    ReachesMore(EMPTY, Accept(0));
    var accepted := Sys(map[0 := Proc(New, Fresh, false)], {}, 0, false, Free, NotStarted);
    ReachesMore(accepted, TrackCheck(0));
    var tracking := Sys(map[0 := Proc(Tracking, Fresh, false)], {}, 0, false, ByTrack(0), NotStarted);
    ReachesMore(tracking, TrackInsert(0));
  }

  /** One session changes its record: the step on the one-session state. */
  lemma OneReaches(p: Proc, p': Proc, step: Step, closing: bool, lock: Lock, shut: Shut)
    requires Reaches(One(p, closing, lock, shut)) && Enabled(One(p, closing, lock, shut), step)
    requires Do(One(p, closing, lock, shut), step, 100) == Put(One(p, closing, lock, shut), 0, p')
    ensures Reaches(One(p', closing, lock, shut))
  {
    ReachesMore(One(p, closing, lock, shut), step);
    assert map[0 := p][0 := p'] == map[0 := p'];
  }

  lemma OneReads()
    ensures Reaches(One(Proc(Reading, Fresh, true), false, Free, NotStarted))
  {
    OneIsTracked();
    OneReaches(Proc(Tracked, Fresh, false), Proc(Running, Fresh, false), Start(0), false, Free, NotStarted);
    OneReaches(Proc(Running, Fresh, false), Proc(DeadlineSet, Fresh, false), SetDeadline(0), false, Free, NotStarted);
    OneReaches(Proc(DeadlineSet, Fresh, false), Proc(IdleSet, Fresh, true), SetIdle(0), false, Free, NotStarted);
    OneReaches(Proc(IdleSet, Fresh, true), Proc(Reading, Fresh, true), CheckClosing(0), false, Free, NotStarted);
  }

  lemma OneIsSeenIdle()
    ensures Reaches(One(Proc(Reading, Fresh, true), true, ByShutdown, Interrupting(0, {0})))
  {
    OneReads();
    var p := Proc(Reading, Fresh, true);
    ReachesMore(One(p, false, Free, NotStarted), SetFlag);
    ReachesMore(One(p, true, Free, FlagSet), StartPass);
    ReachesMore(One(p, true, ByShutdown, Passing({0})), Visit(0));
  }

  lemma OneStartsData()
    ensures Reaches(One(Proc(InData, Fresh, false), true, ByShutdown, Interrupting(0, {0})))
  {
    OneIsSeenIdle();
    var shut := Interrupting(0, {0});
    OneReaches(Proc(Reading, Fresh, true), Proc(Returning(false), Fresh, true), ReadDone(0, false),
               true, ByShutdown, shut);
    OneReaches(Proc(Returning(false), Fresh, true), Proc(Running, Fresh, false), ClearIdle(0), true, ByShutdown, shut);
    OneReaches(Proc(Running, Fresh, false), Proc(InData, Fresh, false), StartData(0), true, ByShutdown, shut);
  }

  /**
   * A session that was idle when it was looked at may be reading message data
   * when the interrupt comes: in-flight data is not always allowed to finish.
   */
  lemma InterruptMayHitData()
    ensures Reaches(One(Proc(InData, Expired, false), true, ByShutdown, Passing({})))
  {
    OneStartsData();
    var s := One(Proc(InData, Fresh, false), true, ByShutdown, Interrupting(0, {0}));
    ReachesMore(s, Interrupt);
    assert {0} - {0} == {} && s.procs[0 := Proc(InData, Expired, false)] == map[0 := Proc(InData, Expired, false)];
  }

  // ----- exactly which sessions the pass cuts short -----

  /** The pass is past this session and has left its deadline alone. */
  predicate Spared(s: Sys, id: Id) {
    id in s.procs && s.procs[id].deadline == Fresh && !Ahead(s.shut, id)
  }

  /** A continuation of a run, one step at a time. */
  ghost predicate Goes(s: Sys, steps: seq<Step>, max: nat)
    decreases |steps|
  {
    steps != [] ==> Enabled(s, steps[0]) && Goes(Do(s, steps[0], max), steps[1..], max)
  }

  ghost function Then(s: Sys, steps: seq<Step>, max: nat): Sys
    requires Goes(s, steps, max)
    decreases |steps|
  {
    if steps == [] then s else Then(Do(s, steps[0], max), steps[1..], max)
  }

  /** Which steps cut a deadline. */
  lemma BecomesCut(s: Sys, step: Step, max: nat, id: Id)
    requires Enabled(s, step) && id in Do(s, step, max).procs && Do(s, step, max).procs[id].deadline == Expired
    ensures id in s.procs
    ensures s.procs[id].deadline == Expired || step == ForceClose || (step == Interrupt && s.shut.id == id)
  {
  }

  /** The pass does not go back. */
  lemma PassedStays(s: Sys, step: Step, max: nat, id: Id)
    requires Enabled(s, step) && !Ahead(s.shut, id)
    ensures !Ahead(Do(s, step, max).shut, id)
  {
  }

  lemma SparedStays(s: Sys, step: Step, max: nat, id: Id)
    requires Inv(s) && Enabled(s, step) && step != ForceClose && Spared(s, id)
    ensures Spared(Do(s, step, max), id)
  {
    PassedStays(s, step, max, id);
    assert id in Do(s, step, max).procs;
    if Do(s, step, max).procs[id].deadline == Expired {
      BecomesCut(s, step, max, id);
    }
  }

  lemma {:induction false} SparedForGood(s: Sys, more: seq<Step>, max: nat, id: Id)
    requires Inv(s) && Goes(s, more, max) && ForceClose !in more && Spared(s, id)
    ensures Spared(Then(s, more, max), id)
    decreases |more|
  {
    if more != [] {
      assert more[0] in more;
      SparedStays(s, more[0], max, id);
      StepKeeps(s, more[0], max);
      SparedForGood(Do(s, more[0], max), more[1..], max, id);
    }
  }

  /** On its way out: a session that will not read anything more. */
  predicate Leaving(s: Sys, id: Id) {
    && id in s.procs && s.closing
    && var pc := s.procs[id].pc;
       pc == IdleSet || pc == Returning(true) || pc == Ending || pc == Untracked || pc == Finished
  }

  lemma LeavingStays(s: Sys, step: Step, max: nat, id: Id)
    requires Enabled(s, step) && Leaving(s, id) && Inv(s)
    ensures Leaving(Do(s, step, max), id)
  {
    var s' := Do(s, step, max);
    assert s'.closing && id in s'.procs;
  }

  lemma {:induction false} LeavingForGood(s: Sys, more: seq<Step>, max: nat, id: Id)
    requires Inv(s) && Goes(s, more, max) && Leaving(s, id)
    ensures Leaving(Then(s, more, max), id)
    decreases |more|
  {
    if more != [] {
      LeavingStays(s, more[0], max, id);
      StepKeeps(s, more[0], max);
      LeavingForGood(Do(s, more[0], max), more[1..], max, id);
    }
  }

  /** Some way to go on without closing connections by force ends with this. */
  ghost predicate MayEnd(s: Sys, max: nat, id: Id, inData: bool) {
    exists more :: Goes(s, more, max) && ForceClose !in more && Cut(Then(s, more, max), id, inData)
  }

  /** The session's deadline is gone, and (when `inData`) it is reading message data. */
  predicate Cut(s: Sys, id: Id, inData: bool) {
    id in s.procs && s.procs[id].deadline == Expired && (inData ==> s.procs[id].pc == InData)
  }

  /**
   * What the pass does to a session is settled when it visits it.  From then
   * on, unless connections are closed by force, the session's deadline can be
   * cut if and only if it was seen idle, and message data can be cut if and
   * only if it was seen reading a command or about to return one.
   */
  lemma VisitDecides(steps: seq<Step>, max: nat, id: Id)
    requires IsRun(steps, max) && Enabled(Run(steps, max), Visit(id))
    ensures id in Run(steps, max).procs
    ensures var (p, s') := (Run(steps, max).procs[id], Do(Run(steps, max), Visit(id), max));
            && (MayEnd(s', max, id, false) <==> p.idle)
            && (MayEnd(s', max, id, true) <==> p.pc == Reading || p.pc == Returning(false))
  {
    RunKeeps(steps, max);
    var s := Run(steps, max);
    assert ProcOk(s, id, s.procs[id]);
    StepKeeps(s, Visit(id), max);
    var s' := Do(s, Visit(id), max);
    if s.procs[id].idle {
      InterruptCuts(s', max, id);
      if s.procs[id].pc == Reading || s.procs[id].pc == Returning(false) {
        DataIsCut(s', max, id);
      } else {
        LeavingReadsNothing(s', max, id);
      }
    } else {
      SparedIsNotCut(s', max, id);
    }
  }

  lemma SparedIsNotCut(s: Sys, max: nat, id: Id)
    requires Inv(s) && Spared(s, id)
    ensures !MayEnd(s, max, id, false) && !MayEnd(s, max, id, true)
  {
    forall more | Goes(s, more, max) && ForceClose !in more ensures !Cut(Then(s, more, max), id, false) {
      SparedForGood(s, more, max, id);
    }
  }

  lemma LeavingReadsNothing(s: Sys, max: nat, id: Id)
    requires Inv(s) && Leaving(s, id)
    ensures !MayEnd(s, max, id, true)
  {
    forall more | Goes(s, more, max) ensures !Cut(Then(s, more, max), id, true) {
      LeavingForGood(s, more, max, id);
    }
  }

  lemma GoFirst(s: Sys, step: Step, max: nat, id: Id, inData: bool)
    requires Enabled(s, step) && step != ForceClose && MayEnd(Do(s, step, max), max, id, inData)
    ensures MayEnd(s, max, id, inData)
  {
    var s' := Do(s, step, max);
    var more :| Goes(s', more, max) && ForceClose !in more && Cut(Then(s', more, max), id, inData);
    var all := [step] + more;
    assert all[1..] == more;
    assert Goes(s, all, max) && ForceClose !in all;
  }

  lemma InterruptCuts(s: Sys, max: nat, id: Id)
    requires s.shut.Interrupting? && s.shut.id == id && id in s.procs
    ensures MayEnd(s, max, id, false)
    ensures s.procs[id].pc == InData ==> MayEnd(s, max, id, true)
  {
    var s' := Do(s, Interrupt, max);
    assert Goes(s', [], max) && Then(s', [], max) == s';
    GoFirst(s, Interrupt, max, id, false);
    if s.procs[id].pc == InData {
      GoFirst(s, Interrupt, max, id, true);
    }
  }

  /** Between the look at `idle` and the interrupt the session may get as far as message data. */
  lemma DataIsCut(s: Sys, max: nat, id: Id)
    requires s.shut.Interrupting? && s.shut.id == id && id in s.procs
    requires s.procs[id].pc == Reading || s.procs[id].pc == Returning(false)
    ensures MayEnd(s, max, id, true)
    decreases s.procs[id].pc == Reading
  {
    if s.procs[id].pc == Reading {
      DataIsCut(Do(s, ReadDone(id, false), max), max, id);
      GoFirst(s, ReadDone(id, false), max, id, true);
    } else {
      var running := Do(s, ClearIdle(id), max);
      InterruptCuts(Do(running, StartData(id), max), max, id);
      GoFirst(running, StartData(id), max, id, true);
      GoFirst(s, ClearIdle(id), max, id, true);
    }
  }

  // ----- who cut a deadline -----

  /** After `n` steps the pass looked at this session and found it idle. */
  ghost predicate SeenIdle(steps: seq<Step>, max: nat, n: nat, id: Id) {
    && n < |steps| && steps[n] == Visit(id) && IsRun(steps[..n], max)
    && id in Run(steps[..n], max).procs && Run(steps[..n], max).procs[id].idle
  }

  /** After `m` steps it was interrupted for that. */
  ghost predicate Interrupted(steps: seq<Step>, max: nat, n: nat, m: nat, id: Id) {
    SeenIdle(steps, max, n, id) && n < m < |steps| && steps[m] == Interrupt
  }

  lemma BecomesInterrupting(s: Sys, step: Step, max: nat)
    requires Enabled(s, step) && Do(s, step, max).shut.Interrupting?
    ensures var id := Do(s, step, max).shut.id;
            || (step == Visit(id) && id in s.procs && s.procs[id].idle)
            || (s.shut.Interrupting? && s.shut.id == id)
  {
  }

  lemma StillInterrupted(steps: seq<Step>, step: Step, max: nat, n: nat, m: nat, id: Id)
    ensures SeenIdle(steps, max, n, id) ==> SeenIdle(steps + [step], max, n, id)
    ensures Interrupted(steps, max, n, m, id) ==> Interrupted(steps + [step], max, n, m, id)
  {
    if n < |steps| {
      assert (steps + [step])[..n] == steps[..n];
    }
  }

  lemma RunLast(steps: seq<Step>, max: nat)
    requires steps != [] && IsRun(steps, max)
    ensures steps == steps[..|steps| - 1] + [steps[|steps| - 1]] && IsRun(steps[..|steps| - 1], max)
    ensures Enabled(Run(steps[..|steps| - 1], max), steps[|steps| - 1])
    ensures Run(steps, max) == Do(Run(steps[..|steps| - 1], max), steps[|steps| - 1], max)
  {
  }

  lemma {:induction false} InterruptingMeans(steps: seq<Step>, max: nat, id: Id) returns (n: nat)
    requires IsRun(steps, max) && Run(steps, max).shut.Interrupting? && Run(steps, max).shut.id == id
    ensures SeenIdle(steps, max, n, id)
  {
    assert steps != [];
    RunLast(steps, max);
    var init, last := steps[..|steps| - 1], steps[|steps| - 1];
    var s := Run(init, max);
    BecomesInterrupting(s, last, max);
    if last == Visit(id) && id in s.procs && s.procs[id].idle {
      n := |init|;
    } else {
      n := InterruptingMeans(init, max, id);
      StillInterrupted(init, last, max, n, 0, id);
    }
  }

  /** In every run, a session whose deadline was cut was seen idle and then interrupted, or closed by force. */
  lemma {:induction false} CutOnlyWhenSeenIdle(steps: seq<Step>, max: nat, id: Id)
    requires IsRun(steps, max) && id in Run(steps, max).procs && Run(steps, max).procs[id].deadline == Expired
    ensures ForceClose in steps || exists n, m :: Interrupted(steps, max, n, m, id)
  {
    var init, last := steps[..|steps| - 1], steps[|steps| - 1];
    assert steps == init + [last];
    var s := Run(init, max);
    BecomesCut(s, last, max, id);
    if last == Interrupt && s.shut.id == id {
      var n := InterruptingMeans(init, max, id);
      StillInterrupted(init, last, max, n, 0, id);
      assert Interrupted(steps, max, n, |init|, id);
    } else if last != ForceClose {
      CutOnlyWhenSeenIdle(init, max, id);
      if n, m :| Interrupted(init, max, n, m, id) {
        StillInterrupted(init, last, max, n, m, id);
      }
    }
  }
}
