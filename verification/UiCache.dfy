/**
 * The paged message list of the web page (`useMessages`): an asynchronous
 * state machine over the store's cursors.  Loads are started by scrolling, by
 * a delayed refresh and by a new query; a newer load aborts an older one; the
 * store changes meanwhile; answers come late or not at all.
 */
module UiCache {
  import opened Text
  import opened Filters
  import opened Retention
  import opened StoreSpec
  import opened Paging

  const PAGE_SIZE := 50

  /** A request under way; `prefix` is the list it will extend. */
  datatype Load = Load(append: bool, query: Filter, cursor: nat, limit: nat, gen: nat, prefix: seq<Entry>)

  /** The refs of the hook; `next` 0 stands for no further page. */
  datatype Ui = Ui(
    list: seq<Entry>, next: nat, wanted: nat, generation: nat, synced: int, query: Filter, timer: bool,
    load: Option<Load>)

  const FRESH := Ui([], 0, PAGE_SIZE, 0, -1, ZERO, false, None)

  function Max(a: nat, b: nat): nat { if a < b then b else a }

  /** `load`, up to its first await. */
  function Start(ui: Ui): Ui {
    var append := ui.synced == ui.generation && ui.next > 0 && ui.wanted > |ui.list|;
    ui.(load := Some(
      if append then Load(true, ui.query, ui.next, ui.wanted - |ui.list|, ui.generation, ui.list)
      else Load(false, ui.query, 0, Max(ui.wanted, PAGE_SIZE), ui.generation, [])))
  }

  /** `load` after its await, for the load that was not aborted. */
  function Finish(ui: Ui, page: Page): Ui
    requires ui.load.Some?
  {
    var l := ui.load.value;
    if l.append then ui.(list := l.prefix + page.shown, next := page.next, load := None)
    else ui.(list := page.shown, next := page.next, synced := l.gen, load := None)
  }

  /** The catch branch of `load`. */
  function GiveUp(ui: Ui): Ui { ui.(wanted := |ui.list|, load := None) }

  datatype Act = Refresh | TimerFires | LoadMore | NewQuery(f: Filter)

  predicate CanScroll(ui: Ui) { ui.next > 0 && ui.wanted <= |ui.list| }

  function After(ui: Ui, act: Act): Ui {
    match act
    case Refresh => ui.(generation := ui.generation + 1, timer := true)
    case TimerFires => if ui.timer then Start(ui.(timer := false)) else ui
    case LoadMore => if CanScroll(ui) then Start(ui.(wanted := |ui.list| + PAGE_SIZE)) else ui
    case NewQuery(f) => Start(ui.(query := f, wanted := PAGE_SIZE, generation := ui.generation + 1))
  }

  predicate Restarts(ui: Ui, act: Act) {
    (act.TimerFires? && ui.timer) || (act.LoadMore? && CanScroll(ui)) || act.NewQuery?
  }

  // ----- the page and the store together -----

  /**
   * How a list came about: the store at its first page, then the pages with
   * what happened to the store between them, then what has happened since.
   */
  datatype Origin = Origin(base: State, f: Filter, visits: seq<Visit>, since: seq<Op>)

  /** The server's answer on its way, and the origin of the list it would make. */
  datatype Answer = Answer(page: Page, origin: Origin)

  datatype Sys = Sys(store: State, ui: Ui, origin: Origin, answer: Option<Answer>)

  datatype Step =
    | Change(op: Op)
    | User(act: Act)
    | Serve     // the server answers the request under way
    | Deliver   // the answer arrives
    | Fail      // the request fails

  predicate Enabled(s: Sys, step: Step) {
    match step
    case Change(op) => Legal(s.store, op)
    case User(_) => true
    case Serve => s.ui.load.Some? && s.answer.None?
    case Deliver => s.ui.load.Some? && s.answer.Some?
    case Fail => s.ui.load.Some?
  }

  function Later(o: Origin, op: Op): Origin { o.(since := o.since + [op]) }

  function Served(s: Sys, l: Load): Answer {
    Answer(PageOf(s.store.entries, l.query, l.cursor, l.limit),
           if l.append then Origin(s.origin.base, l.query, s.origin.visits + [Visit(s.origin.since, l.limit)], [])
           else Origin(s.store, l.query, [Visit([], l.limit)], []))
  }

  function Do(lim: Limits, s: Sys, step: Step): Sys
    requires Enabled(s, step)
  {
    match step
    case Change(op) =>
      s.(store := Apply(lim, s.store, op), origin := Later(s.origin, op),
         answer := if s.answer.None? then None else Some(s.answer.value.(origin := Later(s.answer.value.origin, op))))
    case User(act) => s.(ui := After(s.ui, act), answer := if Restarts(s.ui, act) then None else s.answer)
    case Serve => s.(answer := Some(Served(s, s.ui.load.value)))
    case Deliver => s.(ui := Finish(s.ui, s.answer.value.page), origin := s.answer.value.origin, answer := None)
    case Fail => s.(ui := GiveUp(s.ui), answer := None)
  }

  function InitialFor(store: State): Sys {
    Sys(store, After(FRESH, NewQuery(ZERO)), Origin(store, ZERO, [], []), None)
  }

  ghost predicate IsRun(lim: Limits, store: State, steps: seq<Step>)
    decreases |steps|, 0
  {
    steps != [] ==>
      IsRun(lim, store, steps[..|steps| - 1]) && Enabled(Run(lim, store, steps[..|steps| - 1]), steps[|steps| - 1])
  }

  ghost function Run(lim: Limits, store: State, steps: seq<Step>): Sys
    requires IsRun(lim, store, steps)
    decreases |steps|, 1
  {
    if steps == [] then InitialFor(store) else Do(lim, Run(lim, store, steps[..|steps| - 1]), steps[|steps| - 1])
  }

  // ----- the invariant -----

  /** The origin is a real page walk that has led to the store as it is. */
  ghost predicate Genuine(lim: Limits, o: Origin, store: State) {
    && WellFormed(o.base, lim) && Walk(lim, o.base, o.f, o.visits)
    && LegalRun(lim, StateAt(lim, o.base, o.visits), o.since)
    && store == StoreSpec.Run(lim, StateAt(lim, o.base, o.visits), o.since)
  }

  /** The list is what that walk has shown, and the cursor is the walk's. */
  ghost predicate Makes(lim: Limits, o: Origin, list: seq<Entry>, next: nat) {
    list == Shown(lim, o.base, o.f, o.visits) && next == LastPage(lim, o.base, o.f, o.visits).next
  }

  predicate LoadOk(ui: Ui, f: Filter, l: Load) {
    && l.query == ui.query && l.limit >= 1 && l.gen <= ui.generation
    && (l.append ==> l.query == f && l.cursor == ui.next > 0 && l.prefix == ui.list && l.limit == ui.wanted - |ui.list|)
    && (!l.append ==> l.cursor == 0 && l.limit >= ui.wanted)
  }

  predicate UiOk(ui: Ui, f: Filter) {
    && ui.synced <= ui.generation && (ui.synced == ui.generation ==> f == ui.query)
    && (ui.load.Some? ==> LoadOk(ui, f, ui.load.value))
    && (ui.load.None? && ui.next > 0 ==> ui.wanted <= |ui.list|)
  }

  /** If the answer arrives now, list and cursor are again those of a real walk. */
  ghost predicate AnswerOk(lim: Limits, s: Sys, a: Answer) {
    && s.ui.load.Some?
    && var l := s.ui.load.value;
       && Genuine(lim, a.origin, s.store) && a.origin.f == l.query
       && Makes(lim, a.origin, if l.append then l.prefix + a.page.shown else a.page.shown, a.page.next)
       && (a.page.next > 0 ==> |a.page.shown| == l.limit)
  }

  ghost predicate Inv(lim: Limits, s: Sys) {
    && Genuine(lim, s.origin, s.store) && Makes(lim, s.origin, s.ui.list, s.ui.next)
    && UiOk(s.ui, s.origin.f)
    && (s.answer.Some? ==> AnswerOk(lim, s, s.answer.value))
  }

  lemma {:induction false} GenuineLater(lim: Limits, o: Origin, store: State, op: Op)
    requires Genuine(lim, o, store) && Legal(store, op)
    ensures Genuine(lim, Later(o, op), Apply(lim, store, op))
  {
    assert (o.since + [op])[..|o.since|] == o.since;
  }

  lemma {:induction false} StoreIsSound(lim: Limits, o: Origin, store: State)
    requires Genuine(lim, o, store)
    ensures WellFormed(store, lim)
  {
    StatesKeep(lim, o.base, o.f, o.visits);
    RunKeeps(lim, StateAt(lim, o.base, o.visits), o.since);
  }

  lemma {:induction false} ChangeKeeps(lim: Limits, s: Sys, op: Op)
    requires Inv(lim, s) && Legal(s.store, op)
    ensures Inv(lim, Do(lim, s, Change(op)))
  {
    GenuineLater(lim, s.origin, s.store, op);
    if s.answer.Some? {
      GenuineLater(lim, s.answer.value.origin, s.store, op);
    }
  }

  lemma {:induction false} StartOk(ui: Ui, f: Filter)
    requires ui.synced <= ui.generation && (ui.synced == ui.generation ==> f == ui.query)
    ensures UiOk(Start(ui), f)
  {
  }

  lemma {:induction false} UserKeeps(lim: Limits, s: Sys, act: Act)
    requires Inv(lim, s)
    ensures Inv(lim, Do(lim, s, User(act)))
  {
    match act {
      case Refresh =>
      case TimerFires => StartOk(s.ui.(timer := false), s.origin.f);
      case LoadMore => StartOk(s.ui.(wanted := |s.ui.list| + PAGE_SIZE), s.origin.f);
      case NewQuery(f) =>
        StartOk(s.ui.(query := f, wanted := PAGE_SIZE, generation := s.ui.generation + 1), s.origin.f);
    }
  }

  /** One page more on a walk. */
  lemma {:induction false} WalkOn(lim: Limits, o: Origin, store: State, limit: nat, visits: seq<Visit>)
    requires Genuine(lim, o, store) && limit >= 1 && visits == o.visits + [Visit(o.since, limit)]
    requires o.visits != [] ==> LastPage(lim, o.base, o.f, o.visits).next > 0
    ensures var o' := Origin(o.base, o.f, visits, []);
            var page := PageOf(store.entries, o.f, LastPage(lim, o.base, o.f, o.visits).next, limit);
            && Genuine(lim, o', store)
            && Makes(lim, o', Shown(lim, o.base, o.f, o.visits) + page.shown, page.next)
  {
    assert visits[..|visits| - 1] == o.visits;
    assert StateAt(lim, o.base, visits) == store;
  }

  lemma {:induction false} PageIsFull(lim: Limits, store: State, f: Filter, cursor: nat, limit: nat)
    requires WellFormed(store, lim)
    ensures var page := PageOf(store.entries, f, cursor, limit); page.next > 0 ==> |page.shown| == limit
  {
    PageIsExact(store.entries, f, cursor, limit);
  }

  lemma {:induction false} ServeKeeps(lim: Limits, s: Sys)
    requires Inv(lim, s) && Enabled(s, Serve)
    ensures Inv(lim, Do(lim, s, Serve))
  {
    var l := s.ui.load.value;
    StoreIsSound(lim, s.origin, s.store);
    PageIsFull(lim, s.store, l.query, l.cursor, l.limit);
    if l.append {
      WalkOn(lim, s.origin, s.store, l.limit, s.origin.visits + [Visit(s.origin.since, l.limit)]);
    } else {
      NewWalk(lim, s.store, l.query, l.limit);
    }
  }

  lemma {:induction false} NewWalk(lim: Limits, store: State, f: Filter, limit: nat)
    requires WellFormed(store, lim) && limit >= 1
    ensures var o := Origin(store, f, [Visit([], limit)], []);
            var page := PageOf(store.entries, f, 0, limit);
            Genuine(lim, o, store) && Makes(lim, o, page.shown, page.next)
  {
    NothingYet(lim, store, f);
    WalkOn(lim, Origin(store, f, [], []), store, limit, [Visit([], limit)]);
    FirstPage(Shown(lim, store, f, []), PageOf(store.entries, f, 0, limit).shown);
  }

  lemma NothingYet(lim: Limits, store: State, f: Filter)
    requires WellFormed(store, lim)
    ensures Genuine(lim, Origin(store, f, [], []), store)
    ensures Shown(lim, store, f, []) == [] && LastPage(lim, store, f, []).next == 0
  {
  }

  lemma FirstPage(before: seq<Entry>, page: seq<Entry>)
    requires before == []
    ensures before + page == page
  {
  }

  lemma {:induction false} StepKeeps(lim: Limits, s: Sys, step: Step)
    requires Inv(lim, s) && Enabled(s, step)
    ensures Inv(lim, Do(lim, s, step))
  {
    match step {
      case Change(op) => ChangeKeeps(lim, s, op);
      case User(act) => UserKeeps(lim, s, act);
      case Serve => ServeKeeps(lim, s);
      case Deliver =>
      case Fail =>
    }
  }

  lemma {:induction false} RunKeepsInv(lim: Limits, store: State, steps: seq<Step>)
    requires WellFormed(store, lim) && IsRun(lim, store, steps)
    ensures Inv(lim, Run(lim, store, steps))
  {
    if steps == [] {
      assert Shown(lim, store, ZERO, []) == [];
      StartOk(FRESH.(generation := 1), ZERO);
    } else {
      RunKeepsInv(lim, store, steps[..|steps| - 1]);
      StepKeeps(lim, Run(lim, store, steps[..|steps| - 1]), steps[|steps| - 1]);
    }
  }

  // ----- the theorem -----

  ghost predicate Consistent(lim: Limits, s: Sys) {
    && Descending(s.ui.list)
    && (forall e <- s.ui.list :: Match(s.origin.f, e.item.msg))
    && (s.ui.next > 0 ==> s.ui.list != [] && s.ui.list[|s.ui.list| - 1].no == s.ui.next)
    && (s.ui.synced == s.ui.generation ==> s.origin.f == s.ui.query)
    && (s.ui.load.None? && s.ui.next > 0 ==> CanScroll(s.ui) && After(s.ui, LoadMore).load.Some?)
    && (s.ui.next == 0 && s.origin.visits != [] ==>
          forall e | Survives(lim, s.origin.base, s.origin.visits, e) && Match(s.origin.f, e.item.msg) ::
            e in s.ui.list)
  }

  /**
   * The list cache stays consistent.  In every run the list is strictly
   * newest first (so no message twice), all of it matches one query, the
   * cursor when present is that of its last element, and while no load is
   * under way and more exists scrolling can start one.  A complete list lacks
   * no matching message that was there at every page it was made from.
   */
  lemma {:induction false} CacheIsConsistent(lim: Limits, store: State, steps: seq<Step>)
    requires WellFormed(store, lim) && IsRun(lim, store, steps)
    ensures Consistent(lim, Run(lim, store, steps))
  {
    RunKeepsInv(lim, store, steps);
    InvMeans(lim, Run(lim, store, steps));
  }

  lemma InvMeans(lim: Limits, s: Sys)
    requires Inv(lim, s)
    ensures Consistent(lim, s)
  {
    ListMeans(lim, s.origin, s.store, s.ui.list, s.ui.next);
  }

  lemma {:induction false} ListMeans(lim: Limits, o: Origin, store: State, list: seq<Entry>, next: nat)
    requires Genuine(lim, o, store) && Makes(lim, o, list, next)
    ensures Descending(list) && (forall e <- list :: Match(o.f, e.item.msg))
    ensures next > 0 ==> list != [] && list[|list| - 1].no == next
    ensures next == 0 && o.visits != [] ==>
              forall e | Survives(lim, o.base, o.visits, e) && Match(o.f, e.item.msg) :: e in list
  {
    if o.visits != [] {
      PagingIsExact(lim, o.base, o.f, o.visits);
      ThisPage(lim, o.base, o.f, o.visits);
    }
  }

  /** A list loaded while the store stands still is the store's own list, however many pages it took. */
  lemma {:induction false} QuietListIsExact(lim: Limits, store: State, steps: seq<Step>)
    requires WellFormed(store, lim) && IsRun(lim, store, steps)
    requires var s := Run(lim, store, steps);
             && s.ui.next == 0 && s.origin.visits != [] && s.origin.since == []
             && forall v <- s.origin.visits :: v.ops == []
    ensures var s := Run(lim, store, steps); s.ui.list == PageOf(s.store.entries, s.origin.f, 0, 0).shown
  {
    RunKeepsInv(lim, store, steps);
    var o := Run(lim, store, steps).origin;
    PagesMakeTheList(lim, o.base, o.f, o.visits);
    StillStates(lim, o.base, o.visits);
  }

  lemma {:induction false} StillStates(lim: Limits, st: State, visits: seq<Visit>)
    requires forall v <- visits :: v.ops == []
    ensures StateAt(lim, st, visits) == st
  {
    if visits != [] {
      StillStates(lim, st, visits[..|visits| - 1]);
      assert visits[|visits| - 1] in visits;
    }
  }

  /**
   * What is requested, in every run: a new query asks for its first 50;
   * scrolling asks for the next 50 behind the last message shown or, when
   * what is shown is stale, for all that is wanted from the top; a refresh
   * asks for all that is wanted, 50 at the least.
   */
  lemma RequestsAreExact(lim: Limits, store: State, steps: seq<Step>, f: Filter)
    requires WellFormed(store, lim) && IsRun(lim, store, steps)
    ensures AsksFirst(Run(lim, store, steps).ui, f) && AsksAgain(Run(lim, store, steps).ui)
    ensures AsksMore(Run(lim, store, steps).ui)
  {
    RunKeepsInv(lim, store, steps);
    CacheIsConsistent(lim, store, steps);
    AsksWhatIsMissing(Run(lim, store, steps).ui, f);
  }

  lemma AsksWhatIsMissing(ui: Ui, f: Filter)
    requires ui.synced <= ui.generation
    requires ui.next > 0 ==> ui.list != [] && ui.list[|ui.list| - 1].no == ui.next
    requires ui.load.None? && ui.next > 0 ==> CanScroll(ui)
    ensures AsksFirst(ui, f) && AsksAgain(ui) && AsksMore(ui)
  {
  }

  ghost predicate AsksFirst(ui: Ui, f: Filter) {
    After(ui, NewQuery(f)).load == Some(Load(false, f, 0, 50, ui.generation + 1, []))
  }

  ghost predicate AsksMore(ui: Ui) {
    ui.load.None? && ui.next > 0 ==>
      && ui.list != [] && After(ui, LoadMore).load.Some?
      && After(ui, LoadMore).load.value
         == if ui.synced != ui.generation then Load(false, ui.query, 0, |ui.list| + 50, ui.generation, [])
            else Load(true, ui.query, ui.list[|ui.list| - 1].no, 50, ui.generation, ui.list)
  }

  ghost predicate AsksAgain(ui: Ui) {
    var stale := After(ui, Refresh);
    After(stale, TimerFires).load == Some(Load(false, ui.query, 0, Max(ui.wanted, 50), ui.generation + 1, []))
  }

  // ----- a list that counts as synced is fresh -----

  /** The store is known to have changed, or another query is asked for: what is shown is stale from here on. */
  predicate Stales(step: Step) { step.User? && (step.act.Refresh? || step.act.NewQuery?) }

  /** No refresh and no new query from step `k` on. */
  predicate CalmSince(steps: seq<Step>, k: nat) { forall i | k <= i < |steps| :: !Stales(steps[i]) }

  /** When the newest load was started; the first one is there from the beginning. */
  ghost function Asked(lim: Limits, store: State, steps: seq<Step>): (k: nat)
    requires IsRun(lim, store, steps)
    ensures k <= |steps|
    decreases |steps|
  {
    if steps == [] then 0
    else
      var (before, last) := (steps[..|steps| - 1], steps[|steps| - 1]);
      if last.User? && Restarts(Run(lim, store, before).ui, last.act) then |steps| else Asked(lim, store, before)
  }

  /** When the load was started that last replaced the whole list, if one has. */
  ghost function Loaded(lim: Limits, store: State, steps: seq<Step>): (k: Option<nat>)
    requires IsRun(lim, store, steps)
    ensures k.Some? ==> k.value < |steps|
    decreases |steps|
  {
    if steps == [] then None
    else
      var (before, last) := (steps[..|steps| - 1], steps[|steps| - 1]);
      if last.Deliver? && !Run(lim, store, before).ui.load.value.append then Some(Asked(lim, store, before))
      else Loaded(lim, store, before)
  }

  lemma {:induction false} PrefixIsRun(lim: Limits, store: State, steps: seq<Step>, k: nat)
    requires IsRun(lim, store, steps) && k <= |steps|
    ensures IsRun(lim, store, steps[..k])
    decreases |steps|
  {
    if k == |steps| {
      assert steps[..k] == steps;
    } else {
      PrefixIsRun(lim, store, steps[..|steps| - 1], k);
      assert steps[..|steps| - 1][..k] == steps[..k];
    }
  }

  /** The generation after the first `k` steps. */
  ghost function GenerationAt(lim: Limits, store: State, steps: seq<Step>, k: nat): nat
    requires IsRun(lim, store, steps) && k <= |steps|
  {
    PrefixIsRun(lim, store, steps, k);
    Run(lim, store, steps[..k]).ui.generation
  }

  lemma GenerationEarlier(lim: Limits, store: State, steps: seq<Step>, k: nat)
    requires IsRun(lim, store, steps) && k < |steps|
    ensures IsRun(lim, store, steps[..|steps| - 1])
    ensures GenerationAt(lim, store, steps, k) == GenerationAt(lim, store, steps[..|steps| - 1], k)
  {
    assert steps[..|steps| - 1][..k] == steps[..k];
  }

  /** The generation counts what makes lists stale. */
  lemma {:induction false} GenerationCounts(lim: Limits, store: State, steps: seq<Step>, k: nat)
    requires IsRun(lim, store, steps) && k <= |steps|
    ensures GenerationAt(lim, store, steps, k) <= Run(lim, store, steps).ui.generation
    ensures GenerationAt(lim, store, steps, k) == Run(lim, store, steps).ui.generation <==> CalmSince(steps, k)
    decreases |steps|
  {
    if k == |steps| {
      assert steps[..k] == steps;
    } else {
      var before := steps[..|steps| - 1];
      GenerationEarlier(lim, store, steps, k);
      GenerationCounts(lim, store, before, k);
      assert forall i | k <= i < |before| :: before[i] == steps[i];
      assert CalmSince(steps, k) <==> CalmSince(before, k) && !Stales(steps[|steps| - 1]);
    }
  }

  /** A load under way carries the generation of its start, */
  lemma {:induction false} LoadKnowsItsStart(lim: Limits, store: State, steps: seq<Step>)
    requires IsRun(lim, store, steps)
    ensures var ui := Run(lim, store, steps).ui;
            ui.load.Some? ==> ui.load.value.gen == GenerationAt(lim, store, steps, Asked(lim, store, steps))
    decreases |steps|
  {
    if steps == [] {
      assert steps[..0] == steps;
    } else {
      var (before, last) := (steps[..|steps| - 1], steps[|steps| - 1]);
      var ui := Run(lim, store, before).ui;
      if last.User? && Restarts(ui, last.act) {
        assert steps[..|steps|] == steps;
      } else {
        LoadKnowsItsStart(lim, store, before);
        GenerationEarlier(lim, store, steps, Asked(lim, store, before));
        assert Run(lim, store, steps).ui.load in {None, ui.load};
      }
    }
  }

  /** and the list that of the load which made it. */
  lemma {:induction false} ListKnowsItsLoad(lim: Limits, store: State, steps: seq<Step>)
    requires IsRun(lim, store, steps)
    ensures Run(lim, store, steps).ui.synced
         == match Loaded(lim, store, steps) case None => -1 case Some(k) => GenerationAt(lim, store, steps, k)
    decreases |steps|
  {
    if steps != [] {
      var before := steps[..|steps| - 1];
      ListKnowsItsLoad(lim, store, before);
      if Loaded(lim, store, before).Some? {
        GenerationEarlier(lim, store, steps, Loaded(lim, store, before).value);
      }
      if steps[|steps| - 1].Deliver? {
        LoadKnowsItsStart(lim, store, before);
        GenerationEarlier(lim, store, steps, Asked(lim, store, before));
      }
    }
  }

  /** The server answered from this store at step `i`, no earlier than step `from`. */
  ghost predicate ServedAt(lim: Limits, store: State, steps: seq<Step>, from: nat, i: nat, base: State)
    requires IsRun(lim, store, steps)
  {
    && from <= i < |steps| && steps[i] == Serve
    && (PrefixIsRun(lim, store, steps, i); Run(lim, store, steps[..i]).store == base)
  }

  ghost predicate ServedSince(lim: Limits, store: State, steps: seq<Step>, from: nat, base: State)
    requires IsRun(lim, store, steps)
  {
    exists i: nat :: ServedAt(lim, store, steps, from, i, base)
  }

  lemma ServedStays(lim: Limits, store: State, steps: seq<Step>, from: nat, base: State)
    requires IsRun(lim, store, steps) && steps != [] && IsRun(lim, store, steps[..|steps| - 1])
    requires ServedSince(lim, store, steps[..|steps| - 1], from, base)
    ensures ServedSince(lim, store, steps, from, base)
  {
    var i: nat :| ServedAt(lim, store, steps[..|steps| - 1], from, i, base);
    assert steps[..|steps| - 1][..i] == steps[..i];
    assert ServedAt(lim, store, steps, from, i, base);
  }

  lemma ServedNow(lim: Limits, store: State, steps: seq<Step>, from: nat)
    requires IsRun(lim, store, steps) && from < |steps| && steps[|steps| - 1] == Serve
    ensures ServedSince(lim, store, steps, from, Run(lim, store, steps[..|steps| - 1]).store)
  {
    assert ServedAt(lim, store, steps, from, |steps| - 1, Run(lim, store, steps[..|steps| - 1]).store);
  }

  /** The list stems from a Serve step behind the start of the load that last replaced it. */
  ghost predicate ListTraced(lim: Limits, store: State, steps: seq<Step>)
    requires IsRun(lim, store, steps)
  {
    var loaded := Loaded(lim, store, steps);
    loaded.Some? ==> ServedSince(lim, store, steps, loaded.value, Run(lim, store, steps).origin.base)
  }

  /** So does the answer on its way: behind the start of its load, or from where the list stems. */
  ghost predicate AnswerTraced(lim: Limits, store: State, steps: seq<Step>)
    requires IsRun(lim, store, steps)
  {
    var s := Run(lim, store, steps);
    s.answer.Some? && s.ui.load.Some? ==>
      var base := s.answer.value.origin.base;
      if s.ui.load.value.append then base == s.origin.base
      else ServedSince(lim, store, steps, Asked(lim, store, steps), base)
  }

  lemma {:induction false} ListsAreTraced(lim: Limits, store: State, steps: seq<Step>)
    requires IsRun(lim, store, steps)
    ensures ListTraced(lim, store, steps) && AnswerTraced(lim, store, steps)
    decreases |steps|
  {
    if steps != [] {
      var before := steps[..|steps| - 1];
      ListsAreTraced(lim, store, before);
      ListStaysTraced(lim, store, steps, before);
      AnswerStaysTraced(lim, store, steps, before);
    }
  }

  lemma ListStaysTraced(lim: Limits, store: State, steps: seq<Step>, before: seq<Step>)
    requires IsRun(lim, store, steps) && steps != [] && before == steps[..|steps| - 1]
    requires ListTraced(lim, store, before) && AnswerTraced(lim, store, before)
    ensures ListTraced(lim, store, steps)
  {
    var (s, last) := (Run(lim, store, before), steps[|steps| - 1]);
    if last.Deliver? && !s.ui.load.value.append {
      ServedStays(lim, store, steps, Asked(lim, store, before), s.answer.value.origin.base);
    } else if Loaded(lim, store, before).Some? {
      ServedStays(lim, store, steps, Loaded(lim, store, before).value, s.origin.base);
    }
  }

  lemma AnswerStaysTraced(lim: Limits, store: State, steps: seq<Step>, before: seq<Step>)
    requires IsRun(lim, store, steps) && steps != [] && before == steps[..|steps| - 1]
    requires AnswerTraced(lim, store, before)
    ensures AnswerTraced(lim, store, steps)
  {
    var (s, last) := (Run(lim, store, before), steps[|steps| - 1]);
    if last.Serve? {
      ServedNow(lim, store, steps, Asked(lim, store, before));
    } else if s.answer.Some? && s.ui.load.Some? && !s.ui.load.value.append {
      ServedStays(lim, store, steps, Asked(lim, store, before), s.answer.value.origin.base);
    }
  }

  /**
   * A list counts as synced exactly when the load that last replaced it was
   * started behind every refresh and every new query; it then shows the store
   * as the server saw it behind them all.
   */
  lemma SyncedIsFresh(lim: Limits, store: State, steps: seq<Step>)
    requires IsRun(lim, store, steps)
    ensures var (s, loaded) := (Run(lim, store, steps), Loaded(lim, store, steps));
            && (s.ui.synced == s.ui.generation <==> loaded.Some? && CalmSince(steps, loaded.value))
            && (loaded.Some? ==> ServedSince(lim, store, steps, loaded.value, s.origin.base))
  {
    ListKnowsItsLoad(lim, store, steps);
    ListsAreTraced(lim, store, steps);
    if Loaded(lim, store, steps).Some? {
      GenerationCounts(lim, store, steps, Loaded(lim, store, steps).value);
    }
  }

  // ----- the hook as an object -----

  /** What an answer from the server is like, for the load that asked for it. */
  ghost predicate PageOk(l: Load, page: Page) {
    && Descending(page.shown)
    && (forall e <- page.shown :: Match(l.query, e.item.msg) && (l.cursor > 0 ==> e.no < l.cursor))
    && (page.next > 0 ==> page.shown != [] && page.shown[|page.shown| - 1].no == page.next && |page.shown| == l.limit)
  }

  lemma ServerPageIsOk(lim: Limits, store: State, l: Load)
    requires WellFormed(store, lim)
    ensures PageOk(l, PageOf(store.entries, l.query, l.cursor, l.limit))
  {
    PageIsExact(store.entries, l.query, l.cursor, l.limit);
  }

  /** Strictly newest first, all from the query `f`, and the cursor is that of the last one shown. */
  ghost predicate ListOk(ui: Ui, f: Filter) {
    && Descending(ui.list) && (forall e <- ui.list :: Match(f, e.item.msg))
    && (ui.next > 0 ==> ui.list != [] && ui.list[|ui.list| - 1].no == ui.next)
    && ui.synced <= ui.generation && (ui.synced == ui.generation ==> f == ui.query)
  }

  lemma Joined(list: seq<Entry>, l: Load, page: Page)
    requires Descending(list) && list != [] && list[|list| - 1].no == l.cursor > 0 && PageOk(l, page)
    requires forall e <- list :: Match(l.query, e.item.msg)
    ensures Descending(list + page.shown) && list <= list + page.shown
    ensures forall e <- list + page.shown :: Match(l.query, e.item.msg)
    ensures page.next > 0 ==> (list + page.shown)[|list + page.shown| - 1].no == page.next
  {
    forall e | e in list ensures e.no >= l.cursor {
      var i :| 0 <= i < |list| && list[i] == e;
    }
    AppendDescending(list, page.shown, l.cursor);
  }

  /** An answer that does not extend the list replaces it. */
  lemma FinishAnew(ui: Ui, f: Filter, page: Page)
    requires UiOk(ui, f) && ui.load.Some? && !ui.load.value.append && PageOk(ui.load.value, page)
    ensures var ui' := Finish(ui, page);
            && ListOk(ui', ui.load.value.query) && UiOk(ui', ui.load.value.query)
            && (ui'.next > 0 ==> |ui'.list| >= ui.wanted)
  {
  }

  lemma FinishMore(ui: Ui, f: Filter, page: Page)
    requires ListOk(ui, f) && UiOk(ui, f) && ui.load.Some? && ui.load.value.append && PageOk(ui.load.value, page)
    ensures var ui' := Finish(ui, page);
            && ListOk(ui', ui.load.value.query) && UiOk(ui', ui.load.value.query)
            && ui.list <= ui'.list && (ui'.next > 0 ==> |ui'.list| >= ui.wanted)
  {
    var list := ui.list + page.shown;
    Joined(ui.list, ui.load.value, page);
    assert Finish(ui, page) == ui.(list := list, next := page.next, load := None);
  }

  lemma FinishKeeps(ui: Ui, f: Filter, page: Page)
    requires ListOk(ui, f) && UiOk(ui, f) && ui.load.Some? && PageOk(ui.load.value, page)
    ensures var (ui', l) := (Finish(ui, page), ui.load.value);
            && ListOk(ui', l.query) && UiOk(ui', l.query)
            && (l.append ==> ui.list <= ui'.list) && (ui'.next > 0 ==> |ui'.list| >= ui.wanted)
  {
    if ui.load.value.append {
      FinishMore(ui, f, page);
    } else {
      FinishAnew(ui, f, page);
    }
  }

  /** A load asks for just the entries that are missing behind the last one shown, or for everything anew. */
  predicate Asks(ui: Ui, l: Load) {
    && l.query == ui.query
    && if l.append then ui.list != [] && l.cursor == ui.list[|ui.list| - 1].no && |ui.list| + l.limit == ui.wanted
       else l.cursor == 0 && l.limit >= ui.wanted && l.limit >= PAGE_SIZE
  }

  lemma StartAsks(ui: Ui, f: Filter)
    requires ListOk(ui, f)
    ensures ListOk(Start(ui), f) && UiOk(Start(ui), f) && Start(ui).load.Some? && Asks(Start(ui), Start(ui).load.value)
  {
    StartOk(ui, f);
  }

  class MessageList {
    var list: seq<Entry>
    var next: nat
    var wanted: nat
    var generation: nat
    var synced: int
    var query: Filter
    var timer: bool
    var load: Option<Load>
    ghost var shownFor: Filter  // the query that the list answers

    ghost function View(): Ui
      reads this
    {
      Ui(list, next, wanted, generation, synced, query, timer, load)
    }

    /** The list is in order, and with more to show and no load under way scrolling can start one. */
    ghost predicate Valid()
      reads this
    {
      ListOk(View(), shownFor) && UiOk(View(), shownFor)
    }

    constructor ()
      ensures Valid() && View() == After(FRESH, Act.NewQuery(ZERO)) && shownFor == ZERO
    {
      list, next, wanted, generation, synced, query, timer, load := [], 0, PAGE_SIZE, 0, -1, ZERO, false, None;
      shownFor := ZERO;
      new;
      NewQuery(ZERO);
    }

    /** `load` up to its first await. */
    method StartLoad()
      requires ListOk(View(), shownFor)
      modifies this`load
      ensures Valid() && View() == Start(old(View()))
      ensures load.Some? && Asks(View(), load.value)
    {
      var append := synced == generation && next > 0 && wanted > |list|;
      if append {
        load := Some(Load(true, query, next, wanted - |list|, generation, list));
      } else {
        load := Some(Load(false, query, 0, Max(wanted, PAGE_SIZE), generation, []));
      }
      StartAsks(old(View()), shownFor);
    }

    /** `load` after its await: an extended list keeps what it showed; what was wanted is there if more follow. */
    method Answered(page: Page)
      requires Valid() && load.Some? && PageOk(load.value, page)
      modifies this
      ensures Valid() && View() == Finish(old(View()), page) && shownFor == old(load.value.query)
      ensures old(load.value.append) ==> old(list) <= list
      ensures next > 0 ==> |list| >= wanted == old(wanted)
    {
      FinishKeeps(View(), shownFor, page);
      shownFor := load.value.query;
      if load.value.append {
        list, next := load.value.prefix + page.shown, page.next;
      } else {
        synced := load.value.gen;
        list, next := page.shown, page.next;
      }
      load := None;
    }

    /** The catch branch of `load`: the list stays and scrolling can try again. */
    method Failed()
      requires Valid() && load.Some?
      modifies this`wanted, this`load
      ensures Valid() && View() == GiveUp(old(View()))
      ensures next > 0 ==> CanScroll(View())
    {
      wanted := |list|;
      load := None;
    }

    /** `refresh`: nothing changes but that the list counts as stale and a load will come. */
    method Refresh()
      requires Valid()
      modifies this`generation, this`timer
      ensures Valid() && View() == After(old(View()), Act.Refresh) && timer && synced < generation
    {
      generation := generation + 1;
      if !timer {
        timer := true;
      }
    }

    method TimerFires()
      requires Valid()
      modifies this`timer, this`load
      ensures Valid() && View() == After(old(View()), Act.TimerFires) && !timer
      ensures old(timer) ==> load.Some?
    {
      if timer {
        timer := false;
        StartLoad();
      }
    }

    /** `loadMore`: with no load under way and more to show it always starts one, for a page more. */
    method LoadMore()
      requires Valid()
      modifies this`wanted, this`load
      ensures Valid() && View() == After(old(View()), Act.LoadMore)
      ensures old(load.None? && next > 0) ==> load.Some? && wanted == |list| + PAGE_SIZE
    {
      if next == 0 || wanted > |list| {
        return;
      }
      wanted := |list| + PAGE_SIZE;
      StartLoad();
    }

    /** A new query: the list of the old one is not extended any more. */
    method NewQuery(f: Filter)
      requires ListOk(View(), shownFor)
      modifies this`query, this`wanted, this`generation, this`load
      ensures Valid() && View() == After(old(View()), Act.NewQuery(f))
      ensures load.Some? && !load.value.append && load.value.query == f && load.value.cursor == 0
    {
      query, wanted, generation := f, PAGE_SIZE, generation + 1;
      StartLoad();
    }

    method Heed(act: Act)
      requires Valid()
      modifies this
      ensures Valid() && View() == After(old(View()), act) && shownFor == old(shownFor)
    {
      match act {
        case Refresh => Refresh();
        case TimerFires => TimerFires();
        case LoadMore => LoadMore();
        case NewQuery(f) => NewQuery(f);
      }
    }
  }

  /** The answer on its way is one the object can take. */
  ghost predicate AnswerFits(s: Sys) {
    s.answer.Some? ==> s.ui.load.Some? && PageOk(s.ui.load.value, s.answer.value.page)
  }

  lemma AnswerStillFits(lim: Limits, s: Sys, step: Step)
    requires Inv(lim, s) && Enabled(s, step) && AnswerFits(s)
    ensures AnswerFits(Do(lim, s, step))
  {
    if step.Serve? {
      StoreIsSound(lim, s.origin, s.store);
      ServerPageIsOk(lim, s.store, s.ui.load.value);
    }
  }

  /** One step of the page on the object. */
  method Move(lim: Limits, m: MessageList, s: Sys, step: Step)
    requires m.Valid() && m.View() == s.ui && Enabled(s, step) && AnswerFits(s)
    modifies m
    ensures m.Valid() && m.View() == Do(lim, s, step).ui
  {
    match step {
      case Change(_) =>
      case User(act) => m.Heed(act);
      case Serve =>
      case Deliver => m.Answered(s.answer.value.page);
      case Fail => m.Failed();
    }
  }

  /** The object goes through every run of the page, keeping its list in order: what is proved of runs holds of it. */
  method Browse(lim: Limits, store: State, steps: seq<Step>) returns (m: MessageList)
    requires WellFormed(store, lim) && IsRun(lim, store, steps)
    ensures m.Valid() && m.View() == Run(lim, store, steps).ui
  {
    m := new MessageList();
    var s := InitialFor(store);
    var i := 0;
    assert steps[..0] == [];
    while i < |steps|
      invariant 0 <= i <= |steps| && m.Valid() && fresh(m) && m.View() == s.ui
      invariant IsRun(lim, store, steps[..i]) && s == Run(lim, store, steps[..i]) && AnswerFits(s)
      invariant IsRun(lim, store, steps)
    {
      RunAhead(lim, store, steps, i);
      RunKeepsInv(lim, store, steps[..i]);
      AnswerStillFits(lim, s, steps[i]);
      Move(lim, m, s, steps[i]);
      s := Do(lim, s, steps[i]);
      i := i + 1;
    }
    assert steps[..i] == steps;
  }

  lemma {:induction false} RunPrefix(lim: Limits, store: State, steps: seq<Step>, i: nat)
    requires IsRun(lim, store, steps) && i <= |steps|
    ensures IsRun(lim, store, steps[..i])
  {
    if i < |steps| {
      RunPrefix(lim, store, steps[..|steps| - 1], i);
      assert steps[..|steps| - 1][..i] == steps[..i];
    } else {
      assert steps[..i] == steps;
    }
  }

  lemma RunAhead(lim: Limits, store: State, steps: seq<Step>, i: nat)
    requires IsRun(lim, store, steps) && i < |steps|
    ensures IsRun(lim, store, steps[..i]) && IsRun(lim, store, steps[..i + 1])
    ensures Enabled(Run(lim, store, steps[..i]), steps[i])
    ensures Run(lim, store, steps[..i + 1]) == Do(lim, Run(lim, store, steps[..i]), steps[i])
  {
    RunPrefix(lim, store, steps, i);
    RunPrefix(lim, store, steps, i + 1);
    assert steps[..i + 1][..i] == steps[..i];
  }
}
