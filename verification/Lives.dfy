/**
 * A data directory over many lives of the program: start, run, crash, start
 * again.  First the store object on its directory, then any sequence of lives.
 */
module Lives {
  import opened Retention
  import opened StoreSpec
  import opened Disk
  import opened Store
  import opened Recovery
  import opened CrashRuns
  import Text

  // ----- the store object and its directory -----

  ghost predicate Ready(store: MemoryStore)
    reads store, store.disk
  {
    store.Valid() && store.disk != null && store.disk.Valid()
  }

  ghost function Here(store: MemoryStore): Point
    reads store, store.disk
    requires store.disk != null
  {
    Point(store.now, store.disk.files)
  }

  /** Stop after any step from the `from`-th on: the directory is as the crash theorem says. */
  ghost predicate StopsWell(c: Codec, lim: Limits, p: Point, ops: seq<Op>, origin: FS, log: seq<Step>, from: nat) {
    forall k | from <= k <= |log| :: Found(c, lim, p, ops, k - from, DoAll(origin, log[..k]))
  }

  ghost predicate FoundAll(c: Codec, lim: Limits, p: Point, ops: seq<Op>, fs: FS, steps: seq<Step>) {
    forall k | 0 <= k <= |steps| :: Found(c, lim, p, ops, k, DoAll(fs, steps[..k]))
  }

  lemma FoundAt(c: Codec, lim: Limits, p: Point, ops: seq<Op>, steps: seq<Step>, k: nat)
    requires Mirrored(c, lim, p.st, p.files) && GoodRun(c, lim, p, ops)
    requires steps == RunSteps(c, lim, p, ops) && k <= |steps|
    ensures Found(c, lim, p, ops, k, DoAll(p.files, steps[..k]))
  {
    RunIsCrashConsistent(c, lim, p, ops, k);
  }

  lemma RunStops(c: Codec, lim: Limits, p: Point, ops: seq<Op>, steps: seq<Step>)
    requires Mirrored(c, lim, p.st, p.files) && GoodRun(c, lim, p, ops) && steps == RunSteps(c, lim, p, ops)
    ensures FoundAll(c, lim, p, ops, p.files, steps)
  {
    forall k | 0 <= k <= |steps| ensures Found(c, lim, p, ops, k, DoAll(p.files, steps[..k])) {
      FoundAt(c, lim, p, ops, steps, k);
    }
  }

  lemma LogStops(c: Codec, lim: Limits, p: Point, ops: seq<Op>, origin: FS, before: seq<Step>, steps: seq<Step>)
    requires FoundAll(c, lim, p, ops, DoAll(origin, before), steps)
    ensures StopsWell(c, lim, p, ops, origin, before + steps, |before|)
  {
    forall k | |before| <= k <= |before + steps|
      ensures Found(c, lim, p, ops, k - |before|, DoAll(origin, (before + steps)[..k]))
    {
      CrashAppend(origin, before, steps, k);
      assert Found(c, lim, p, ops, k - |before|, DoAll(DoAll(origin, before), steps[..k - |before|]));
    }
  }

  /** The object's operation for `op`. */
  method Dispatch(store: MemoryStore, op: Op)
    requires Ready(store) && Legal(store.now, op)
    modifies store, store.disk
    ensures Ready(store) && store.disk == old(store.disk) && store.now == Apply(store.lim, old(store.now), op)
    ensures store.disk.log == old(store.disk.log) + OpSteps(store.disk.codec, store.lim, old(store.now), op)
  {
    ReachedIsWellFormed(store.lim, store.ops, store.now);
    match op {
      case Save(item) =>
        MapDomain(store.now.entries);
        store.SaveItem(item, true);
      case Remove(ById(id)) =>
        DeleteSteps(store.disk.codec, store.lim, store.now, id);
        MapDomain(store.now.entries);
        var _ := store.Delete(id);
      case Remove(ByFilter(f)) =>
        var _ := store.DeleteMatching(f);
    }
  }

  lemma LogLeads(d: Directory, before: seq<Step>, files: FS, steps: seq<Step>)
    requires d.Valid() && files == DoAll(d.origin, before) && d.log == before + steps
    ensures d.files == DoAll(files, steps)
  {
    DoAppend(d.origin, before, steps);
  }

  lemma OneOp(c: Codec, lim: Limits, p: Point, op: Op)
    requires Admissible(c, p.st, p.files, op)
    ensures GoodRun(c, lim, p, [op]) && PastAll(c, lim, p, [op]) == Past(c, lim, p, op)
    ensures RunSteps(c, lim, p, [op]) == OpSteps(c, lim, p.st, op)
  {
    assert [op][..0] == [];
    RunStepsLast(c, lim, p, [op]);
  }

  /**
   * One operation on the object.  Stop after any of the file steps it takes
   * and reload: a save is there or not, a removal is done for some first ones.
   * Not stopped, it leaves a directory that mirrors the store again.
   */
  method Perform(store: MemoryStore, op: Op)
    requires Ready(store) && Mirrored(store.disk.codec, store.lim, store.now, store.disk.files)
    requires Admissible(store.disk.codec, store.now, store.disk.files, op)
    modifies store, store.disk
    ensures Ready(store) && store.disk == old(store.disk)
    ensures Mirrored(store.disk.codec, store.lim, store.now, store.disk.files)
    ensures Here(store) == Past(store.disk.codec, store.lim, old(Here(store)), op)
    ensures store.disk.log == old(store.disk.log) + OpSteps(store.disk.codec, store.lim, old(store.now), op)
    ensures StopsWell(store.disk.codec, store.lim, old(Here(store)), [op],
                      store.disk.origin, store.disk.log, |old(store.disk.log)|)
  {
    ghost var c, p, before := store.disk.codec, Here(store), store.disk.log;
    OneOp(c, store.lim, p, op);
    OpStaysMirrored(c, store.lim, p, p, op);
    RunStops(c, store.lim, p, [op], OpSteps(c, store.lim, p.st, op));
    LogStops(c, store.lim, p, [op], store.disk.origin, before, OpSteps(c, store.lim, p.st, op));
    Dispatch(store, op);
    LogLeads(store.disk, before, p.files, OpSteps(c, store.lim, p.st, op));
  }

  lemma PastMore(c: Codec, lim: Limits, p: Point, ops: seq<Op>, i: nat)
    requires i < |ops|
    ensures var q := PastAll(c, lim, p, ops[..i]);
            && PastAll(c, lim, p, ops[..i + 1]) == Past(c, lim, q, ops[i])
            && RunSteps(c, lim, p, ops[..i + 1]) == RunSteps(c, lim, p, ops[..i]) + OpSteps(c, lim, q.st, ops[i])
  {
    PastNext(c, lim, p, ops, i);
    assert ops[..i + 1][..i] == ops[..i];
    RunStepsLast(c, lim, p, ops[..i + 1]);
  }

  lemma LogMore(before: seq<Step>, done: seq<Step>, part: seq<Step>, all: seq<Step>)
    requires all == done + part
    ensures before + done + part == before + all
  {
  }

  /** Any sequence of operations on the object, with the crash theorem for every step it takes. */
  method RunAll(store: MemoryStore, ops: seq<Op>)
    requires Ready(store) && Mirrored(store.disk.codec, store.lim, store.now, store.disk.files)
    requires GoodRun(store.disk.codec, store.lim, Here(store), ops)
    modifies store, store.disk
    ensures Ready(store) && store.disk == old(store.disk)
    ensures Mirrored(store.disk.codec, store.lim, store.now, store.disk.files)
    ensures Here(store) == PastAll(store.disk.codec, store.lim, old(Here(store)), ops)
    ensures store.disk.log == old(store.disk.log) + RunSteps(store.disk.codec, store.lim, old(Here(store)), ops)
    ensures StopsWell(store.disk.codec, store.lim, old(Here(store)), ops,
                      store.disk.origin, store.disk.log, |old(store.disk.log)|)
  {
    ghost var c, p, before := store.disk.codec, Here(store), store.disk.log;
    var i := 0;
    assert ops[..0] == [];
    while i < |ops|
      invariant 0 <= i <= |ops|
      invariant Ready(store) && store.disk == old(store.disk)
      invariant Mirrored(c, store.lim, store.now, store.disk.files)
      invariant Here(store) == PastAll(c, store.lim, p, ops[..i])
      invariant store.disk.log == before + RunSteps(c, store.lim, p, ops[..i])
    {
      RunStaysMirrored(c, store.lim, p, ops, i);
      assert AdmissibleAt(c, store.lim, p, ops, i);
      PastMore(c, store.lim, p, ops, i);
      LogMore(before, RunSteps(c, store.lim, p, ops[..i]), OpSteps(c, store.lim, store.now, ops[i]),
              RunSteps(c, store.lim, p, ops[..i + 1]));
      Perform(store, ops[i]);
      i := i + 1;
    }
    assert ops[..i] == ops;
    RunStops(c, store.lim, p, ops, RunSteps(c, store.lim, p, ops));
    LogStops(c, store.lim, p, ops, store.disk.origin, before, RunSteps(c, store.lim, p, ops));
  }

  // ----- one life -----

  /**
   * The limits of this life, what its start finds in the directory, what is
   * then asked for, and after how many file steps it all ends.
   */
  datatype Life = Life(lim: Limits, all: seq<Stored>, ops: seq<Op>, stop: nat)

  function StartOf(c: Codec, lim: Limits, fs: FS, all: seq<Stored>): Point {
    Point(Began(c, lim, all), DoAll(fs, RecoverySteps(c, all, lim)))
  }

  function LifeSteps(c: Codec, lim: Limits, fs: FS, all: seq<Stored>, ops: seq<Op>): seq<Step> {
    RecoverySteps(c, all, lim) + RunSteps(c, lim, StartOf(c, lim, fs, all), ops)
  }

  ghost predicate GoodLife(c: Codec, fs: FS, l: Life) {
    && Arranged(c, l.all, fs) && GoodRun(c, l.lim, StartOf(c, l.lim, fs, l.all), l.ops)
    && l.stop <= |LifeSteps(c, l.lim, fs, l.all, l.ops)|
  }

  /** The directory a life leaves behind. */
  function Left(c: Codec, fs: FS, l: Life): FS
    requires l.stop <= |LifeSteps(c, l.lim, fs, l.all, l.ops)|
  {
    DoAll(fs, LifeSteps(c, l.lim, fs, l.all, l.ops)[..l.stop])
  }

  /** A life that finds one directory and leaves another. */
  ghost predicate Leads(c: Codec, fs: FS, l: Life, fs': FS) { GoodLife(c, fs, l) && fs' == Left(c, fs, l) }

  function LimitsOf(max: int, maxBytes: int): Limits { Limits(if max < 1 then 1 else max, maxBytes) }

  /** The program's life on the objects takes exactly the steps of a life, so that a crash at any point ends one. */
  method Live(dir: Directory, max: int, maxBytes: int, ops: seq<Op>)
    returns (store: MemoryStore, ghost all: seq<Stored>)
    requires dir.Valid() && Lawful(dir.codec)
    requires var lim := LimitsOf(max, maxBytes);
             forall all | Arranged(dir.codec, all, dir.files) ::
               GoodRun(dir.codec, lim, StartOf(dir.codec, lim, dir.files, all), ops)
    modifies dir
    ensures Ready(store) && store.disk == dir && store.lim == LimitsOf(max, maxBytes)
    ensures Arranged(dir.codec, all, old(dir.files))
    ensures store.now == Run(store.lim, Began(dir.codec, store.lim, all), ops)
    ensures dir.log == old(dir.log) + LifeSteps(dir.codec, store.lim, old(dir.files), all, ops)
    ensures Mirrored(dir.codec, store.lim, store.now, dir.files)
  {
    store := new MemoryStore(max, maxBytes);
    ghost var c, fs, before := dir.codec, dir.files, dir.log;
    var n;
    n, all := Persist(store, dir);
    LogLeads(dir, before, fs, RecoverySteps(c, all, store.lim));
    ghost var mid, start := dir.log, Here(store);
    RunAll(store, ops);
    StatesAre(c, store.lim, start, ops);
    LogMore(before, RecoverySteps(c, all, store.lim), RunSteps(c, store.lim, start, ops),
            LifeSteps(c, store.lim, fs, all, ops));
  }

  // ----- stores that differ in nothing but arrival numbers -----

  ghost predicate Alike(a: seq<Entry>, b: seq<Entry>) {
    |a| == |b| && forall i | 0 <= i < |a| :: a[i].item == b[i].item && a[i].size == b[i].size
  }

  lemma {:induction false} AlikePick(a: seq<Entry>, b: seq<Entry>, sel: Selector, want: bool)
    requires Alike(a, b)
    ensures Alike(Pick(a, sel, want), Pick(b, sel, want))
  {
    if a != [] {
      AlikePick(a[..|a| - 1], b[..|b| - 1], sel, want);
    }
  }

  lemma AlikeKept(a: seq<Entry>, b: seq<Entry>, lim: Limits)
    requires Alike(a, b)
    ensures Sizes(a) == Sizes(b) && Ids(a) == Ids(b) && Evicted(a, lim) == Evicted(b, lim)
    ensures Alike(a[Evicted(a, lim)..], b[Evicted(b, lim)..]) && Ids(a[..Evicted(a, lim)]) == Ids(b[..Evicted(b, lim)])
  {
    assert Sizes(a) == Sizes(b);
  }

  /** The same operation makes them alike again, and removes the same files. */
  lemma AlikeApply(lim: Limits, a: State, b: State, op: Op)
    requires Alike(a.entries, b.entries)
    ensures Alike(Apply(lim, a, op).entries, Apply(lim, b, op).entries) && Removed(lim, a, op) == Removed(lim, b, op)
  {
    match op {
      case Save(item) => AlikeKept(Arrived(a, item), Arrived(b, item), lim);
      case Remove(sel) =>
        AlikePick(a.entries, b.entries, sel, false);
        AlikePick(a.entries, b.entries, sel, true);
        AlikeKept(Pick(a.entries, sel, true), Pick(b.entries, sel, true), lim);
    }
  }

  lemma {:induction false} AlikeRun(lim: Limits, a: State, b: State, ops: seq<Op>)
    requires Alike(a.entries, b.entries)
    ensures Alike(Run(lim, a, ops).entries, Run(lim, b, ops).entries)
  {
    if ops != [] {
      AlikeRun(lim, a, b, ops[..|ops| - 1]);
      AlikeApply(lim, Run(lim, a, ops[..|ops| - 1]), Run(lim, b, ops[..|ops| - 1]), ops[|ops| - 1]);
    }
  }

  lemma FiledAlike(c: Codec, a: seq<Entry>, b: seq<Entry>)
    requires Honest(c, a) && Honest(c, b) && Filed(a) == Filed(b)
    ensures Alike(a, b)
  {
    assert |a| == |Filed(a)| == |b|;
    forall i | 0 <= i < |a| ensures a[i].item == b[i].item && a[i].size == b[i].size {
      assert Filed(a)[i] == Filed(b)[i] && a[i] in a && b[i] in b;
    }
  }

  lemma AlikeThrough(a: seq<Entry>, b: seq<Entry>, c: seq<Entry>)
    requires Alike(a, b) && Alike(b, c)
    ensures Alike(a, c)
  {
  }

  // ----- what a start finds -----

  lemma {:induction false} LoadedIsWellFormed(c: Codec, lim: Limits, fs: FS, list: seq<Stored>, i: nat)
    requires Arranged(c, list, fs) && i <= |list|
    ensures WellFormed(Loaded(c, lim, list, i), lim)
  {
    if i == 0 {
      assert ItemsOf(c, list[..0]) == [];
    } else {
      LoadedIsWellFormed(c, lim, fs, list, i - 1);
      LoadFresh(c, lim, fs, list, i - 1);
      LoadStep(c, lim, list, i - 1);
      SaveKeeps(lim, Loaded(c, lim, list, i - 1), ItemOf(c, list[i - 1]));
    }
  }

  /** A start leaves a store and a directory that mirror each other. */
  lemma StartIsMirrored(c: Codec, lim: Limits, fs: FS, all: seq<Stored>)
    requires Lawful(c) && Arranged(c, all, fs)
    ensures var p := StartOf(c, lim, fs, all);
            && Mirrored(c, lim, p.st, p.files) && Honest(c, p.st.entries)
            && (JsonHasEml(fs) ==> JsonHasEml(p.files)) && Filed(p.st.entries) == Kept(c, all, lim)
  {
    var steps := RecoverySteps(c, all, lim);
    assert steps[..|steps|] == steps && all[..|all|] == all;
    RecoveryIsCrashSafe(c, fs, all, lim, |steps|);
    LoadedIsWellFormed(c, lim, fs, all, |all|);
    LoadedKeepsNewest(c, lim, all);
  }

  // ----- what a life leaves -----

  /**
   * The messages in the directory when a start was stopped after `k` steps:
   * two for the probe, then two for each message removed.
   */
  function HeldStart(c: Codec, lim: Limits, all: seq<Stored>, k: nat): seq<Stored> {
    var i := if k < 2 then 0 else (k - 1) / 2;
    if i < Overflow(c, all, lim) then all[i..] else Kept(c, all, lim)
  }

  /** The life was stopped before its start was over. */
  predicate Early(c: Codec, l: Life) { l.stop < |RecoverySteps(c, l.all, l.lim)| }

  /** How many file steps a life took after its start. */
  function Later(c: Codec, l: Life): nat { Over(l.stop, |RecoverySteps(c, l.all, l.lim)|) }

  /** The messages a life leaves in the directory, in reload order. */
  function HeldLife(c: Codec, fs: FS, l: Life): seq<Stored> {
    if Early(c, l) then HeldStart(c, l.lim, l.all, l.stop)
    else Filed(HeldRun(c, l.lim, StartOf(c, l.lim, fs, l.all), l.ops, Later(c, l)))
  }

  /** The operations of a life that count as done. */
  function SurvivingLife(c: Codec, fs: FS, l: Life): seq<Op> {
    if Early(c, l) then [] else Surviving(c, l.lim, StartOf(c, l.lim, fs, l.all), l.ops, Later(c, l))
  }

  /** The store as the surviving operations leave it. */
  function LeftStore(c: Codec, fs: FS, l: Life): State { Run(l.lim, Began(c, l.lim, l.all), SurvivingLife(c, fs, l)) }

  /** Every operation that had taken all its file steps before the end is among the survivors, with those before. */
  ghost predicate DurableLife(c: Codec, fs: FS, l: Life) {
    !Early(c, l) ==> Durable(c, l.lim, StartOf(c, l.lim, fs, l.all), l.ops, Later(c, l), SurvivingLife(c, fs, l))
  }

  lemma LifeIsDurable(c: Codec, fs: FS, l: Life)
    ensures DurableLife(c, fs, l)
  {
    if !Early(c, l) {
      FinishedSurvive(c, l.lim, StartOf(c, l.lim, fs, l.all), l.ops, Later(c, l), SurvivingLife(c, fs, l));
    }
  }

  /** A start stopped after `k` steps. */
  lemma StartHolds(c: Codec, lim: Limits, fs: FS, all: seq<Stored>, k: nat)
    requires Arranged(c, all, fs) && k < |RecoverySteps(c, all, lim)|
    ensures var d := DoAll(fs, RecoverySteps(c, all, lim)[..k]);
            Arranged(c, HeldStart(c, lim, all, k), d) && (JsonHasEml(fs) ==> JsonHasEml(d))
    ensures Kept(c, HeldStart(c, lim, all, k), lim) == Kept(c, all, lim)
  {
    var ids := StoredIds(all)[..Overflow(c, all, lim)];
    CrashAppend(fs, PROBE_STEPS, RemoveSteps(ids), k);
    if k < 2 {
      CrashWhileProbing(c, fs, k);
      KeptCut(c, all, 0, lim);
    } else {
      CrashWhileProbing(c, fs, 2);
      assert PROBE_STEPS[..2] == PROBE_STEPS;
      StartHoldsIn(c, lim, all, DoAll(fs, PROBE_STEPS), ids, k - 2);
    }
  }

  lemma StartHoldsIn(c: Codec, lim: Limits, all: seq<Stored>, mid: FS, ids: seq<string>, k: nat)
    requires Arranged(c, all, mid) && ids == StoredIds(all)[..Overflow(c, all, lim)] && k <= |RemoveSteps(ids)|
    ensures var d := DoAll(mid, RemoveSteps(ids)[..k]);
            Arranged(c, HeldStart(c, lim, all, k + 2), d) && (JsonHasEml(mid) ==> JsonHasEml(d))
    ensures Kept(c, HeldStart(c, lim, all, k + 2), lim) == Kept(c, all, lim)
  {
    var i := CrashWhileRemoving(c, mid, ids, k);
    assert ids[..i] == StoredIds(all)[..i];
    ArrangedCut(c, all, mid, DoAll(mid, RemoveSteps(ids)[..k]), i);
    KeptCut(c, all, i, lim);
  }

  /** A life stopped after its start. */
  lemma RunHolds(c: Codec, lim: Limits, fs: FS, p: Point, ops: seq<Op>, k: nat, d: FS, held: seq<Entry>, done: seq<Op>)
    requires Mirrored(c, lim, p.st, p.files) && GoodRun(c, lim, p, ops) && (JsonHasEml(fs) ==> JsonHasEml(p.files))
    requires k <= |RunSteps(c, lim, p, ops)| && d == DoAll(p.files, RunSteps(c, lim, p, ops)[..k])
    requires held == HeldRun(c, lim, p, ops, k) && done == Surviving(c, lim, p, ops, k)
    ensures Arranged(c, Filed(held), d) && (JsonHasEml(fs) ==> JsonHasEml(d))
    ensures Kept(c, Filed(held), lim) == Filed(Run(lim, p.st, done).entries) && Honest(c, Run(lim, p.st, done).entries)
  {
    RunIsCrashConsistent(c, lim, p, ops, k);
    HeldReloads(c, p.files, d, held, lim);
    CroppedIsHonest(c, lim, held);
  }

  lemma CroppedIsHonest(c: Codec, lim: Limits, entries: seq<Entry>)
    requires Honest(c, entries)
    ensures Honest(c, Cropped(lim, entries))
  {
    assert forall e <- Cropped(lim, entries) :: e in entries;
  }

  /** A stop in a start and a run is a stop in one of them. */
  lemma StopInEither(fs: FS, rec: seq<Step>, run: seq<Step>, all: seq<Step>, stop: nat, later: nat, d: FS)
    requires all == rec + run && stop <= |all| && d == DoAll(fs, all[..stop]) && later == Over(stop, |rec|)
    ensures stop < |rec| ==> d == DoAll(fs, rec[..stop])
    ensures stop >= |rec| ==> later <= |run| && d == DoAll(DoAll(fs, rec), run[..later])
  {
    CrashAppend(fs, rec, run, stop);
  }

  lemma StoppedEarly(c: Codec, fs: FS, l: Life, rec: seq<Step>, d: FS, held: seq<Stored>, done: seq<Op>)
    requires Lawful(c) && Arranged(c, l.all, fs) && rec == RecoverySteps(c, l.all, l.lim) && l.stop < |rec|
    requires d == DoAll(fs, rec[..l.stop]) && held == HeldStart(c, l.lim, l.all, l.stop) && done == []
    ensures Arranged(c, held, d) && (JsonHasEml(fs) ==> JsonHasEml(d))
    ensures var st := Run(l.lim, Began(c, l.lim, l.all), done);
            Kept(c, held, l.lim) == Filed(st.entries) && Honest(c, st.entries)
  {
    StartHolds(c, l.lim, fs, l.all, l.stop);
    StartIsMirrored(c, l.lim, fs, l.all);
  }

  lemma StoppedLate(c: Codec, fs: FS, l: Life, p: Point, k: nat, d: FS, held: seq<Entry>, done: seq<Op>)
    requires Lawful(c) && Arranged(c, l.all, fs) && p == StartOf(c, l.lim, fs, l.all) && GoodRun(c, l.lim, p, l.ops)
    requires k <= |RunSteps(c, l.lim, p, l.ops)| && d == DoAll(p.files, RunSteps(c, l.lim, p, l.ops)[..k])
    requires held == HeldRun(c, l.lim, p, l.ops, k) && done == Surviving(c, l.lim, p, l.ops, k)
    ensures Arranged(c, Filed(held), d) && (JsonHasEml(fs) ==> JsonHasEml(d))
    ensures var st := Run(l.lim, Began(c, l.lim, l.all), done);
            Kept(c, Filed(held), l.lim) == Filed(st.entries) && Honest(c, st.entries)
  {
    StartIsMirrored(c, l.lim, fs, l.all);
    RunHolds(c, l.lim, fs, p, l.ops, k, d, held, done);
  }

  lemma EarlyHolds(c: Codec, fs: FS, l: Life, fs': FS, held: seq<Stored>, done: seq<Op>)
    requires Lawful(c) && Leads(c, fs, l, fs') && held == HeldLife(c, fs, l) && done == SurvivingLife(c, fs, l)
    requires Early(c, l)
    ensures Arranged(c, held, fs') && (JsonHasEml(fs) ==> JsonHasEml(fs'))
    ensures var st := Run(l.lim, Began(c, l.lim, l.all), done);
            Kept(c, held, l.lim) == Filed(st.entries) && Honest(c, st.entries)
  {
    var p, rec := StartOf(c, l.lim, fs, l.all), RecoverySteps(c, l.all, l.lim);
    StopInEither(fs, rec, RunSteps(c, l.lim, p, l.ops), LifeSteps(c, l.lim, fs, l.all, l.ops), l.stop,
                 Later(c, l), fs');
    StoppedEarly(c, fs, l, rec, fs', held, done);
  }

  lemma LateHolds(c: Codec, fs: FS, l: Life, fs': FS, held: seq<Stored>, done: seq<Op>)
    requires Lawful(c) && Leads(c, fs, l, fs') && held == HeldLife(c, fs, l) && done == SurvivingLife(c, fs, l)
    requires !Early(c, l)
    ensures Arranged(c, held, fs') && (JsonHasEml(fs) ==> JsonHasEml(fs'))
    ensures var st := Run(l.lim, Began(c, l.lim, l.all), done);
            Kept(c, held, l.lim) == Filed(st.entries) && Honest(c, st.entries)
  {
    var p, rec := StartOf(c, l.lim, fs, l.all), RecoverySteps(c, l.all, l.lim);
    StopInEither(fs, rec, RunSteps(c, l.lim, p, l.ops), LifeSteps(c, l.lim, fs, l.all, l.ops), l.stop,
                 Later(c, l), fs');
    StoppedLate(c, fs, l, p, Later(c, l), fs', HeldRun(c, l.lim, p, l.ops, Later(c, l)), done);
  }

  /**
   * A life stopped after any file step of its start or of its operations: the
   * directory holds exactly the stated messages; cropped to the life's own
   * limits these are what the surviving operations leave; every operation that
   * had taken all its steps is among those.
   */
  lemma LifeIsCrashConsistent(c: Codec, fs: FS, l: Life, fs': FS, held: seq<Stored>, done: seq<Op>)
    requires Lawful(c) && Leads(c, fs, l, fs') && held == HeldLife(c, fs, l) && done == SurvivingLife(c, fs, l)
    ensures Arranged(c, held, fs') && (JsonHasEml(fs) ==> JsonHasEml(fs'))
    ensures var st := Run(l.lim, Began(c, l.lim, l.all), done);
            Kept(c, held, l.lim) == Filed(st.entries) && Honest(c, st.entries)
    ensures DurableLife(c, fs, l)
  {
    LifeIsDurable(c, fs, l);
    if Early(c, l) {
      EarlyHolds(c, fs, l, fs', held, done);
    } else {
      LateHolds(c, fs, l, fs', held, done);
    }
  }

  // ----- the next start, under limits of its own -----

  /**
   * A start under other limits keeps what it would keep of the messages that
   * the limits before allowed, if and only if it drops no fewer than those
   * did: looser limits can bring messages back that a crash kept from being
   * removed.
   */
  lemma RestartForgetsIff(c: Codec, list: seq<Stored>, lim: Limits, lim': Limits)
    ensures Kept(c, list, lim') == Kept(c, Kept(c, list, lim), lim')
       <==> Overflow(c, list, lim) <= Overflow(c, list, lim')
  {
    var n := Overflow(c, list, lim);
    if n <= Overflow(c, list, lim') {
      KeptCut(c, list, n, lim');
    } else {
      assert |Kept(c, list, lim')| > |Kept(c, list, lim)| >= |Kept(c, Kept(c, list, lim), lim')|;
    }
  }

  predicate NotLooser(lim: Limits, tight: Limits) {
    tight.max <= lim.max && (lim.maxBytes > 0 ==> 0 < tight.maxBytes <= lim.maxBytes)
  }

  /** Limits that are not looser drop no fewer. */
  lemma TighterForgets(c: Codec, list: seq<Stored>, lim: Limits, tight: Limits)
    requires NotLooser(lim, tight)
    ensures Overflow(c, list, lim) <= Overflow(c, list, tight)
  {
    TighterKeepsFewer(StoredSizes(c, list), lim, tight);
  }

  // ----- any number of lives -----

  /** `dirs[n]` is what life `n` finds, and what the one before it has left. */
  ghost predicate GoodLives(c: Codec, dirs: seq<FS>, lives: seq<Life>) {
    |dirs| == |lives| + 1 && forall n | 0 <= n < |lives| :: Leads(c, dirs[n], lives[n], dirs[n + 1])
  }

  /** No start brings back messages that the life before it had dropped. */
  ghost predicate Steady(c: Codec, lives: seq<Life>) {
    forall i | 0 < i < |lives| ::
      Overflow(c, lives[i].all, lives[i - 1].lim) <= Overflow(c, lives[i].all, lives[i].lim)
  }

  /** So it is when no life has looser limits than the one before. */
  lemma NeverLooserIsSteady(c: Codec, lives: seq<Life>)
    requires forall i | 0 < i < |lives| :: NotLooser(lives[i - 1].lim, lives[i].lim)
    ensures Steady(c, lives)
  {
    forall i | 0 < i < |lives|
      ensures Overflow(c, lives[i].all, lives[i - 1].lim) <= Overflow(c, lives[i].all, lives[i].lim)
    {
      TighterForgets(c, lives[i].all, lives[i - 1].lim, lives[i].lim);
    }
  }

  /** The store with other limits. */
  function Relimited(lim: Limits, st: State): State { State(Cropped(lim, st.entries), st.last) }

  /** Everything in the directory, before any limits. */
  function Everything(c: Codec, all: seq<Stored>): State { State(ArrivedAll(EMPTY, ItemsOf(c, all)), |all|) }

  /** What counts of a life: its limits, and the operations that survived. */
  datatype Deed = Deed(lim: Limits, ops: seq<Op>)

  function DeedOf(c: Codec, fs: FS, l: Life): Deed { Deed(l.lim, SurvivingLife(c, fs, l)) }

  function Deeds(c: Codec, dirs: seq<FS>, lives: seq<Life>): seq<Deed>
    requires |dirs| == |lives| + 1
  {
    seq(|lives|, n requires 0 <= n < |lives| => DeedOf(c, dirs[n], lives[n]))
  }

  function After(st: State, d: Deed): State { Run(d.lim, Relimited(d.lim, st), d.ops) }

  /** The store of a program that never stopped: it gets the limits of each life and does what survived of it. */
  function Unstopped(st: State, deeds: seq<Deed>): State {
    if deeds == [] then st else After(Unstopped(st, deeds[..|deeds| - 1]), deeds[|deeds| - 1])
  }

  lemma UnstoppedNext(st: State, deeds: seq<Deed>, n: nat)
    requires n < |deeds|
    ensures Unstopped(st, deeds[..n + 1]) == After(Unstopped(st, deeds[..n]), deeds[n])
  {
    assert deeds[..n + 1][..n] == deeds[..n];
  }

  /** The first start keeps the newest of everything that fit. */
  lemma FirstStart(c: Codec, lim: Limits, all: seq<Stored>)
    ensures Began(c, lim, all).entries == Relimited(lim, Everything(c, all)).entries
  {
    SaveAllKeepsNewest(lim, EMPTY, ItemsOf(c, all));
  }

  /** A start after a life finds what that life left, cropped to its own limits. */
  lemma StartAfter(c: Codec, fs: FS, l: Life, fs': FS, next: Life, st: State)
    requires Lawful(c) && Leads(c, fs, l, fs') && Arranged(c, next.all, fs')
    requires Overflow(c, next.all, l.lim) <= Overflow(c, next.all, next.lim) && st == LeftStore(c, fs, l)
    ensures Alike(Began(c, next.lim, next.all).entries, Cropped(next.lim, st.entries))
  {
    LifeIsCrashConsistent(c, fs, l, fs', HeldLife(c, fs, l), SurvivingLife(c, fs, l));
    SortedUnique(next.all, HeldLife(c, fs, l));
    StartFindsKept(c, l.lim, next, fs', st);
  }

  lemma StartFindsKept(c: Codec, lim: Limits, next: Life, fs: FS, st: State)
    requires Lawful(c) && Arranged(c, next.all, fs) && Honest(c, st.entries)
    requires Kept(c, next.all, lim) == Filed(st.entries)
    requires Overflow(c, next.all, lim) <= Overflow(c, next.all, next.lim)
    ensures Alike(Began(c, next.lim, next.all).entries, Cropped(next.lim, st.entries))
  {
    RestartForgetsIff(c, next.all, lim, next.lim);
    StartIsMirrored(c, next.lim, fs, next.all);
    FiledKept(c, st.entries, next.lim);
    CroppedIsHonest(c, next.lim, st.entries);
    FiledAlike(c, Began(c, next.lim, next.all).entries, Cropped(next.lim, st.entries));
  }

  lemma OneLifeMore(c: Codec, fs: FS, l: Life, next: Life, st: State)
    requires Alike(Began(c, l.lim, l.all).entries, Relimited(l.lim, st).entries)
    requires Alike(Began(c, next.lim, next.all).entries, Cropped(next.lim, LeftStore(c, fs, l).entries))
    ensures Alike(Began(c, next.lim, next.all).entries, Relimited(next.lim, After(st, DeedOf(c, fs, l))).entries)
  {
    var st' := After(st, DeedOf(c, fs, l));
    AlikeRun(l.lim, Began(c, l.lim, l.all), Relimited(l.lim, st), SurvivingLife(c, fs, l));
    AlikeKept(LeftStore(c, fs, l).entries, st'.entries, next.lim);
    AlikeThrough(Began(c, next.lim, next.all).entries, Cropped(next.lim, LeftStore(c, fs, l).entries),
                 Cropped(next.lim, st'.entries));
  }

  lemma LifeKeepsMail(c: Codec, fs: FS, l: Life, fs': FS)
    requires Lawful(c) && Leads(c, fs, l, fs') && JsonHasEml(fs)
    ensures JsonHasEml(fs')
  {
    LifeIsCrashConsistent(c, fs, l, fs', HeldLife(c, fs, l), SurvivingLife(c, fs, l));
  }

  /** In every life, metadata has its mail if it had at first. */
  lemma {:induction false} MailStays(c: Codec, dirs: seq<FS>, lives: seq<Life>, n: nat)
    requires Lawful(c) && GoodLives(c, dirs, lives) && n <= |lives| && JsonHasEml(dirs[0])
    ensures JsonHasEml(dirs[n])
  {
    if n > 0 {
      MailStays(c, dirs, lives, n - 1);
      assert Leads(c, dirs[n - 1], lives[n - 1], dirs[n]);
      LifeKeepsMail(c, dirs[n - 1], lives[n - 1], dirs[n]);
    }
  }

  /** What survives of every life includes every operation it had finished. */
  ghost predicate AllDurable(c: Codec, dirs: seq<FS>, lives: seq<Life>)
    requires |dirs| == |lives| + 1
  {
    forall n | 0 <= n < |lives| :: DurableLife(c, dirs[n], lives[n])
  }

  lemma LivesAreDurable(c: Codec, dirs: seq<FS>, lives: seq<Life>)
    requires |dirs| == |lives| + 1
    ensures AllDurable(c, dirs, lives)
  {
    forall n | 0 <= n < |lives| ensures DurableLife(c, dirs[n], lives[n]) {
      LifeIsDurable(c, dirs[n], lives[n]);
    }
  }

  lemma StartFindsNext(c: Codec, fs: FS, l: Life, fs': FS, next: Life, st: State)
    requires Lawful(c) && Leads(c, fs, l, fs') && Arranged(c, next.all, fs')
    requires Overflow(c, next.all, l.lim) <= Overflow(c, next.all, next.lim)
    requires Alike(Began(c, l.lim, l.all).entries, Relimited(l.lim, st).entries)
    ensures Alike(Began(c, next.lim, next.all).entries, Relimited(next.lim, After(st, DeedOf(c, fs, l))).entries)
  {
    StartAfter(c, fs, l, fs', next, LeftStore(c, fs, l));
    OneLifeMore(c, fs, l, next, st);
  }

  lemma LifeAt(c: Codec, dirs: seq<FS>, lives: seq<Life>, n: nat)
    requires GoodLives(c, dirs, lives) && 0 < n < |lives|
    ensures Leads(c, dirs[n - 1], lives[n - 1], dirs[n]) && Arranged(c, lives[n].all, dirs[n])
  {
    assert Leads(c, dirs[n], lives[n], dirs[n + 1]);
  }

  /** The start of life `n` finds what a program that never stopped would have then. */
  lemma {:induction false} StartFinds(c: Codec, dirs: seq<FS>, lives: seq<Life>, deeds: seq<Deed>, st: State, n: nat)
    requires Lawful(c) && GoodLives(c, dirs, lives) && Steady(c, lives) && n < |lives|
    requires deeds == Deeds(c, dirs, lives) && st == Everything(c, lives[0].all)
    ensures Alike(Began(c, lives[n].lim, lives[n].all).entries,
                  Relimited(lives[n].lim, Unstopped(st, deeds[..n])).entries)
  {
    if n == 0 {
      FirstStart(c, lives[0].lim, lives[0].all);
    } else {
      StartFinds(c, dirs, lives, deeds, st, n - 1);
      LifeAt(c, dirs, lives, n);
      StartFindsNext(c, dirs[n - 1], lives[n - 1], dirs[n], lives[n], Unstopped(st, deeds[..n - 1]));
      UnstoppedNext(st, deeds, n - 1);
    }
  }

  /**
   * Crashes are invisible.  In any sequence of lives under limits of their
   * own, each stopped after any file step of its start or of its operations,
   * every start finds what a program that never stopped would have then, whose
   * limits change where the starts were and which does what survived of each
   * life; that includes every operation whose file steps were all taken; and
   * metadata still has its mail.
   */
  lemma LivesAreOneRun(c: Codec, dirs: seq<FS>, lives: seq<Life>, n: nat)
    requires Lawful(c) && GoodLives(c, dirs, lives) && Steady(c, lives) && n < |lives|
    ensures Alike(Began(c, lives[n].lim, lives[n].all).entries,
                  Relimited(lives[n].lim, Unstopped(Everything(c, lives[0].all), Deeds(c, dirs, lives)[..n])).entries)
    ensures AllDurable(c, dirs, lives)
    ensures JsonHasEml(dirs[0]) ==> JsonHasEml(dirs[n])
  {
    StartFinds(c, dirs, lives, Deeds(c, dirs, lives), Everything(c, lives[0].all), n);
    LivesAreDurable(c, dirs, lives);
    if JsonHasEml(dirs[0]) {
      MailStays(c, dirs, lives, n);
    }
  }
}
