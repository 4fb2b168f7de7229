/**
 * Crashes over whole runs: stop a store with a data directory after any file
 * step of any run of its operations, and reload.
 */
module CrashRuns {
  import opened Retention
  import opened StoreSpec
  import opened Disk
  import opened Store
  import opened Recovery
  import Text

  // ----- taking some ids out of a store -----

  function Without(entries: seq<Entry>, gone: seq<string>): seq<Entry> {
    if entries == [] then []
    else
      var (before, last) := (Without(entries[..|entries| - 1], gone), entries[|entries| - 1]);
      if Id(last) in gone then before else before + [last]
  }

  lemma {:induction false} WithoutMembers(entries: seq<Entry>, gone: seq<string>)
    ensures forall e :: e in Without(entries, gone) <==> e in entries && Id(e) !in gone
  {
    if entries != [] {
      WithoutMembers(entries[..|entries| - 1], gone);
      assert entries == entries[..|entries| - 1] + [entries[|entries| - 1]];
    }
  }

  lemma {:induction false} WithoutIsSmaller(entries: seq<Entry>, gone: seq<string>)
    ensures |Without(entries, gone)| <= |entries| && Total(Sizes(Without(entries, gone))) <= Total(Sizes(entries))
  {
    if entries != [] {
      var init, last := entries[..|entries| - 1], entries[|entries| - 1];
      WithoutIsSmaller(init, gone);
      assert entries == init + [last];
      SizesAppend(init, last);
      SizesAppend(Without(init, gone), last);
    }
  }

  lemma FiledMore(entries: seq<Entry>, e: Entry)
    ensures Filed(entries + [e]) == Filed(entries) + [StoredOf(e.item)]
  {
  }

  lemma FiledMembers(entries: seq<Entry>, x: Stored)
    ensures x in Filed(entries) <==> exists e <- entries :: StoredOf(e.item) == x
  {
    if x in Filed(entries) {
      var i :| 0 <= i < |entries| && Filed(entries)[i] == x;
      assert entries[i] in entries;
    }
    forall e | e in entries ensures StoredOf(e.item) in Filed(entries) {
      var i :| 0 <= i < |entries| && entries[i] == e;
      assert Filed(entries)[i] == StoredOf(e.item);
    }
  }

  lemma SortedMore(list: seq<Stored>, s: Stored)
    requires Sorted(list) && forall x <- list :: KeyLess(x, s)
    ensures Sorted(list + [s])
  {
  }

  lemma {:induction false} WithoutSorted(entries: seq<Entry>, gone: seq<string>)
    requires Sorted(Filed(entries))
    ensures Sorted(Filed(Without(entries, gone)))
  {
    if entries != [] {
      var init, last := entries[..|entries| - 1], entries[|entries| - 1];
      assert Filed(init) == Filed(entries)[..|init|];
      WithoutSorted(init, gone);
      var kept := Without(init, gone);
      forall x | x in Filed(kept) ensures KeyLess(x, StoredOf(last.item)) {
        FiledMembers(kept, x);
        WithoutMembers(init, gone);
        FiledMembers(init, x);
        var i :| 0 <= i < |init| && Filed(init)[i] == x;
        assert Filed(entries)[i] == x && Filed(entries)[|init|] == StoredOf(last.item);
      }
      FiledMore(kept, last);
      SortedMore(Filed(kept), StoredOf(last.item));
    }
  }

  /** The directory has lost some ids: it holds the store's messages without them. */
  lemma ThinnedHolds(c: Codec, lim: Limits, st: State, fs: FS, d: FS, gone: seq<string>)
    requires Mirrored(c, lim, st, fs) && Lost(c, fs, d, gone)
    ensures Arranged(c, Filed(Without(st.entries, gone)), d)
  {
    WithoutSorted(st.entries, gone);
    forall x ensures Held(c, d, x) <==> x in Filed(Without(st.entries, gone)) {
      ThinnedMembers(st.entries, gone, x);
    }
  }

  lemma ThinnedMembers(entries: seq<Entry>, gone: seq<string>, x: Stored)
    ensures x in Filed(Without(entries, gone)) <==> x in Filed(entries) && x.id !in gone
  {
    FiledMembers(entries, x);
    FiledMembers(Without(entries, gone), x);
    WithoutMembers(entries, gone);
  }

  /** Taking out the ids that a removal selects is that removal. */
  lemma {:induction false} WithoutPicked(entries: seq<Entry>, sel: Selector, gone: seq<string>)
    requires forall e <- entries :: Id(e) in gone <==> Selected(sel, e)
    ensures Without(entries, gone) == Pick(entries, sel, false)
  {
    if entries != [] {
      var init, last := entries[..|entries| - 1], entries[|entries| - 1];
      assert last in entries && forall e <- init :: e in entries;
      WithoutPicked(init, sel, gone);
    }
  }

  lemma PickedIds(entries: seq<Entry>, sel: Selector)
    requires Distinct(Ids(entries))
    ensures forall e <- entries :: Id(e) in Ids(Pick(entries, sel, true)) <==> Selected(sel, e)
  {
    var p := Pick(entries, sel, true);
    PickMembers(entries, sel, true);
    forall e | e in entries ensures Id(e) in Ids(p) <==> Selected(sel, e) {
      var i :| 0 <= i < |entries| && entries[i] == e;
      if Id(e) in Ids(p) {
        var k :| 0 <= k < |p| && Ids(p)[k] == Id(e);
        assert p[k] in p;
        var j :| 0 <= j < |entries| && entries[j] == p[k];
        assert Ids(entries)[i] == Ids(entries)[j];
      }
      if Selected(sel, e) {
        var k :| 0 <= k < |p| && p[k] == e;
        assert Ids(p)[k] == Id(e);
      }
    }
  }

  // ----- one operation -----

  /** The ids an operation removes from the directory, in order. */
  function Removed(lim: Limits, st: State, op: Op): seq<string> {
    match op
    case Save(item) => GoneIds(lim, st, item)
    case Remove(sel) => Ids(Pick(st.entries, sel, true))
  }

  /** The file steps of an operation. */
  function OpSteps(c: Codec, lim: Limits, st: State, op: Op): seq<Step> {
    DiskSteps(c, if op.Save? then Text.Some(op.item) else Text.None, Removed(lim, st, op))
  }

  /** For a deletion by id these are the steps `Delete` takes. */
  lemma DeleteSteps(c: Codec, lim: Limits, st: State, id: string)
    requires Distinct(Ids(st.entries))
    ensures OpSteps(c, lim, st, Remove(ById(id))) == DiskSteps(c, Text.None, if id in Ids(st.entries) then [id] else [])
  {
    if id in Ids(st.entries) {
      var i :| 0 <= i < |st.entries| && Ids(st.entries)[i] == id;
      PickOne(st.entries, st.entries[i]);
      assert Ids([st.entries[i]]) == [id];
    } else {
      forall e | e in st.entries ensures Id(e) != id {
        var i :| 0 <= i < |st.entries| && st.entries[i] == e;
        assert Ids(st.entries)[i] == Id(e);
      }
      PickNone(st.entries, ById(id));
    }
  }

  /** The message may be saved now: a new id, parsed from its own bytes, and the latest arrival. */
  ghost predicate Admissible(c: Codec, st: State, fs: FS, op: Op) {
    op.Save? ==> Legal(st, op) && Newcomer(c, st, fs, op.item)
  }

  /** Sizes are what the messages add up to, and each message is what parsing its bytes gives. */
  ghost predicate Honest(c: Codec, entries: seq<Entry>) {
    forall e <- entries :: e.size == SizeOf(e.item) && Faithful(c, e.item)
  }

  /** `d` holds exactly these messages, and its metadata has its mail if that was so in `fs`. */
  ghost predicate Holds(c: Codec, fs: FS, d: FS, held: seq<Entry>) {
    Honest(c, held) && Arranged(c, Filed(held), d) && (JsonHasEml(fs) ==> JsonHasEml(d))
  }

  /** The newest entries that fit. */
  function Cropped(lim: Limits, entries: seq<Entry>): seq<Entry> { entries[Evicted(entries, lim)..] }

  /** The entries while those that overflow are being removed, `i` of which are gone. */
  function Leftover(lim: Limits, all: seq<Entry>, i: nat): seq<Entry> {
    if i < Evicted(all, lim) then all[i..] else Cropped(lim, all)
  }

  function Deletes(ids: seq<string>): seq<Op> { seq(|ids|, i requires 0 <= i < |ids| => Remove(ById(ids[i]))) }

  function FirstIds(ids: seq<string>, n: nat): seq<string> { if n < |ids| then ids[..n] else ids }

  /**
   * What counts as done of an operation stopped after `j` file steps: a save
   * from the renaming of its metadata on, a removal message by message.
   */
  function Partly(c: Codec, lim: Limits, st: State, op: Op, j: nat): seq<Op> {
    match op
    case Save(item) => if j < |SaveSteps(c, StoredOf(item))| then [] else [op]
    case Remove(_) =>
      var ids := Removed(lim, st, op);
      if j < 2 * |ids| then Deletes(FirstIds(ids, (j + 1) / 2)) else [op]
  }

  /** What the directory then holds; a save may not have removed all that overflows. */
  function HeldOp(c: Codec, lim: Limits, st: State, op: Op, j: nat): seq<Entry> {
    match op
    case Save(item) =>
      var w := |SaveSteps(c, StoredOf(item))|;
      if j < w then st.entries else Leftover(lim, Arrived(st, item), (j - w + 1) / 2)
    case Remove(_) => Without(st.entries, FirstIds(Removed(lim, st, op), (j + 1) / 2))
  }

  lemma RunOne(lim: Limits, st: State, op: Op)
    ensures Run(lim, st, [op]) == Apply(lim, st, op)
  {
    assert [op][..0] == [];
  }

  lemma {:induction false} RunAppend(lim: Limits, st: State, a: seq<Op>, b: seq<Op>)
    ensures Run(lim, st, a + b) == Run(lim, Run(lim, st, a), b)
  {
    if b == [] {
      assert a + b == a;
    } else {
      RunAppend(lim, st, a, b[..|b| - 1]);
      assert (a + b)[..|a + b| - 1] == a + b[..|b| - 1];
    }
  }

  lemma {:induction false} WithoutNothing(entries: seq<Entry>)
    ensures Without(entries, []) == entries
  {
    if entries != [] {
      WithoutNothing(entries[..|entries| - 1]);
    }
  }

  lemma {:induction false} WithoutMore(entries: seq<Entry>, ids: seq<string>, id: string)
    ensures Without(entries, ids + [id]) == Pick(Without(entries, ids), ById(id), false)
  {
    if entries != [] {
      var init, last := entries[..|entries| - 1], entries[|entries| - 1];
      WithoutMore(init, ids, id);
      var kept := Without(init, ids);
      assert (kept + [last])[..|kept|] == kept;
    }
  }

  lemma {:induction false} DeletesAre(lim: Limits, st: State, ids: seq<string>)
    ensures Run(lim, st, Deletes(ids)).entries == Without(st.entries, ids)
  {
    if ids == [] {
      WithoutNothing(st.entries);
    } else {
      var init, id := ids[..|ids| - 1], ids[|ids| - 1];
      DeletesAre(lim, st, init);
      assert ids == init + [id] && Deletes(ids)[..|init|] == Deletes(init);
      WithoutMore(st.entries, init, id);
    }
  }

  // ----- a save -----

  lemma ArrivedIsHonest(c: Codec, lim: Limits, st: State, item: Item, i: nat)
    requires Honest(c, st.entries) && Faithful(c, item)
    ensures Honest(c, Leftover(lim, Arrived(st, item), i))
  {
    var all := Arrived(st, item);
    assert Honest(c, all);
    assert forall e <- Leftover(lim, all, i) :: e in all;
  }

  /** The directory after the message was written and `i` of the overflowing ones were removed. */
  lemma OverflowGoes(c: Codec, all: seq<Entry>, mid: FS, d: FS, n: nat, i: nat)
    requires Arranged(c, Filed(all), mid) && i <= n <= |all| && Lost(c, mid, d, Ids(all[..n])[..i])
    ensures Arranged(c, Filed(all[i..]), d)
  {
    assert StoredIds(Filed(all))[..i] == Ids(all[..n])[..i];
    assert Filed(all)[i..] == Filed(all[i..]);
    ArrangedCut(c, Filed(all), mid, d, i);
  }

  lemma SaveWritten(c: Codec, lim: Limits, st: State, fs: FS, item: Item)
    requires Mirrored(c, lim, st, fs) && Newcomer(c, st, fs, item)
    ensures var mid := DoAll(fs, SaveSteps(c, StoredOf(item)));
            Arranged(c, Filed(Arrived(st, item)), mid) && (JsonHasEml(fs) ==> JsonHasEml(mid))
  {
    var write := SaveSteps(c, StoredOf(item));
    assert write[..|write|] == write;
    CrashWhileSaving(c, fs, StoredOf(item), |write|);
    ArrangedAdd(c, Filed(st.entries), fs, DoAll(fs, write), StoredOf(item));
    assert Filed(Arrived(st, item)) == Filed(st.entries) + [StoredOf(item)];
  }

  /** Stopped while the message is being written: the directory holds what it held. */
  lemma StoppedWriting(c: Codec, lim: Limits, st: State, fs: FS, item: Item, k: nat)
    requires Mirrored(c, lim, st, fs) && Newcomer(c, st, fs, item) && k < |SaveSteps(c, StoredOf(item))|
    ensures Holds(c, fs, DoAll(fs, SaveSteps(c, StoredOf(item))[..k]), st.entries)
  {
    CrashWhileSaving(c, fs, StoredOf(item), k);
  }

  /** Stopped while what overflows is being removed. */
  lemma StoppedEvicting(c: Codec, lim: Limits, st: State, fs: FS, item: Item, mid: FS, k: nat)
    requires Mirrored(c, lim, st, fs) && Newcomer(c, st, fs, item) && mid == DoAll(fs, SaveSteps(c, StoredOf(item)))
    requires k <= |RemoveSteps(GoneIds(lim, st, item))|
    ensures Holds(c, fs, DoAll(mid, RemoveSteps(GoneIds(lim, st, item))[..k]),
                  Leftover(lim, Arrived(st, item), (k + 1) / 2))
  {
    var gone, all := GoneIds(lim, st, item), Arrived(st, item);
    SaveWritten(c, lim, st, fs, item);
    ArrivedIsHonest(c, lim, st, item, (k + 1) / 2);
    var i := CrashWhileRemoving(c, mid, gone, k);
    OverflowGoes(c, all, mid, DoAll(mid, RemoveSteps(gone)[..k]), Evicted(all, lim), i);
  }

  lemma HeldBySave(c: Codec, lim: Limits, st: State, item: Item, k: nat, w: nat)
    requires w == |SaveSteps(c, StoredOf(item))|
    ensures k < w ==> HeldOp(c, lim, st, Save(item), k) == st.entries
    ensures k >= w ==> HeldOp(c, lim, st, Save(item), k) == Leftover(lim, Arrived(st, item), (k - w + 1) / 2)
  {
  }

  lemma SaveHoldsIn(
    c: Codec, lim: Limits, st: State, fs: FS, item: Item, k: nat, write: seq<Step>, d: FS, held: seq<Entry>)
    requires Mirrored(c, lim, st, fs) && Newcomer(c, st, fs, item) && write == SaveSteps(c, StoredOf(item))
    requires k <= |write| + |RemoveSteps(GoneIds(lim, st, item))|
    requires k < |write| ==> d == DoAll(fs, write[..k]) && held == st.entries
    requires k >= |write| ==> d == DoAll(DoAll(fs, write), RemoveSteps(GoneIds(lim, st, item))[..k - |write|])
    requires k >= |write| ==> held == Leftover(lim, Arrived(st, item), (k - |write| + 1) / 2)
    ensures Holds(c, fs, d, held)
  {
    if k < |write| {
      StoppedWriting(c, lim, st, fs, item, k);
    } else {
      StoppedEvicting(c, lim, st, fs, item, DoAll(fs, write), k - |write|);
    }
  }

  lemma SaveHolds(c: Codec, lim: Limits, st: State, fs: FS, item: Item, k: nat)
    requires Mirrored(c, lim, st, fs) && Newcomer(c, st, fs, item) && k <= |OpSteps(c, lim, st, Save(item))|
    ensures Holds(c, fs, DoAll(fs, OpSteps(c, lim, st, Save(item))[..k]), HeldOp(c, lim, st, Save(item), k))
  {
    var write := SaveSteps(c, StoredOf(item));
    CrashAppend(fs, write, RemoveSteps(GoneIds(lim, st, item)), k);
    HeldBySave(c, lim, st, item, k, |write|);
    SaveHoldsIn(c, lim, st, fs, item, k, write, DoAll(fs, OpSteps(c, lim, st, Save(item))[..k]),
                HeldOp(c, lim, st, Save(item), k));
  }

  lemma CroppedAgain(lim: Limits, all: seq<Entry>, i: nat)
    requires i <= Evicted(all, lim)
    ensures Cropped(lim, all[i..]) == Cropped(lim, all)
  {
    SizesSlice(all, i);
    DropInSteps(Sizes(all), i, lim);
  }

  lemma LeftoverCropped(lim: Limits, all: seq<Entry>, i: nat)
    ensures Cropped(lim, Leftover(lim, all, i)) == Cropped(lim, all)
  {
    CroppedAgain(lim, all, if i < Evicted(all, lim) then i else Evicted(all, lim));
  }

  lemma SavedSurvives(lim: Limits, st: State, item: Item, i: nat, done: seq<Op>)
    requires done == [Save(item)]
    ensures Cropped(lim, Leftover(lim, Arrived(st, item), i)) == Run(lim, st, done).entries
  {
    LeftoverCropped(lim, Arrived(st, item), i);
    RunOne(lim, st, Save(item));
  }

  lemma SaveSurvives(c: Codec, lim: Limits, st: State, item: Item, k: nat)
    requires Fits(Sizes(st.entries), lim)
    ensures Cropped(lim, HeldOp(c, lim, st, Save(item), k)) == Run(lim, st, Partly(c, lim, st, Save(item), k)).entries
  {
    var w := |SaveSteps(c, StoredOf(item))|;
    if k < w {
      KeepAll(lim, st.entries);
    } else {
      SavedSurvives(lim, st, item, (k - w + 1) / 2, Partly(c, lim, st, Save(item), k));
    }
  }

  // ----- a removal -----

  lemma RemovedAll(lim: Limits, st: State, sel: Selector)
    requires Distinct(Ids(st.entries))
    ensures Without(st.entries, Removed(lim, st, Remove(sel))) == Apply(lim, st, Remove(sel)).entries
  {
    PickedIds(st.entries, sel);
    WithoutPicked(st.entries, sel, Ids(Pick(st.entries, sel, true)));
  }

  lemma RemoveHolds(c: Codec, lim: Limits, st: State, fs: FS, sel: Selector, k: nat)
    requires Mirrored(c, lim, st, fs) && k <= |OpSteps(c, lim, st, Remove(sel))|
    ensures Holds(c, fs, DoAll(fs, OpSteps(c, lim, st, Remove(sel))[..k]), HeldOp(c, lim, st, Remove(sel), k))
  {
    var gone := Removed(lim, st, Remove(sel));
    NothingWritten(c, gone);
    var i := CrashWhileRemoving(c, fs, gone, k);
    assert FirstIds(gone, i) == gone[..i];
    ThinnedHolds(c, lim, st, fs, DoAll(fs, RemoveSteps(gone)[..k]), gone[..i]);
    WithoutMembers(st.entries, gone[..i]);
  }

  lemma RemoveSurvives(c: Codec, lim: Limits, st: State, sel: Selector, k: nat)
    requires Fits(Sizes(st.entries), lim) && Distinct(Ids(st.entries))
    ensures Cropped(lim, HeldOp(c, lim, st, Remove(sel), k)) == Run(lim, st, Partly(c, lim, st, Remove(sel), k)).entries
  {
    var ids := Removed(lim, st, Remove(sel));
    var gone := FirstIds(ids, (k + 1) / 2);
    WithoutIsSmaller(st.entries, gone);
    KeepAll(lim, Without(st.entries, gone));
    if k < 2 * |ids| {
      DeletesAre(lim, st, gone);
    } else {
      RemovedAll(lim, st, sel);
      RunOne(lim, st, Remove(sel));
    }
  }

  // ----- any operation -----

  /**
   * Stop an operation after any of its file steps: the directory holds exactly
   * the stated messages, and cropping them to the limits, as the next start
   * does, gives what the part that counts as done leaves.
   */
  lemma OpIsCrashSafe(c: Codec, lim: Limits, st: State, fs: FS, op: Op, k: nat)
    requires Mirrored(c, lim, st, fs) && Admissible(c, st, fs, op) && k <= |OpSteps(c, lim, st, op)|
    ensures Holds(c, fs, DoAll(fs, OpSteps(c, lim, st, op)[..k]), HeldOp(c, lim, st, op, k))
    ensures Cropped(lim, HeldOp(c, lim, st, op, k)) == Run(lim, st, Partly(c, lim, st, op, k)).entries
  {
    match op {
      case Save(item) =>
        SaveHolds(c, lim, st, fs, item, k);
        SaveSurvives(c, lim, st, item, k);
      case Remove(sel) =>
        RemoveHolds(c, lim, st, fs, sel, k);
        RemoveSurvives(c, lim, st, sel, k);
    }
  }

  /** An operation that has taken all its steps is done, and the directory holds what it leaves. */
  lemma WholeOp(c: Codec, lim: Limits, st: State, op: Op, j: nat)
    requires j >= |OpSteps(c, lim, st, op)|
    ensures Partly(c, lim, st, op, j) == [op]
    ensures Distinct(Ids(st.entries)) ==> HeldOp(c, lim, st, op, j) == Apply(lim, st, op).entries
  {
    if op.Remove? {
      NothingWritten(c, Removed(lim, st, op));
      if Distinct(Ids(st.entries)) {
        RemovedAll(lim, st, op.sel);
      }
    }
  }

  lemma OpMirrors(c: Codec, lim: Limits, st: State, fs: FS, op: Op)
    requires Mirrored(c, lim, st, fs) && Admissible(c, st, fs, op)
    ensures var d := DoAll(fs, OpSteps(c, lim, st, op));
            Mirrored(c, lim, Apply(lim, st, op), d) && (JsonHasEml(fs) ==> JsonHasEml(d))
  {
    var steps := OpSteps(c, lim, st, op);
    assert steps[..|steps|] == steps;
    OpIsCrashSafe(c, lim, st, fs, op, |steps|);
    WholeOp(c, lim, st, op, |steps|);
    ApplyKeeps(lim, st, op);
  }

  // ----- whole runs -----

  /** A store and the files of its directory. */
  datatype Point = Point(st: State, files: FS)

  function Past(c: Codec, lim: Limits, p: Point, op: Op): Point {
    Point(Apply(lim, p.st, op), DoAll(p.files, OpSteps(c, lim, p.st, op)))
  }

  function PastAll(c: Codec, lim: Limits, p: Point, ops: seq<Op>): Point {
    if ops == [] then p else Past(c, lim, PastAll(c, lim, p, ops[..|ops| - 1]), ops[|ops| - 1])
  }

  /** Every operation of the run is admissible when its turn comes. */
  ghost predicate GoodRun(c: Codec, lim: Limits, p: Point, ops: seq<Op>) {
    forall n | 0 <= n < |ops| :: AdmissibleAt(c, lim, p, ops, n)
  }

  ghost predicate AdmissibleAt(c: Codec, lim: Limits, p: Point, ops: seq<Op>, n: nat)
    requires n < |ops|
  {
    var q := PastAll(c, lim, p, ops[..n]);
    Admissible(c, q.st, q.files, ops[n])
  }

  /** The store and its directory after a run from `p`. */
  ghost predicate Sound(c: Codec, lim: Limits, p: Point, q: Point) {
    Mirrored(c, lim, q.st, q.files) && (JsonHasEml(p.files) ==> JsonHasEml(q.files))
  }

  lemma OpStaysMirrored(c: Codec, lim: Limits, p: Point, q: Point, op: Op)
    requires Sound(c, lim, p, q) && Admissible(c, q.st, q.files, op)
    ensures Sound(c, lim, p, Past(c, lim, q, op))
  {
    OpMirrors(c, lim, q.st, q.files, op);
  }

  lemma PastNext(c: Codec, lim: Limits, p: Point, ops: seq<Op>, n: nat)
    requires n < |ops|
    ensures PastAll(c, lim, p, ops[..n + 1]) == Past(c, lim, PastAll(c, lim, p, ops[..n]), ops[n])
  {
    assert ops[..n + 1][..n] == ops[..n];
  }

  /** Without a crash the directory mirrors the store after every operation of every run. */
  lemma {:induction false} RunStaysMirrored(c: Codec, lim: Limits, p: Point, ops: seq<Op>, n: nat)
    requires Mirrored(c, lim, p.st, p.files) && GoodRun(c, lim, p, ops) && n <= |ops|
    ensures Sound(c, lim, p, PastAll(c, lim, p, ops[..n]))
  {
    if n > 0 {
      RunStaysMirrored(c, lim, p, ops, n - 1);
      assert AdmissibleAt(c, lim, p, ops, n - 1);
      OpStaysMirrored(c, lim, p, PastAll(c, lim, p, ops[..n - 1]), ops[n - 1]);
      PastNext(c, lim, p, ops, n - 1);
    }
  }

  // ----- the file steps of a run -----

  function Flat(parts: seq<seq<Step>>): seq<Step> {
    if parts == [] then [] else Flat(parts[..|parts| - 1]) + parts[|parts| - 1]
  }

  /** What operation `n` of the run does to the directory. */
  function Part(c: Codec, lim: Limits, p: Point, ops: seq<Op>, n: nat): seq<Step>
    requires n < |ops|
  {
    OpSteps(c, lim, PastAll(c, lim, p, ops[..n]).st, ops[n])
  }

  function Parts(c: Codec, lim: Limits, p: Point, ops: seq<Op>): seq<seq<Step>> {
    seq(|ops|, n requires 0 <= n < |ops| => Part(c, lim, p, ops, n))
  }

  function RunSteps(c: Codec, lim: Limits, p: Point, ops: seq<Op>): seq<Step> { Flat(Parts(c, lim, p, ops)) }

  lemma PartsOfPrefix(c: Codec, lim: Limits, p: Point, ops: seq<Op>, n: nat)
    requires n <= |ops|
    ensures Parts(c, lim, p, ops[..n]) == Parts(c, lim, p, ops)[..n]
  {
    forall i | 0 <= i < n ensures Part(c, lim, p, ops[..n], i) == Part(c, lim, p, ops, i) {
      assert ops[..n][..i] == ops[..i];
    }
  }

  lemma RunStepsLast(c: Codec, lim: Limits, p: Point, ops: seq<Op>)
    requires ops != []
    ensures RunSteps(c, lim, p, ops) == RunSteps(c, lim, p, ops[..|ops| - 1]) + Part(c, lim, p, ops, |ops| - 1)
  {
    PartsOfPrefix(c, lim, p, ops, |ops| - 1);
    FlatLast(Parts(c, lim, p, ops), Parts(c, lim, p, ops[..|ops| - 1]), Part(c, lim, p, ops, |ops| - 1));
  }

  lemma FlatLast(parts: seq<seq<Step>>, init: seq<seq<Step>>, part: seq<Step>)
    requires parts != [] && init == parts[..|parts| - 1] && part == parts[|parts| - 1]
    ensures Flat(parts) == Flat(init) + part
  {
  }

  lemma {:induction false} StatesAre(c: Codec, lim: Limits, p: Point, ops: seq<Op>)
    ensures PastAll(c, lim, p, ops).st == Run(lim, p.st, ops)
  {
    if ops != [] {
      StatesAre(c, lim, p, ops[..|ops| - 1]);
    }
  }

  lemma DoInTurn(fs: FS, before: seq<Step>, part: seq<Step>, all: seq<Step>)
    requires all == before + part
    ensures DoAll(fs, all) == DoAll(DoAll(fs, before), part)
  {
    DoAppend(fs, before, part);
  }

  /** A run's steps lead to where its operations lead. */
  lemma {:induction false} StepsLead(c: Codec, lim: Limits, p: Point, ops: seq<Op>)
    ensures PastAll(c, lim, p, ops) == Point(Run(lim, p.st, ops), DoAll(p.files, RunSteps(c, lim, p, ops)))
  {
    StatesAre(c, lim, p, ops);
    if ops != [] {
      StepsLead(c, lim, p, ops[..|ops| - 1]);
      RunStepsLast(c, lim, p, ops);
      DoInTurn(p.files, RunSteps(c, lim, p, ops[..|ops| - 1]), Part(c, lim, p, ops, |ops| - 1),
               RunSteps(c, lim, p, ops));
    }
  }

  lemma TakeOfAppend(a: seq<Step>, b: seq<Step>, k: nat)
    requires k <= |a + b|
    ensures (a + b)[..k] == if k < |a| then a[..k] else a + b[..k - |a|]
  {
  }

  // ----- how far a run got -----

  /** How many of several programs run in turn are finished after `k` steps. */
  function Finished(parts: seq<seq<Step>>, k: nat): (n: nat)
    ensures n <= |parts|
  {
    if parts == [] || k >= |Flat(parts)| then |parts| else Finished(parts[..|parts| - 1], k)
  }

  lemma {:induction false} FlatGrows(parts: seq<seq<Step>>, m: nat)
    requires m <= |parts|
    ensures |Flat(parts[..m])| <= |Flat(parts)|
  {
    if m < |parts| {
      FlatGrows(parts[..|parts| - 1], m);
      assert parts[..|parts| - 1][..m] == parts[..m];
    } else {
      assert parts[..m] == parts;
    }
  }

  /** A program is finished exactly when all steps up to its end were taken. */
  lemma {:induction false} FinishedIff(parts: seq<seq<Step>>, k: nat, m: nat)
    requires m <= |parts|
    ensures m <= Finished(parts, k) <==> |Flat(parts[..m])| <= k
  {
    if parts == [] || k >= |Flat(parts)| {
      FlatGrows(parts, m);
    } else if m < |parts| {
      FinishedIff(parts[..|parts| - 1], k, m);
      assert parts[..|parts| - 1][..m] == parts[..m];
    } else {
      assert parts[..m] == parts;
    }
  }

  /** The first `k` steps are those of the finished programs and some of the next one. */
  lemma {:induction false} StepsTaken(parts: seq<seq<Step>>, k: nat)
    requires k <= |Flat(parts)|
    ensures var n := Finished(parts, k);
            && |Flat(parts[..n])| <= k
            && (n == |parts| ==> Flat(parts)[..k] == Flat(parts[..n]))
            && (n < |parts| ==> k - |Flat(parts[..n])| < |parts[n]|
                                && Flat(parts)[..k] == Flat(parts[..n]) + parts[n][..k - |Flat(parts[..n])|])
  {
    if k == |Flat(parts)| {
      assert parts[..|parts|] == parts;
    } else {
      var init, last := parts[..|parts| - 1], parts[|parts| - 1];
      TakeOfAppend(Flat(init), last, k);
      if k <= |Flat(init)| {
        StepsTaken(init, k);
        assert init[..Finished(init, k)] == parts[..Finished(init, k)];
        NoStepTaken(Flat(init), last, k);
      } else {
        assert Finished(parts, k) == |init|;
      }
    }
  }

  lemma NoStepTaken(a: seq<Step>, b: seq<Step>, k: nat)
    requires k <= |a|
    ensures (a + b)[..k] == a[..k] && a[..|a|] == a && a + b[..0] == a
  {
  }

  // ----- stopping a run -----

  function Over(k: nat, before: nat): nat { if k < before then 0 else k - before }

  /** The first `n` operations, and what counts as done of the next one after `j` of its steps, from `st` on. */
  function DoneTo(c: Codec, lim: Limits, st: State, ops: seq<Op>, n: nat, j: nat): seq<Op>
    requires n <= |ops|
  {
    ops[..n] + if n == |ops| then [] else Partly(c, lim, st, ops[n], j)
  }

  function HeldTo(c: Codec, lim: Limits, st: State, ops: seq<Op>, n: nat, j: nat): seq<Entry>
    requires n <= |ops|
  {
    if n == |ops| then st.entries else HeldOp(c, lim, st, ops[n], j)
  }

  /** How many operations of a run are finished after `k` of its steps. */
  function FinishedOps(c: Codec, lim: Limits, p: Point, ops: seq<Op>, k: nat): (n: nat)
    ensures n <= |ops|
  {
    Finished(Parts(c, lim, p, ops), k)
  }

  /** The operations that count as done when a run is stopped after `k` file steps. */
  function Surviving(c: Codec, lim: Limits, p: Point, ops: seq<Op>, k: nat): seq<Op> {
    var n := FinishedOps(c, lim, p, ops, k);
    DoneTo(c, lim, PastAll(c, lim, p, ops[..n]).st, ops, n, Over(k, |RunSteps(c, lim, p, ops[..n])|))
  }

  /** What the directory then holds. */
  function HeldRun(c: Codec, lim: Limits, p: Point, ops: seq<Op>, k: nat): seq<Entry> {
    var n := FinishedOps(c, lim, p, ops, k);
    HeldTo(c, lim, PastAll(c, lim, p, ops[..n]).st, ops, n, Over(k, |RunSteps(c, lim, p, ops[..n])|))
  }

  /** The file steps of the first `m` operations were all taken within `k` steps. */
  predicate TakenBy(c: Codec, lim: Limits, p: Point, ops: seq<Op>, m: nat, k: nat)
    requires m <= |ops|
  {
    |RunSteps(c, lim, p, ops[..m])| <= k
  }

  /** Every operation whose file steps were all taken by then is among `done`, with all those before it. */
  ghost predicate Durable(c: Codec, lim: Limits, p: Point, ops: seq<Op>, k: nat, done: seq<Op>) {
    forall m | 0 <= m <= |ops| && TakenBy(c, lim, p, ops, m, k) :: ops[..m] <= done
  }

  lemma TakenSurvives(c: Codec, lim: Limits, p: Point, ops: seq<Op>, k: nat, m: nat)
    requires m <= |ops| && TakenBy(c, lim, p, ops, m, k)
    ensures ops[..m] <= Surviving(c, lim, p, ops, k)
  {
    PartsOfPrefix(c, lim, p, ops, m);
    FinishedIff(Parts(c, lim, p, ops), k, m);
    PrefixOfPrefix(ops, m, FinishedOps(c, lim, p, ops, k), Surviving(c, lim, p, ops, k));
  }

  lemma FinishedSurvive(c: Codec, lim: Limits, p: Point, ops: seq<Op>, k: nat, done: seq<Op>)
    requires done == Surviving(c, lim, p, ops, k)
    ensures Durable(c, lim, p, ops, k, done)
  {
    forall m | 0 <= m <= |ops| && TakenBy(c, lim, p, ops, m, k) ensures ops[..m] <= done {
      TakenSurvives(c, lim, p, ops, k, m);
    }
  }

  lemma PrefixOfPrefix(ops: seq<Op>, m: nat, n: nat, done: seq<Op>)
    requires m <= n <= |ops| && ops[..n] <= done
    ensures ops[..m] <= done
  {
  }

  /**
   * What a stop after `k` steps of a run from `p` leaves in `d`: exactly the
   * stated messages; and a reload under the same limits gives what the
   * operations that count as done would have left.
   */
  ghost predicate Found(c: Codec, lim: Limits, p: Point, ops: seq<Op>, k: nat, d: FS) {
    && Holds(c, p.files, d, HeldRun(c, lim, p, ops, k))
    && Cropped(lim, HeldRun(c, lim, p, ops, k)) == Run(lim, p.st, Surviving(c, lim, p, ops, k)).entries
    && ReloadsTo(c, d, lim, Filed(Run(lim, p.st, Surviving(c, lim, p, ops, k)).entries))
    && Durable(c, lim, p, ops, k, Surviving(c, lim, p, ops, k))
  }

  /** What a directory with these messages reloads to, under any limits. */
  lemma HeldReloads(c: Codec, fs: FS, d: FS, held: seq<Entry>, lim: Limits)
    requires Holds(c, fs, d, held)
    ensures Kept(c, Filed(held), lim) == Filed(Cropped(lim, held)) && ReloadsTo(c, d, lim, Filed(Cropped(lim, held)))
  {
    FiledKept(c, held, lim);
    RecoversOnly(c, d, lim, Filed(held));
  }

  /** `n` operations are done, and `j` steps of the next. */
  lemma StopInOp(c: Codec, lim: Limits, p: Point, ops: seq<Op>, n: nat, j: nat)
    requires Mirrored(c, lim, p.st, p.files) && n < |ops| && GoodRun(c, lim, p, ops) && j <= |Part(c, lim, p, ops, n)|
    ensures var q := PastAll(c, lim, p, ops[..n]);
            && Holds(c, p.files, DoAll(q.files, Part(c, lim, p, ops, n)[..j]), HeldOp(c, lim, q.st, ops[n], j))
            && Cropped(lim, HeldOp(c, lim, q.st, ops[n], j)) == Run(lim, q.st, Partly(c, lim, q.st, ops[n], j)).entries
  {
    RunStaysMirrored(c, lim, p, ops, n);
    assert AdmissibleAt(c, lim, p, ops, n);
    var q := PastAll(c, lim, p, ops[..n]);
    OpIsCrashSafe(c, lim, q.st, q.files, ops[n], j);
  }

  /** No operation was cut short. */
  lemma StopAfterOps(c: Codec, lim: Limits, p: Point, ops: seq<Op>)
    requires Mirrored(c, lim, p.st, p.files) && GoodRun(c, lim, p, ops)
    ensures var q := PastAll(c, lim, p, ops);
            Holds(c, p.files, q.files, q.st.entries) && Cropped(lim, q.st.entries) == q.st.entries
  {
    RunStaysMirrored(c, lim, p, ops, |ops|);
    assert ops[..|ops|] == ops;
    KeepAll(lim, PastAll(c, lim, p, ops).st.entries);
  }

  lemma DoneLeaves(c: Codec, lim: Limits, st: State, at: State, ops: seq<Op>, n: nat, j: nat)
    requires n < |ops| && at == Run(lim, st, ops[..n])
    ensures Run(lim, st, DoneTo(c, lim, at, ops, n, j)) == Run(lim, at, Partly(c, lim, at, ops[n], j))
  {
    RunAppend(lim, st, ops[..n], Partly(c, lim, at, ops[n], j));
  }

  /** Stopped within operation `n`. */
  lemma StoppedWithin(c: Codec, lim: Limits, p: Point, ops: seq<Op>, n: nat, j: nat, q: Point, d: FS)
    requires Mirrored(c, lim, p.st, p.files) && GoodRun(c, lim, p, ops)
    requires n < |ops| && q == PastAll(c, lim, p, ops[..n]) && j <= |Part(c, lim, p, ops, n)|
    requires d == DoAll(q.files, Part(c, lim, p, ops, n)[..j])
    ensures Holds(c, p.files, d, HeldTo(c, lim, q.st, ops, n, j))
    ensures Cropped(lim, HeldTo(c, lim, q.st, ops, n, j)) == Run(lim, p.st, DoneTo(c, lim, q.st, ops, n, j)).entries
  {
    StopInOp(c, lim, p, ops, n, j);
    StatesAre(c, lim, p, ops[..n]);
    DoneLeaves(c, lim, p.st, q.st, ops, n, j);
  }

  /** Stopped after the last operation. */
  lemma StoppedBetween(c: Codec, lim: Limits, p: Point, ops: seq<Op>, j: nat, q: Point)
    requires Mirrored(c, lim, p.st, p.files) && GoodRun(c, lim, p, ops) && q == PastAll(c, lim, p, ops)
    ensures Holds(c, p.files, q.files, HeldTo(c, lim, q.st, ops, |ops|, j))
    ensures Cropped(lim, HeldTo(c, lim, q.st, ops, |ops|, j))
         == Run(lim, p.st, DoneTo(c, lim, q.st, ops, |ops|, j)).entries
  {
    assert ops[..|ops|] == ops && ops + [] == ops;
    StopAfterOps(c, lim, p, ops);
    StatesAre(c, lim, p, ops);
  }

  lemma StoppedTo(c: Codec, lim: Limits, p: Point, ops: seq<Op>, n: nat, j: nat, q: Point, d: FS)
    requires Mirrored(c, lim, p.st, p.files) && GoodRun(c, lim, p, ops)
    requires n <= |ops| && q == PastAll(c, lim, p, ops[..n])
    requires n == |ops| ==> d == q.files
    requires n < |ops| ==> j <= |Part(c, lim, p, ops, n)| && d == DoAll(q.files, Part(c, lim, p, ops, n)[..j])
    ensures Holds(c, p.files, d, HeldTo(c, lim, q.st, ops, n, j))
    ensures Cropped(lim, HeldTo(c, lim, q.st, ops, n, j)) == Run(lim, p.st, DoneTo(c, lim, q.st, ops, n, j)).entries
  {
    if n < |ops| {
      StoppedWithin(c, lim, p, ops, n, j, q, d);
    } else {
      assert ops[..n] == ops;
      StoppedBetween(c, lim, p, ops, j, q);
    }
  }

  /** Where several programs run in turn are after `k` steps. */
  lemma PartsLead(fs: FS, parts: seq<seq<Step>>, k: nat, n: nat, before: seq<Step>, j: nat, mid: FS, d: FS)
    requires k <= |Flat(parts)| && n == Finished(parts, k) && before == Flat(parts[..n]) && j == Over(k, |before|)
    requires mid == DoAll(fs, before) && d == DoAll(fs, Flat(parts)[..k])
    ensures n == |parts| ==> d == mid
    ensures n < |parts| ==> j <= |parts[n]| && d == DoAll(mid, parts[n][..j])
  {
    StepsTaken(parts, k);
    if n < |parts| {
      DoInTurn(fs, before, parts[n][..j], Flat(parts)[..k]);
    }
  }

  /** The same for the operations of a run. */
  lemma RunLeads(c: Codec, lim: Limits, p: Point, ops: seq<Op>, k: nat, n: nat, q: Point, j: nat, d: FS)
    requires k <= |RunSteps(c, lim, p, ops)| && n == FinishedOps(c, lim, p, ops, k)
    requires q == PastAll(c, lim, p, ops[..n]) && j == Over(k, |RunSteps(c, lim, p, ops[..n])|)
    requires d == DoAll(p.files, RunSteps(c, lim, p, ops)[..k])
    ensures n == |ops| ==> d == q.files
    ensures n < |ops| ==> j <= |Part(c, lim, p, ops, n)| && d == DoAll(q.files, Part(c, lim, p, ops, n)[..j])
  {
    PartsOfPrefix(c, lim, p, ops, n);
    StepsLead(c, lim, p, ops[..n]);
    PartsLead(p.files, Parts(c, lim, p, ops), k, n, RunSteps(c, lim, p, ops[..n]), j, q.files, d);
  }

  lemma FoundFrom(c: Codec, lim: Limits, p: Point, ops: seq<Op>, k: nat, d: FS, held: seq<Entry>, done: seq<Op>)
    requires held == HeldRun(c, lim, p, ops, k) && done == Surviving(c, lim, p, ops, k)
    requires Holds(c, p.files, d, held) && Cropped(lim, held) == Run(lim, p.st, done).entries
    ensures Found(c, lim, p, ops, k, d)
  {
    HeldReloads(c, p.files, d, held, lim);
    FinishedSurvive(c, lim, p, ops, k, done);
  }

  /**
   * Stop a store after any file step of any run: the directory holds exactly
   * the stated messages, a reload finds what the operations that count as done
   * would have left, every operation that had taken all its steps is among
   * those, and metadata always has its mail.
   */
  lemma RunIsCrashConsistent(c: Codec, lim: Limits, p: Point, ops: seq<Op>, k: nat)
    requires Mirrored(c, lim, p.st, p.files) && GoodRun(c, lim, p, ops) && k <= |RunSteps(c, lim, p, ops)|
    ensures Found(c, lim, p, ops, k, DoAll(p.files, RunSteps(c, lim, p, ops)[..k]))
  {
    var n, d := FinishedOps(c, lim, p, ops, k), DoAll(p.files, RunSteps(c, lim, p, ops)[..k]);
    var q, j := PastAll(c, lim, p, ops[..n]), Over(k, |RunSteps(c, lim, p, ops[..n])|);
    RunLeads(c, lim, p, ops, k, n, q, j, d);
    StoppedTo(c, lim, p, ops, n, j, q, d);
    FoundFrom(c, lim, p, ops, k, d, HeldTo(c, lim, q.st, ops, n, j), DoneTo(c, lim, q.st, ops, n, j));
  }
}
