/**
 * Loading a data directory into a store (`Persist`), and what a crash can do
 * to the store's own operations.
 */
module Recovery {
  import opened Mail
  import opened Retention
  import opened StoreSpec
  import opened Disk
  import opened Store
  import Text

  // ----- entries and their files -----

  function Filed(entries: seq<Entry>): seq<Stored> {
    seq(|entries|, i requires 0 <= i < |entries| => StoredOf(entries[i].item))
  }

  /** The message is what parsing its own bytes gives, as for everything received or loaded. */
  predicate Faithful(c: Codec, item: Item) { ItemOf(c, StoredOf(item)) == item }

  lemma FiledSizes(c: Codec, entries: seq<Entry>)
    requires forall e <- entries :: e.size == SizeOf(e.item) && Faithful(c, e.item)
    ensures StoredSizes(c, Filed(entries)) == Sizes(entries) && StoredIds(Filed(entries)) == Ids(entries)
  {
    forall i | 0 <= i < |entries| ensures StoredSizes(c, Filed(entries))[i] == Sizes(entries)[i] {
      assert entries[i] in entries;
    }
  }

  lemma FiledKept(c: Codec, all: seq<Entry>, lim: Limits)
    requires forall e <- all :: e.size == SizeOf(e.item) && Faithful(c, e.item)
    ensures Overflow(c, Filed(all), lim) == Evicted(all, lim)
    ensures Kept(c, Filed(all), lim) == Filed(all[Evicted(all, lim)..])
    ensures StoredIds(Filed(all))[..Evicted(all, lim)] == Ids(all[..Evicted(all, lim)])
  {
    FiledSizes(c, all);
  }

  /** The steps the store takes for a save are those of the crash theorem. */
  lemma SaveStepsAgree(c: Codec, lim: Limits, st: State, item: Item)
    requires WellFormed(st, lim) && Faithful(c, item) && forall e <- st.entries :: Faithful(c, e.item)
    ensures DiskSteps(c, Text.Some(item), GoneIds(lim, st, item))
         == SaveAndEvict(c, Filed(st.entries), StoredOf(item), lim)
    ensures Kept(c, Filed(st.entries) + [StoredOf(item)], lim) == Filed(Apply(lim, st, Save(item)).entries)
    ensures Fits(StoredSizes(c, Filed(st.entries)), lim)
  {
    var all := Arrived(st, item);
    assert Filed(all) == Filed(st.entries) + [StoredOf(item)];
    FiledKept(c, all, lim);
    FiledSizes(c, st.entries);
  }

  /** The directory mirrors the store: a reload gives exactly its messages, in its order. */
  ghost predicate Mirrored(c: Codec, lim: Limits, st: State, fs: FS) {
    && Lawful(c)
    && WellFormed(st, lim) && (forall e <- st.entries :: Faithful(c, e.item))
    && Arranged(c, Filed(st.entries), fs)
  }

  /** A message that may be saved: a new id, and the latest arrival so far. */
  ghost predicate Newcomer(c: Codec, st: State, fs: FS, item: Item) {
    Faithful(c, item) && Json(item.msg.id) !in fs && forall x <- Filed(st.entries) :: KeyLess(x, StoredOf(item))
  }

  /**
   * The store's Save is crash-atomic: after any number of its file steps a
   * reload gives exactly the messages before or exactly those after it, and
   * all the steps together keep the directory a mirror.
   */
  lemma StoreSaveIsCrashAtomic(c: Codec, lim: Limits, st: State, fs: FS, item: Item, k: nat)
    requires Mirrored(c, lim, st, fs) && Newcomer(c, st, fs, item) && Legal(st, Save(item))
    requires k <= |DiskSteps(c, Text.Some(item), GoneIds(lim, st, item))|
    ensures var steps := DiskSteps(c, Text.Some(item), GoneIds(lim, st, item));
            var (d, after) := (DoAll(fs, steps[..k]), Apply(lim, st, Save(item)));
            && (JsonHasEml(fs) ==> JsonHasEml(d))
            && ReloadsTo(c, d, lim, Filed((if k < |SaveSteps(c, StoredOf(item))| then st else after).entries))
            && (k == |steps| ==> Mirrored(c, lim, after, d))
  {
    SaveStepsAgree(c, lim, st, item);
    SaveIsCrashAtomic(c, fs, Filed(st.entries), StoredOf(item), lim, k);
    SaveKeeps(lim, st, item);
    var all := Arrived(st, item);
    forall e | e in Apply(lim, st, Save(item)).entries ensures Faithful(c, e.item) {
      assert e in all;
    }
  }

  /** A loaded message is the parsed one with the id, envelope and arrival time of its files. */
  lemma LoadedAsParsed(c: Codec, s: Stored)
    ensures var (m, parsed) := (ItemOf(c, s).msg, c.parse(s.raw, s.meta.envelope));
            && m.id == s.id && m.envelope == s.meta.envelope && m.createdAt == s.meta.createdAt
            && m.(id := parsed.id, envelope := parsed.envelope, createdAt := parsed.createdAt) == parsed
            && ItemOf(c, s).raw == s.raw
  {
  }

  // ----- arrival order -----

  /** Arrival times never decrease along the store, and equal ones go by id. */
  ghost predicate InArrivalOrder(entries: seq<Entry>) {
    forall i, j | 0 <= i < j < |entries| :: Earlier(entries[i].item.msg, entries[j].item.msg)
  }

  ghost predicate Earlier(a: Message, b: Message) {
    a.createdAt < b.createdAt || (a.createdAt == b.createdAt && Text.ComesFirst(a.id, b.id))
  }

  /** The reload order is the arrival order. */
  lemma SortedIffInArrivalOrder(entries: seq<Entry>)
    ensures Sorted(Filed(entries)) <==> InArrivalOrder(entries)
  {
    forall i, j | 0 <= i < j < |entries|
      ensures KeyLess(Filed(entries)[i], Filed(entries)[j]) <==> Earlier(entries[i].item.msg, entries[j].item.msg)
    {
      KeyLessIff(Filed(entries)[i], Filed(entries)[j]);
    }
  }

  /** What the limits leave out arrived no later than anything they keep. */
  lemma NewestAreKept(c: Codec, all: seq<Stored>, lim: Limits)
    requires Sorted(all)
    ensures forall i, j | 0 <= i < Overflow(c, all, lim) && 0 <= j < |Kept(c, all, lim)| ::
              all[i].meta.createdAt <= Kept(c, all, lim)[j].meta.createdAt
  {
    var n := Overflow(c, all, lim);
    forall i, j | 0 <= i < n && 0 <= j < |all| - n ensures all[i].meta.createdAt <= all[n..][j].meta.createdAt {
      assert KeyLess(all[i], all[n + j]);
    }
  }

  /** Saved at strictly increasing times, messages are in reload order. */
  lemma IncreasingTimesAreSorted(entries: seq<Entry>)
    requires forall i, j | 0 <= i < j < |entries| :: entries[i].item.msg.createdAt < entries[j].item.msg.createdAt
    ensures Sorted(Filed(entries))
  {
    SortedIffInArrivalOrder(entries);
  }

  /** A message that arrives after all the stored ones is a newcomer: what the crash theorems ask of a save. */
  lemma LatestIsNewcomer(c: Codec, st: State, fs: FS, item: Item)
    requires Faithful(c, item) && Json(item.msg.id) !in fs
    requires forall e <- st.entries :: e.item.msg.createdAt < item.msg.createdAt
    ensures Newcomer(c, st, fs, item)
  {
    forall x | x in Filed(st.entries) ensures KeyLess(x, StoredOf(item)) {
      var i :| 0 <= i < |st.entries| && Filed(st.entries)[i] == x;
      assert st.entries[i] in st.entries;
      KeyLessIff(x, StoredOf(item));
    }
  }

  // ----- loading -----

  function InsertSorted(list: seq<Stored>, s: Stored): seq<Stored> {
    if list == [] || KeyLess(s, list[0]) then [s] + list else [list[0]] + InsertSorted(list[1..], s)
  }

  lemma {:induction false} InsertMembers(list: seq<Stored>, s: Stored)
    ensures forall x :: x in InsertSorted(list, s) <==> x == s || x in list
  {
    if list != [] && !KeyLess(s, list[0]) {
      InsertMembers(list[1..], s);
      assert list == [list[0]] + list[1..];
    }
  }

  lemma KeyLessTotal(a: Stored, b: Stored)
    requires a.id != b.id
    ensures KeyLess(a, b) || KeyLess(b, a)
  {
    Text.LessTotal(a.id, b.id);
  }

  lemma SortedCons(s: Stored, list: seq<Stored>)
    requires Sorted(list) && forall x <- list :: KeyLess(s, x)
    ensures Sorted([s] + list)
  {
  }

  lemma {:induction false} InsertKeepsSorted(list: seq<Stored>, s: Stored)
    requires Sorted(list) && forall x <- list :: x.id != s.id
    ensures Sorted(InsertSorted(list, s))
  {
    if list == [] {
    } else if KeyLess(s, list[0]) {
      forall x | x in list ensures KeyLess(s, x) {
        var i :| 0 <= i < |list| && list[i] == x;
        if i > 0 {
          KeyLessTransitive(s, list[0], x);
        }
      }
      SortedCons(s, list);
    } else {
      InsertKeepsSorted(list[1..], s);
      InsertMembers(list[1..], s);
      assert list[0] in list;
      KeyLessTotal(list[0], s);
      SortedCons(list[0], InsertSorted(list[1..], s));
    }
  }

  /** Reading the directory: every loadable pair, sorted by arrival; the others are skipped. */
  method ReadAll(c: Codec, fs: FS) returns (list: seq<Stored>)
    ensures Arranged(c, list, fs)
    ensures forall i, j | 0 <= i < j < |list| :: list[i].meta.createdAt <= list[j].meta.createdAt
  {
    list := [];
    var left := set f | f in fs.Keys && f.Json?;
    while left != {}
      invariant forall f <- left :: f in fs && f.Json?
      invariant Sorted(list)
      invariant forall x :: x in list <==> Held(c, fs, x) && Json(x.id) !in left
      decreases |left|
    {
      var f :| f in left;
      var meta := c.decode(fs[f]);
      left := left - {f};
      if Eml(f.id) in fs && meta.Some? {
        var s := Stored(f.id, meta.value, fs[Eml(f.id)]);
        InsertMembers(list, s);
        InsertKeepsSorted(list, s);
        list := InsertSorted(list, s);
      }
    }
  }

  function ItemsOf(c: Codec, list: seq<Stored>): seq<Item> {
    seq(|list|, i requires 0 <= i < |list| => ItemOf(c, list[i]))
  }

  /** The store after a start that finds this list. */
  function Began(c: Codec, lim: Limits, all: seq<Stored>): State { SaveAll(lim, EMPTY, ItemsOf(c, all)) }

  /** The store after loading the first `i` of the list. */
  function Loaded(c: Codec, lim: Limits, list: seq<Stored>, i: nat): State
    requires i <= |list|
  {
    SaveAll(lim, EMPTY, ItemsOf(c, list[..i]))
  }

  lemma {:induction false} ArrivedFiled(c: Codec, list: seq<Stored>)
    ensures var all := ArrivedAll(EMPTY, ItemsOf(c, list));
            && |all| == |list| && Filed(all) == list
            && forall e <- all :: e.size == SizeOf(e.item) && Faithful(c, e.item)
  {
    if list != [] {
      var init, last := list[..|list| - 1], list[|list| - 1];
      ArrivedFiled(c, init);
      assert ItemsOf(c, list)[..|list| - 1] == ItemsOf(c, init);
      assert StoredOf(ItemOf(c, last)) == last;
    }
  }

  /** After loading a list, the store holds exactly what the limits keep of it. */
  lemma LoadedKeepsNewest(c: Codec, lim: Limits, list: seq<Stored>)
    ensures Filed(SaveAll(lim, EMPTY, ItemsOf(c, list)).entries) == Kept(c, list, lim)
    ensures forall e <- SaveAll(lim, EMPTY, ItemsOf(c, list)).entries :: Faithful(c, e.item)
  {
    var all := ArrivedAll(EMPTY, ItemsOf(c, list));
    ArrivedFiled(c, list);
    FiledKept(c, all, lim);
    SaveAllKeepsNewest(lim, EMPTY, ItemsOf(c, list));
  }

  /** What arrives with the first `i` of the list. */
  function ArrivedFirst(c: Codec, list: seq<Stored>, i: nat): seq<Entry>
    requires i <= |list|
  {
    ArrivedAll(EMPTY, ItemsOf(c, list[..i]))
  }

  lemma ItemsNext(c: Codec, list: seq<Stored>, i: nat)
    requires i < |list|
    ensures var all := ItemsOf(c, list[..i + 1]);
            |all| == i + 1 && all[..i] == ItemsOf(c, list[..i]) && all[i] == ItemOf(c, list[i])
  {
  }

  lemma SaveAllMore(lim: Limits, st: State, items: seq<Item>, item: Item, all: seq<Item>)
    requires all != [] && items == all[..|all| - 1] && item == all[|all| - 1]
    ensures SaveAll(lim, st, all) == Apply(lim, SaveAll(lim, st, items), Save(item))
  {
  }

  lemma ArrivedAllMore(st: State, items: seq<Item>, item: Item, all: seq<Item>)
    requires all != [] && items == all[..|all| - 1] && item == all[|all| - 1]
    ensures ArrivedAll(st, all) == ArrivedAll(st, items) + [Entry(item, SizeOf(item), st.last + |all|)]
  {
  }

  /** One message of the reload, on the sequence of everything that arrives. */
  lemma LoadArrives(c: Codec, lim: Limits, list: seq<Stored>, i: nat) returns (e: Entry)
    requires i < |list|
    ensures ArrivedFirst(c, list, i + 1) == ArrivedFirst(c, list, i) + [e]
    ensures var prior := ArrivedFirst(c, list, i);
            Arrived(Loaded(c, lim, list, i), ItemOf(c, list[i])) == prior[Evicted(prior, lim)..] + [e]
    ensures Loaded(c, lim, list, i + 1) == Apply(lim, Loaded(c, lim, list, i), Save(ItemOf(c, list[i])))
  {
    var item, items := ItemOf(c, list[i]), ItemsOf(c, list[..i]);
    ItemsNext(c, list, i);
    SaveAllMore(lim, EMPTY, items, item, ItemsOf(c, list[..i + 1]));
    ArrivedAllMore(EMPTY, items, item, ItemsOf(c, list[..i + 1]));
    SaveAllKeepsNewest(lim, EMPTY, items);
    e := Entry(item, SizeOf(item), i + 1);
  }

  /** What one message of the reload evicts continues the evictions so far. */
  lemma LoadStep(c: Codec, lim: Limits, list: seq<Stored>, i: nat)
    requires i < |list|
    ensures Loaded(c, lim, list, i + 1) == Apply(lim, Loaded(c, lim, list, i), Save(ItemOf(c, list[i])))
    ensures var (e, e') := (Overflow(c, list[..i], lim), Overflow(c, list[..i + 1], lim));
            e <= e' && GoneIds(lim, Loaded(c, lim, list, i), ItemOf(c, list[i])) == StoredIds(list)[e..e']
  {
    var prior, all := ArrivedFirst(c, list, i), ArrivedFirst(c, list, i + 1);
    var entry := LoadArrives(c, lim, list, i);
    OverflowIsEvicted(c, lim, list[..i]);
    OverflowIsEvicted(c, lim, list[..i + 1]);
    ArrivedFiled(c, list[..i + 1]);
    EvictNext(lim, prior, entry, all, list, i);
  }

  lemma EvictNext(lim: Limits, prior: seq<Entry>, entry: Entry, all: seq<Entry>, list: seq<Stored>, i: nat)
    requires all == prior + [entry] && i < |list| && Filed(all) == list[..i + 1]
    ensures var (e, e') := (Evicted(prior, lim), Evicted(all, lim));
            var kept := prior[e..] + [entry];
            e <= e' && Ids(kept[..Evicted(kept, lim)]) == StoredIds(list)[e..e']
  {
    EvictAgain(lim, prior, entry);
    var e := Evicted(prior, lim);
    assert prior[e..] + [entry] == all[e..];
    GoneSlice(all, e, Evicted(all, lim), list, i);
  }

  lemma OverflowIsEvicted(c: Codec, lim: Limits, list: seq<Stored>)
    ensures Overflow(c, list, lim) == Evicted(ArrivedAll(EMPTY, ItemsOf(c, list)), lim)
  {
    ArrivedFiled(c, list);
    FiledKept(c, ArrivedAll(EMPTY, ItemsOf(c, list)), lim);
  }

  lemma GoneSlice(all: seq<Entry>, e: nat, e': nat, list: seq<Stored>, i: nat)
    requires i < |list| && Filed(all) == list[..i + 1] && e <= e' <= |all|
    ensures Ids(all[e..][..e' - e]) == StoredIds(list)[e..e']
  {
    forall j | e <= j < e' ensures Ids(all[e..][..e' - e])[j - e] == StoredIds(list)[j] {
      assert Filed(all)[j] == list[j];
    }
  }

  /** Ids are distinct, so the next message of the reload is not yet in the store. */
  lemma LoadFresh(c: Codec, lim: Limits, fs: FS, list: seq<Stored>, i: nat)
    requires Arranged(c, list, fs) && i < |list|
    ensures list[i].id !in Ids(Loaded(c, lim, list, i).entries)
  {
    var st := Loaded(c, lim, list, i);
    LoadedKeepsNewest(c, lim, list[..i]);
    forall j | 0 <= j < |st.entries| ensures Ids(st.entries)[j] != list[i].id {
      var s := Filed(st.entries)[j];
      assert s in list[..i];
      var k :| 0 <= k < i && list[k] == s;
      assert Held(c, fs, list[k]) && Held(c, fs, list[i]);
      if list[k].id == list[i].id {
        SortedDistinct(list, k, i);
      }
    }
  }

  /** The write test: a file created and removed, which a reload does not see. */
  method ProbeDirectory(dir: Directory)
    requires dir.Valid()
    modifies dir
    ensures dir.Valid() && dir.log == old(dir.log) + PROBE_STEPS && Lost(dir.codec, old(dir.files), dir.files, [])
  {
    TmpUnseen(dir.codec, dir.files, Probe, []);
    TmpUnseen(dir.codec, dir.files[Probe := []], Probe, []);
    dir.Take(Put(Probe, []));
    dir.Take(Drop(Probe));
  }

  /** One message of the reload, saved without being written again. */
  method LoadOne(store: MemoryStore, list: seq<Stored>, i: nat, ghost fs: FS)
    requires store.Valid() && store.disk != null && store.disk.Valid() && i < |list|
    requires Arranged(store.disk.codec, list, fs) && store.now == Loaded(store.disk.codec, store.lim, list, i)
    modifies store, store.disk
    ensures store.Valid() && store.disk == old(store.disk) && store.disk.Valid()
    ensures store.now == Loaded(store.disk.codec, store.lim, list, i + 1)
    ensures var c := store.disk.codec;
            var (e, e') := (Overflow(c, list[..i], store.lim), Overflow(c, list[..i + 1], store.lim));
            e <= e' && store.disk.log == old(store.disk.log) + RemoveSteps(StoredIds(list)[e..e'])
  {
    var item := ItemOf(store.disk.codec, list[i]);
    LoadFresh(store.disk.codec, store.lim, fs, list, i);
    LoadStep(store.disk.codec, store.lim, list, i);
    MapDomain(store.now.entries);
    NothingWritten(store.disk.codec, GoneIds(store.lim, store.now, item));
    store.SaveItem(item, false);
  }

  method LoadAll(store: MemoryStore, list: seq<Stored>, ghost fs: FS)
    requires store.Valid() && store.now == EMPTY && store.disk != null && store.disk.Valid()
    requires Arranged(store.disk.codec, list, fs)
    modifies store, store.disk
    ensures store.Valid() && store.disk == old(store.disk) && store.disk.Valid()
    ensures store.now == SaveAll(store.lim, EMPTY, ItemsOf(store.disk.codec, list))
    ensures store.disk.log == old(store.disk.log) + EvictSteps(store.disk.codec, list, store.lim)
  {
    var c, lim := store.disk.codec, store.lim;
    var i := 0;
    assert ItemsOf(c, list[..0]) == [] && StoredSizes(c, list[..0]) == [];
    while i < |list|
      invariant 0 <= i <= |list|
      invariant store.Valid() && store.disk == old(store.disk) && store.disk.Valid()
      invariant store.now == Loaded(c, lim, list, i)
      invariant store.disk.log == old(store.disk.log) + RemoveSteps(StoredIds(list)[..Overflow(c, list[..i], lim)])
    {
      ghost var log := store.disk.log;
      LoadOne(store, list, i, fs);
      LoadLog(old(store.disk.log), log, store.disk.log, list,
              Overflow(c, list[..i], lim), Overflow(c, list[..i + 1], lim));
      i := i + 1;
    }
    assert list[..|list|] == list;
  }

  /**
   * `Persist` on an empty store: probe, read, sort, save each message without
   * writing it again.  `all` is the directory's contents in reload order; the
   * store ends with what the limits keep of it, and the directory has gone
   * through exactly the steps of the recovery theorem.
   */
  method Persist(store: MemoryStore, dir: Directory) returns (n: nat, ghost all: seq<Stored>)
    requires store.Valid() && store.now == EMPTY && store.disk == null && dir.Valid()
    modifies store, dir
    ensures store.Valid() && dir.Valid() && store.disk == dir && store.evicted == 0 && n == |store.order|
    ensures Arranged(dir.codec, all, old(dir.files))
    ensures Filed(store.now.entries) == Kept(dir.codec, all, store.lim)
    ensures dir.log == old(dir.log) + RecoverySteps(dir.codec, all, store.lim)
    ensures InArrivalOrder(store.now.entries)
    ensures forall i, j | 0 <= i < |all| - |store.now.entries| && 0 <= j < |store.now.entries| ::
              all[i].meta.createdAt <= store.now.entries[j].item.msg.createdAt
    ensures store.now == Began(dir.codec, store.lim, all)
    ensures Lawful(dir.codec) ==> Mirrored(dir.codec, store.lim, store.now, dir.files)
    ensures old(JsonHasEml(dir.files)) ==> JsonHasEml(dir.files)
  {
    ghost var fs := dir.files;
    all := Load(store, dir);
    store.evicted := 0;
    n := |store.order|;
    LoadedKeepsNewest(dir.codec, store.lim, all);
    RecoveryDone(dir, fs, old(dir.log), all, store.lim);
    SortedIffInArrivalOrder(store.now.entries);
    ReachedIsWellFormed(store.lim, store.ops, store.now);
    OldestAreDropped(dir.codec, all, store.lim, store.now.entries);
  }

  lemma OldestAreDropped(c: Codec, all: seq<Stored>, lim: Limits, entries: seq<Entry>)
    requires Sorted(all) && Filed(entries) == Kept(c, all, lim)
    ensures forall i, j | 0 <= i < |all| - |entries| && 0 <= j < |entries| ::
              all[i].meta.createdAt <= entries[j].item.msg.createdAt
  {
    NewestAreKept(c, all, lim);
    assert |Filed(entries)| == |entries|;
    forall i, j | 0 <= i < |all| - |entries| && 0 <= j < |entries|
      ensures all[i].meta.createdAt <= entries[j].item.msg.createdAt
    {
      assert Kept(c, all, lim)[j] == Filed(entries)[j];
    }
  }

  /** The reading and loading part of `Persist`. */
  method Load(store: MemoryStore, dir: Directory) returns (list: seq<Stored>)
    requires store.Valid() && store.now == EMPTY && store.disk == null && dir.Valid()
    modifies store, dir
    ensures store.Valid() && dir.Valid() && store.disk == dir
    ensures Arranged(dir.codec, list, old(dir.files)) && store.now == Began(dir.codec, store.lim, list)
    ensures dir.log == old(dir.log) + RecoverySteps(dir.codec, list, store.lim)
  {
    ghost var fs := dir.files;
    ProbeDirectory(dir);
    list := ReadAll(dir.codec, dir.files);
    store.disk := dir;
    ghost var log := dir.log;
    LoadAll(store, list, fs);
    RecoveryLog(old(dir.log), log, dir.log, dir.codec, list, store.lim);
  }

  lemma RecoveryDone(dir: Directory, fs: FS, before: seq<Step>, all: seq<Stored>, lim: Limits)
    requires dir.Valid() && fs == DoAll(dir.origin, before) && dir.log == before + RecoverySteps(dir.codec, all, lim)
    requires Arranged(dir.codec, all, fs)
    ensures Arranged(dir.codec, Kept(dir.codec, all, lim), dir.files) && (JsonHasEml(fs) ==> JsonHasEml(dir.files))
  {
    var steps := RecoverySteps(dir.codec, all, lim);
    DoAppend(dir.origin, before, steps);
    assert steps[..|steps|] == steps;
    RecoveryIsCrashSafe(dir.codec, fs, all, lim, |steps|);
  }

  lemma LoadLog(before: seq<Step>, now: seq<Step>, after: seq<Step>, list: seq<Stored>, e: nat, e': nat)
    requires e <= e' <= |list|
    requires now == before + RemoveSteps(StoredIds(list)[..e]) && after == now + RemoveSteps(StoredIds(list)[e..e'])
    ensures after == before + RemoveSteps(StoredIds(list)[..e'])
  {
    var ids := StoredIds(list);
    RemoveStepsAppend(ids[..e], ids[e..e']);
    assert ids[..e] + ids[e..e'] == ids[..e'];
  }

  lemma RecoveryLog(before: seq<Step>, now: seq<Step>, after: seq<Step>, c: Codec, all: seq<Stored>, lim: Limits)
    requires now == before + PROBE_STEPS && after == now + EvictSteps(c, all, lim)
    ensures after == before + RecoverySteps(c, all, lim)
  {
  }

  lemma NothingWritten(c: Codec, gone: seq<string>)
    ensures DiskSteps(c, Text.None, gone) == RemoveSteps(gone)
  {
  }
}
