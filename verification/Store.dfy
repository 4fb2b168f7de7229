/**
 * `MemoryStore`: an id-to-entry map, an arrival-order list, a byte counter and
 * an optional data directory, kept in step with the plain sequence of StoreSpec.
 */
module Store {
  import opened Mail
  import opened Filters
  import opened Retention
  import opened Events
  import opened StoreSpec
  import opened Disk
  import Paging
  import Text

  /** The map of these entries, under their ids. */
  function MapOf(entries: seq<Entry>): map<string, Entry> {
    if entries == [] then map[]
    else
      var last := entries[|entries| - 1];
      MapOf(entries[..|entries| - 1])[Id(last) := last]
  }

  lemma {:induction false} MapDomain(entries: seq<Entry>)
    ensures forall id :: id in MapOf(entries) <==> id in Ids(entries)
  {
    if entries != [] {
      var init, last := entries[..|entries| - 1], entries[|entries| - 1];
      MapDomain(init);
      assert Ids(entries) == Ids(init) + [Id(last)];
    }
  }

  lemma {:induction false} MapLookup(entries: seq<Entry>, i: nat)
    requires i < |entries| && Distinct(Ids(entries))
    ensures Id(entries[i]) in MapOf(entries) && MapOf(entries)[Id(entries[i])] == entries[i]
  {
    var init, ids := entries[..|entries| - 1], Ids(entries);
    if i < |init| {
      assert Ids(init) == ids[..|init|];
      MapLookup(init, i);
      assert ids[i] != ids[|init|];
    }
  }

  lemma MapAppend(entries: seq<Entry>, e: Entry)
    ensures MapOf(entries + [e]) == MapOf(entries)[Id(e) := e]
  {
    assert (entries + [e])[..|entries|] == entries;
  }

  /** Deleting an id takes its entry out of the middle. */
  lemma {:induction false} MapDrop(a: seq<Entry>, e: Entry, b: seq<Entry>)
    requires Id(e) !in Ids(a) && Id(e) !in Ids(b)
    ensures MapOf(a + [e] + b) - {Id(e)} == MapOf(a + b)
  {
    if b == [] {
      assert a + [e] + b == a + [e] && a + b == a;
      MapAppend(a, e);
      MapDomain(a);
    } else {
      var init, last := b[..|b| - 1], b[|b| - 1];
      assert Ids(b) == Ids(init) + [Id(last)];
      MapDrop(a, e, init);
      assert a + [e] + b == a + [e] + init + [last] && a + b == a + init + [last];
      MapAppend(a + [e] + init, last);
      MapAppend(a + init, last);
    }
  }

  lemma MiddleDistinct(a: seq<Entry>, e: Entry, b: seq<Entry>)
    requires Distinct(Ids(a + [e] + b))
    ensures Distinct(Ids(a + b)) && Id(e) !in Ids(a) && Id(e) !in Ids(b)
  {
    var all := Ids(a + [e] + b);
    assert all == Ids(a) + [Id(e)] + Ids(b);
    assert Ids(a + b) == all[..|a|] + all[|a| + 1..];
    assert all[|a|] == Id(e);
    forall i | 0 <= i < |a| ensures Ids(a)[i] != Id(e) {
      assert all[i] == Ids(a)[i];
    }
    forall i | 0 <= i < |b| ensures Ids(b)[i] != Id(e) {
      assert all[|a| + 1 + i] == Ids(b)[i];
    }
  }

  lemma {:induction false} PickNone(entries: seq<Entry>, sel: Selector)
    requires forall x <- entries :: !Selected(sel, x)
    ensures Pick(entries, sel, true) == []
  {
    if entries != [] {
      assert entries[|entries| - 1] in entries;
      PickNone(entries[..|entries| - 1], sel);
    }
  }

  lemma {:induction false} PickOne(entries: seq<Entry>, e: Entry)
    requires Distinct(Ids(entries)) && e in entries
    ensures Pick(entries, ById(Id(e)), true) == [e]
  {
    var init, last := entries[..|entries| - 1], entries[|entries| - 1];
    var ids := Ids(entries);
    assert Ids(init) == ids[..|init|];
    assert ids[|init|] == Id(last);
    if last == e {
      forall x | x in init ensures Id(x) != Id(e) {
        var i :| 0 <= i < |init| && init[i] == x;
        assert ids[i] == Id(x);
      }
      PickNone(init, ById(Id(e)));
    } else {
      assert e in init;
      PickOne(init, e);
      var i :| 0 <= i < |init| && init[i] == e;
      assert ids[i] == Id(e);
    }
  }

  /** The fields that describe the stored messages agree with `entries`. */
  ghost predicate Agree(order: seq<string>, items: map<string, Entry>, bytes: int, entries: seq<Entry>) {
    order == Ids(entries) && items == MapOf(entries) && bytes == Total(Sizes(entries))
  }

  /** A new entry takes its place at the end of everything. */
  lemma Arrives(order: seq<string>, items: map<string, Entry>, bytes: int, entries: seq<Entry>, e: Entry)
    requires Agree(order, items, bytes, entries)
    ensures Agree(order + [Id(e)], items[Id(e) := e], bytes + e.size, entries + [e])
  {
    MapAppend(entries, e);
    SizesAppend(entries, e);
    assert Ids(entries + [e]) == Ids(entries) + [Id(e)];
  }

  /** `st` is what a run of legal operations leads to. */
  ghost predicate Reached(lim: Limits, ops: seq<Op>, st: State) {
    st == Run(lim, EMPTY, ops) && LegalRun(lim, EMPTY, ops)
  }

  lemma ReachedIsWellFormed(lim: Limits, ops: seq<Op>, st: State)
    requires Reached(lim, ops, st)
    ensures WellFormed(st, lim) && Distinct(Ids(st.entries)) && Ascending(st.entries)
  {
    RunKeeps(lim, EMPTY, ops);
  }

  lemma ReachedMore(lim: Limits, ops: seq<Op>, st: State, op: Op)
    requires Reached(lim, ops, st) && Legal(st, op)
    ensures Reached(lim, ops + [op], Apply(lim, st, op))
  {
    assert (ops + [op])[..|ops|] == ops;
  }

  lemma EventsMore(lim: Limits, ops: seq<Op>, st: State, op: Op)
    requires st == Run(lim, EMPTY, ops)
    ensures RunEvents(lim, EMPTY, ops + [op]) == RunEvents(lim, EMPTY, ops) + Published(lim, st, op)
  {
    assert (ops + [op])[..|ops|] == ops;
  }

  lemma SaveReady(lim: Limits, ops: seq<Op>, st: State, items: map<string, Entry>, item: Item)
    requires Reached(lim, ops, st) && items == MapOf(st.entries) && item.msg.id !in items
    ensures Reached(lim, ops + [Save(item)], Apply(lim, st, Save(item)))
    ensures Distinct(Ids(Arrived(st, item)))
  {
    ReachedIsWellFormed(lim, ops, st);
    MapDomain(st.entries);
    ArrivedKeeps(st, item);
    ReachedMore(lim, ops, st, Save(item));
  }

  /** Cutting the order list and the map by id is picking the others. */
  lemma {:induction false} MapRemoved(entries: seq<Entry>, id: string)
    ensures MapOf(entries) - {id} == MapOf(Pick(entries, ById(id), false))
  {
    if entries != [] {
      var init, last := entries[..|entries| - 1], entries[|entries| - 1];
      MapRemoved(init, id);
      var p := Pick(init, ById(id), false);
      MapMinus(MapOf(init), last, id);
      MapAppend(p, last);
      assert p + [] == p;
    }
  }

  lemma MapMinus(m: map<string, Entry>, e: Entry, id: string)
    ensures m[Id(e) := e] - {id} == if Id(e) == id then m - {id} else (m - {id})[Id(e) := e]
  {
  }

  lemma PickSizes(entries: seq<Entry>, e: Entry)
    requires Distinct(Ids(entries)) && e in entries
    ensures Total(Sizes(Pick(entries, ById(Id(e)), false))) == Total(Sizes(entries)) - e.size
  {
    PickOne(entries, e);
    PickCounts(entries, ById(Id(e)));
    assert Sizes([e]) == [e.size] && [e.size][1..] == [];
  }

  /** The ids a save evicts, oldest first. */
  function GoneIds(lim: Limits, st: State, item: Item): seq<string> {
    var all := Arrived(st, item);
    Ids(all[..Evicted(all, lim)])
  }

  function Messages(entries: seq<Entry>): seq<Message> {
    seq(|entries|, i requires 0 <= i < |entries| => entries[i].item.msg)
  }

  datatype PageResult = PageResult(messages: seq<Message>, next: nat)

  function StoredOf(item: Item): Stored {
    Stored(item.msg.id, Meta(item.msg.envelope, item.msg.createdAt), item.raw)
  }

  lemma HeadGone(rest: seq<Entry>)
    requires rest != [] && Distinct(Ids(rest))
    ensures Distinct(Ids(rest[1..])) && MapOf(rest[1..]) == MapOf(rest) - {Id(rest[0])}
    ensures Id(rest[0]) in MapOf(rest) && MapOf(rest)[Id(rest[0])] == rest[0]
  {
    var b := rest[1..];
    assert rest == [] + [rest[0]] + b && b == [] + b;
    MapLookup(rest, 0);
    MiddleDistinct([], rest[0], b);
    MapDrop([], rest[0], b);
  }

  /** One turn of the eviction loop, on the fields. */
  lemma EvictStep(order: seq<string>, items: map<string, Entry>, bytes: int, rest: seq<Entry>)
    requires Agree(order, items, bytes, rest) && Distinct(Ids(rest)) && rest != []
    ensures order[0] == Id(rest[0]) && order[0] in items && items[order[0]] == rest[0]
    ensures Agree(order[1..], items - {order[0]}, bytes - rest[0].size, rest[1..]) && Distinct(Ids(rest[1..]))
  {
    HeadGone(rest);
    assert Ids(rest[1..]) == Ids(rest)[1..];
    assert Sizes(rest)[1..] == Sizes(rest[1..]);
  }

  /** The loop's guard says that too few have gone. */
  lemma EvictMore(lim: Limits, dead: seq<Entry>, rest: seq<Entry>)
    requires !Fits(Sizes(rest), lim)
    ensures rest != [] && |dead| + 1 <= Evicted(dead + rest, lim)
    ensures dead + rest == dead + [rest[0]] + rest[1..]
    ensures Ids(dead + [rest[0]]) == Ids(dead) + [Id(rest[0])]
  {
    assert (dead + rest)[|dead|..] == rest;
    SizesSlice(dead + rest, |dead|);
    LongestSuffix(Sizes(dead + rest), |dead|, lim);
  }

  lemma EvictEnd(lim: Limits, dead: seq<Entry>, rest: seq<Entry>)
    requires |dead| <= Evicted(dead + rest, lim) && Fits(Sizes(rest), lim)
    ensures var k := Evicted(dead + rest, lim); (dead + rest)[..k] == dead && (dead + rest)[k..] == rest
  {
    assert (dead + rest)[|dead|..] == rest;
    SizesSlice(dead + rest, |dead|);
    LongestSuffix(Sizes(dead + rest), |dead|, lim);
  }

  class MemoryStore {
    const lim: Limits  // `max` and `maxBytes`
    var bytes: int
    var evicted: nat
    var last: nat  // `seq`
    var order: seq<string>
    var items: map<string, Entry>
    var disk: Directory?
    var published: seq<MailEvent>
    ghost var now: State      // the plain sequence
    ghost var ops: seq<Op>    // the operations so far

    ghost predicate Valid()
      reads this
    {
      Agree(order, items, bytes, now.entries) && last == now.last && Reached(lim, ops, now)
    }

    ghost predicate DiskValid()
      reads this, disk
    {
      disk != null ==> disk.Valid()
    }

    /** The events published so far are those of the operations so far. */
    ghost predicate Told()
      reads this
    {
      published == RunEvents(lim, EMPTY, ops)
    }

    /** A listener that replays the published events knows the arrival order. */
    lemma ListenerKnowsOrder()
      requires Valid() && Told()
      ensures Replay([], published) == order
    {
      ReplayRebuilds(lim, ops);
    }

    /** `New` and `WithMaxBytes` */
    constructor (max: int, maxBytes: int)
      ensures Told() && Valid() && now == EMPTY && ops == [] && published == [] && evicted == 0 && disk == null
      ensures lim == Limits(if max < 1 then 1 else max, maxBytes)
    {
      lim := Limits(if max < 1 then 1 else max, maxBytes);
      bytes, evicted, last := 0, 0, 0;
      order, items, published, now, ops := [], map[], [], EMPTY, [];
      disk := null;
    }

    /** `save`, with the lock held: insert, then evict. */
    method Insert(item: Item) returns (gone: seq<string>)
      requires Valid() && item.msg.id !in items
      modifies this`order, this`items, this`bytes, this`last, this`now, this`ops, this`evicted
      ensures Valid() && now == Apply(lim, old(now), Save(item)) && ops == old(ops) + [Save(item)]
      ensures gone == GoneIds(lim, old(now), item) && evicted == old(evicted) + |gone|
    {
      var order', items', bytes';
      order', items', bytes', gone := AddAndEvict(lim, order, items, bytes, last, item, ops, now);
      last, order, items, bytes, evicted, now, ops :=
        last + 1, order', items', bytes', evicted + |gone|, Apply(lim, now, Save(item)), ops + [Save(item)];
    }

    /** The directory's part of an operation. */
    method Mirror(item: Text.Option<Item>, gone: seq<string>)
      requires DiskValid()
      modifies disk
      ensures DiskValid()
      ensures disk != null ==> disk.log == old(disk.log) + DiskSteps(disk.codec, item, gone)
    {
      if disk != null {
        if item.Some? {
          disk.Write(StoredOf(item.value));
        }
        disk.Remove(gone);
      }
    }

    /** `save`: insert and mirror under the lock, publish after it. */
    method SaveItem(item: Item, persist: bool)
      requires Valid() && DiskValid() && item.msg.id !in items
      modifies this, disk
      ensures Valid() && disk == old(disk) && DiskValid()
      ensures now == Apply(lim, old(now), Save(item)) && ops == old(ops) + [Save(item)]
      ensures published == old(published) + Published(lim, old(now), Save(item)) && (old(Told()) ==> Told())
      ensures evicted == old(evicted) + |GoneIds(lim, old(now), item)|
      ensures disk != null ==>
                disk.log == old(disk.log) + DiskSteps(disk.codec, if persist then Text.Some(item) else Text.None,
                                                      GoneIds(lim, old(now), item))
    {
      EventsMore(lim, ops, now, Save(item));
      var gone := Insert(item);
      Mirror(if persist then Text.Some(item) else Text.None, gone);
      Announce(item, gone, old(now));
    }

    method Announce(item: Item, gone: seq<string>, ghost before: State)
      requires gone == GoneIds(lim, before, item)
      modifies this`published
      ensures published == old(published) + Published(lim, before, Save(item))
    {
      var events := PublishSaved(item, gone, lim, before);
      published := published + events;
    }

    /** `Delete` */
    method Delete(id: string) returns (ok: bool)
      requires Valid() && DiskValid()
      modifies this, disk
      ensures Valid() && disk == old(disk) && DiskValid()
      ensures ok == (id in old(items)) && now == Apply(lim, old(now), Remove(ById(id)))
      ensures ops == old(ops) + [Remove(ById(id))]
      ensures published == old(published) + Published(lim, old(now), Remove(ById(id))) && (old(Told()) ==> Told())
      ensures disk != null ==> disk.log == old(disk.log) + DiskSteps(disk.codec, Text.None, if ok then [id] else [])
    {
      EventsMore(lim, ops, now, Remove(ById(id)));
      ok := Cut(id);
      Mirror(Text.None, if ok then [id] else []);
      published := published + if ok then [Deleted(id)] else [];
    }

    method Cut(id: string) returns (ok: bool)
      requires Valid()
      modifies this`order, this`items, this`bytes, this`now, this`ops
      ensures Valid() && ok == (id in old(items)) == (id in Ids(old(now).entries))
      ensures now == Apply(lim, old(now), Remove(ById(id))) && ops == old(ops) + [Remove(ById(id))]
    {
      var order', items', bytes';
      order', items', bytes', ok := RemoveId(lim, id, order, items, bytes, ops, now);
      order, items, bytes, now, ops :=
        order', items', bytes', Apply(lim, now, Remove(ById(id))), ops + [Remove(ById(id))];
    }

    /** `DeleteMatching` */
    method DeleteMatching(f: Filter) returns (n: nat)
      requires Valid() && DiskValid()
      modifies this, disk
      ensures Valid() && disk == old(disk) && DiskValid()
      ensures now == Apply(lim, old(now), Remove(ByFilter(f))) && n == |Pick(old(now).entries, ByFilter(f), true)|
      ensures ops == old(ops) + [Remove(ByFilter(f))]
      ensures published == old(published) + Published(lim, old(now), Remove(ByFilter(f))) && (old(Told()) ==> Told())
      ensures disk != null ==>
                disk.log == old(disk.log)
                            + DiskSteps(disk.codec, Text.None, Ids(Pick(old(now).entries, ByFilter(f), true)))
    {
      EventsMore(lim, ops, now, Remove(ByFilter(f)));
      var removed := CutMatching(f);
      Mirror(Text.None, removed);
      var events := PublishRemoved(f, removed);
      published := published + events;
      n := |removed|;
    }

    method CutMatching(f: Filter) returns (removed: seq<string>)
      requires Valid()
      modifies this`order, this`items, this`bytes, this`now, this`ops
      ensures Valid() && removed == Ids(Pick(old(now).entries, ByFilter(f), true))
      ensures now == Apply(lim, old(now), Remove(ByFilter(f))) && ops == old(ops) + [Remove(ByFilter(f))]
    {
      var order', items', bytes';
      order', items', bytes', removed := RemoveMatching(lim, f, order, items, bytes, ops, now);
      order, items, bytes, now, ops :=
        order', items', bytes', Apply(lim, now, Remove(ByFilter(f))), ops + [Remove(ByFilter(f))];
    }

    /** `Page` */
    method Page(f: Filter, cursor: nat, limit: int) returns (p: PageResult)
      requires Valid()
      ensures var page := Paging.PageOf(now.entries, f, cursor, limit);
              p == PageResult(Messages(page.shown), page.next)
    {
      ReachedIsWellFormed(lim, ops, now);
      var end := |order|;
      if cursor > 0 {
        end := Search(order, items, cursor, now.entries);
      }
      p := Scan(order, items, f, end, limit, now.entries);
    }

    /** `Count` */
    method Count(f: Filter) returns (n: nat)
      requires Valid()
      ensures n == |Paging.PageOf(now.entries, f, 0, 0).shown|
    {
      ReachedIsWellFormed(lim, ops, now);
      assert now.entries[..|now.entries|] == now.entries;
      if IsZero(f) {
        ZeroFilterFindsAll(now.entries);
        return |order|;
      }
      n := CountMatches(f, order, items, now.entries);
    }

    /** `Latest` */
    method Latest(f: Filter) returns (m: Text.Option<Message>)
      requires Valid()
      ensures var list := Paging.PageOf(now.entries, f, 0, 0).shown;
              m == if list == [] then Text.None else Text.Some(list[0].item.msg)
    {
      ReachedIsWellFormed(lim, ops, now);
      assert now.entries[..|now.entries|] == now.entries;
      m := FindLatest(f, order, items, now.entries);
    }
  }

  /** What an operation does to the directory: a message written, then messages removed. */
  function DiskSteps(c: Codec, item: Text.Option<Item>, gone: seq<string>): seq<Step> {
    (if item.Some? then SaveSteps(c, StoredOf(item.value)) else []) + RemoveSteps(gone)
  }

  method AddAndEvict(lim: Limits, order: seq<string>, items: map<string, Entry>, bytes: int, last: nat, item: Item,
                     ghost ops: seq<Op>, ghost st: State)
    returns (order': seq<string>, items': map<string, Entry>, bytes': int, gone: seq<string>)
    requires Agree(order, items, bytes, st.entries) && last == st.last && Reached(lim, ops, st)
    requires item.msg.id !in items
    ensures Agree(order', items', bytes', Apply(lim, st, Save(item)).entries) && gone == GoneIds(lim, st, item)
    ensures Reached(lim, ops + [Save(item)], Apply(lim, st, Save(item)))
  {
    var e := Entry(item, SizeOf(item), last + 1);
    SaveReady(lim, ops, st, items, item);
    Arrives(order, items, bytes, st.entries, e);
    order', items', bytes', gone :=
      EvictOldest(lim, order + [item.msg.id], items[item.msg.id := e], bytes + e.size, Arrived(st, item));
  }

  method RemoveMatching(lim: Limits, f: Filter, order: seq<string>, items: map<string, Entry>, bytes: int,
                        ghost ops: seq<Op>, ghost st: State)
    returns (order': seq<string>, items': map<string, Entry>, bytes': int, removed: seq<string>)
    requires Agree(order, items, bytes, st.entries) && Reached(lim, ops, st)
    ensures Agree(order', items', bytes', Apply(lim, st, Remove(ByFilter(f))).entries)
    ensures removed == Ids(Pick(st.entries, ByFilter(f), true))
    ensures Reached(lim, ops + [Remove(ByFilter(f))], Apply(lim, st, Remove(ByFilter(f))))
  {
    ReachedIsWellFormed(lim, ops, st);
    ReachedMore(lim, ops, st, Remove(ByFilter(f)));
    if IsZero(f) {
      ZeroFilterLeavesNone(st.entries);
      removed, order', items', bytes' := order, [], map[], 0;
    } else {
      order', items', bytes', removed := DeleteFunc(f, order, items, bytes, st.entries);
    }
  }

  /** What a save publishes: its evictions, then itself. */
  method PublishSaved(item: Item, gone: seq<string>, ghost lim: Limits, ghost st: State)
    returns (events: seq<MailEvent>)
    requires gone == GoneIds(lim, st, item)
    ensures events == Published(lim, st, Save(item))
  {
    events := PublishGone(gone);
    events := events + [Created(item.msg.id)];
  }

  /** What a deletion by filter publishes. */
  method PublishRemoved(f: Filter, removed: seq<string>) returns (events: seq<MailEvent>)
    ensures events == if IsZero(f) then [Cleared] else Deletions(removed)
  {
    if IsZero(f) {
      return [Cleared];
    }
    events := PublishGone(removed);
  }

  /** The loop of `Latest`, from the newest entry down. */
  method FindLatest(f: Filter, order: seq<string>, items: map<string, Entry>, ghost entries: seq<Entry>)
    returns (m: Text.Option<Message>)
    requires order == Ids(entries) && items == MapOf(entries) && Distinct(order)
    ensures var list := Paging.Newest(entries, f);
            m == if list == [] then Text.None else Text.Some(list[0].item.msg)
  {
    var i := |order|;
    assert entries[..i] == entries;
    while i > 0
      invariant 0 <= i <= |order|
      invariant Paging.Newest(entries, f) == Paging.Newest(entries[..i], f)
    {
      i := i - 1;
      MapLookup(entries, i);
      NewestMore(entries, i, f);
      if Match(f, items[order[i]].item.msg) {
        return Text.Some(items[order[i]].item.msg);
      }
    }
    return Text.None;
  }

  method PublishGone(gone: seq<string>) returns (events: seq<MailEvent>)
    ensures events == Deletions(gone)
  {
    events := [];
    for i := 0 to |gone|
      invariant events == Deletions(gone)[..i]
    {
      events := events + [Deleted(gone[i])];
    }
  }

  method RemoveId(lim: Limits, id: string, order: seq<string>, items: map<string, Entry>, bytes: int,
                  ghost ops: seq<Op>, ghost st: State)
    returns (order': seq<string>, items': map<string, Entry>, bytes': int, ok: bool)
    requires Agree(order, items, bytes, st.entries) && Reached(lim, ops, st)
    ensures Agree(order', items', bytes', Apply(lim, st, Remove(ById(id))).entries)
    ensures ok == (id in items) == (id in Ids(st.entries))
    ensures Reached(lim, ops + [Remove(ById(id))], Apply(lim, st, Remove(ById(id))))
  {
    DeleteReady(lim, ops, st, order, items, bytes, id);
    order', items', bytes', ok := order, items, bytes, id in items;
    if ok {
      order', items', bytes' := WithoutId(order, id), items - {id}, bytes - items[id].size;
    }
  }

  lemma DeleteReady(
    lim: Limits, ops: seq<Op>, st: State, order: seq<string>, items: map<string, Entry>, bytes: int, id: string)
    requires Reached(lim, ops, st) && Agree(order, items, bytes, st.entries)
    ensures Reached(lim, ops + [Remove(ById(id))], Apply(lim, st, Remove(ById(id))))
    ensures id in items <==> id in Ids(st.entries)
    ensures id in items ==>
              Agree(WithoutId(order, id), items - {id}, bytes - items[id].size, Pick(st.entries, ById(id), false))
    ensures id !in items ==> Pick(st.entries, ById(id), false) == st.entries
  {
    ReachedIsWellFormed(lim, ops, st);
    ReachedMore(lim, ops, st, Remove(ById(id)));
    MapDomain(st.entries);
    MapRemoved(st.entries, id);
    PickByIdIsWithout(st.entries, id);
    if id in items {
      var i :| 0 <= i < |st.entries| && Ids(st.entries)[i] == id;
      MapLookup(st.entries, i);
      PickSizes(st.entries, st.entries[i]);
    } else {
      PickRest(st.entries, id);
    }
  }

  lemma {:induction false} PickRest(entries: seq<Entry>, id: string)
    requires id !in Ids(entries)
    ensures Pick(entries, ById(id), false) == entries
  {
    if entries != [] {
      var init, last := entries[..|entries| - 1], entries[|entries| - 1];
      assert Ids(entries) == Ids(init) + [Id(last)];
      PickRest(init, id);
    }
  }

  /** The deletion loop of `DeleteMatching`. */
  method DeleteFunc(f: Filter, order: seq<string>, items: map<string, Entry>, bytes: int, ghost entries: seq<Entry>)
    returns (order': seq<string>, items': map<string, Entry>, bytes': int, removed: seq<string>)
    requires Agree(order, items, bytes, entries) && Distinct(Ids(entries))
    ensures Agree(order', items', bytes', Pick(entries, ByFilter(f), false))
    ensures removed == Ids(Pick(entries, ByFilter(f), true))
  {
    order', items', bytes', removed := [], items, bytes, [];
    ghost var sel := ByFilter(f);
    ghost var kept: seq<Entry>, dropped: seq<Entry>, rest := [], [], entries;
    assert kept + rest == entries;
    for i := 0 to |order|
      invariant rest == entries[i..]
      invariant kept == Pick(entries[..i], sel, false) && dropped == Pick(entries[..i], sel, true)
      invariant order' == Ids(kept) && removed == Ids(dropped)
      invariant Midway(items', bytes', kept + rest)
    {
      var id := order[i];
      ghost var e := rest[0];
      PickNext(entries, i, sel);
      NextInRest(kept, rest);
      DeleteStep(items', bytes', kept, e, rest[1..]);
      if Match(f, items'[id].item.msg) {
        removed := removed + [id];
        bytes' := bytes' - items'[id].size;
        items' := items' - {id};
        IdsMore(dropped, e);
        dropped := dropped + [e];
      } else {
        order' := order' + [id];
        IdsMore(kept, e);
        kept := kept + [e];
      }
      rest := rest[1..];
    }
    assert entries[..|order|] == entries && kept + rest == kept;
  }

  lemma NextInRest(kept: seq<Entry>, rest: seq<Entry>)
    requires rest != []
    ensures kept + rest == kept + [rest[0]] + rest[1..]
  {
  }

  lemma IdsMore(entries: seq<Entry>, e: Entry)
    ensures Ids(entries + [e]) == Ids(entries) + [Id(e)]
  {
  }

  lemma PickNext(entries: seq<Entry>, i: nat, sel: Selector)
    requires i < |entries|
    ensures entries[i..] == [entries[i]] + entries[i + 1..]
    ensures Selected(sel, entries[i]) ==>
              && Pick(entries[..i + 1], sel, true) == Pick(entries[..i], sel, true) + [entries[i]]
              && Pick(entries[..i + 1], sel, false) == Pick(entries[..i], sel, false)
    ensures !Selected(sel, entries[i]) ==>
              && Pick(entries[..i + 1], sel, false) == Pick(entries[..i], sel, false) + [entries[i]]
              && Pick(entries[..i + 1], sel, true) == Pick(entries[..i], sel, true)
  {
    assert entries[..i + 1][..i] == entries[..i];
  }

  /** The map and the byte count while the order list is being rebuilt. */
  ghost predicate Midway(items: map<string, Entry>, bytes: int, entries: seq<Entry>) {
    Distinct(Ids(entries)) && items == MapOf(entries) && bytes == Total(Sizes(entries))
  }

  lemma DeleteStep(items: map<string, Entry>, bytes: int, kept: seq<Entry>, e: Entry, rest: seq<Entry>)
    requires Midway(items, bytes, kept + [e] + rest)
    ensures Id(e) in items && items[Id(e)] == e && Midway(items - {Id(e)}, bytes - e.size, kept + rest)
  {
    MapLookup(kept + [e] + rest, |kept|);
    MiddleDistinct(kept, e, rest);
    MapDrop(kept, e, rest);
    MiddleSizes(kept, e, rest);
  }

  lemma MiddleSizes(a: seq<Entry>, e: Entry, b: seq<Entry>)
    ensures Total(Sizes(a + [e] + b)) == Total(Sizes(a + b)) + e.size
  {
    assert Sizes(a + [e] + b) == Sizes(a) + [e.size] + Sizes(b);
    assert Sizes(a + b) == Sizes(a) + Sizes(b);
    TotalAppend(Sizes(a) + [e.size], Sizes(b));
    TotalAppend(Sizes(a), [e.size]);
    TotalAppend(Sizes(a), Sizes(b));
    assert [e.size][1..] == [];
  }

  /** `slices.BinarySearchFunc` over the arrival order. */
  method Search(order: seq<string>, items: map<string, Entry>, cursor: nat, ghost entries: seq<Entry>) returns (lo: nat)
    requires order == Ids(entries) && items == MapOf(entries) && Distinct(order) && Ascending(entries) && cursor > 0
    ensures lo == Paging.Upto(entries, cursor)
  {
    lo := 0;
    var hi := |order|;
    while lo < hi
      invariant 0 <= lo <= hi <= |order|
      invariant forall i | 0 <= i < lo :: entries[i].no < cursor
      invariant forall i | hi <= i < |entries| :: entries[i].no >= cursor
    {
      var mid := (lo + hi) / 2;
      MapLookup(entries, mid);
      if items[order[mid]].no < cursor {
        lo := mid + 1;
      } else {
        hi := mid;
      }
    }
    UptoIs(entries, cursor, lo);
  }

  lemma {:induction false} UptoIs(entries: seq<Entry>, cursor: nat, n: nat)
    requires n <= |entries| && cursor > 0
    requires forall i | 0 <= i < n :: entries[i].no < cursor
    requires forall i | n <= i < |entries| :: entries[i].no >= cursor
    ensures Paging.Upto(entries, cursor) == n
  {
    if n < |entries| {
      UptoIs(entries[..|entries| - 1], cursor, n);
    }
  }

  lemma NewestMore(entries: seq<Entry>, i: nat, f: Filter)
    requires i < |entries|
    ensures Paging.Newest(entries[..i + 1], f)
         == (if Match(f, entries[i].item.msg) then [entries[i]] else []) + Paging.Newest(entries[..i], f)
  {
    assert entries[..i + 1][..i] == entries[..i];
  }

  lemma {:induction false} ZeroFilterFindsAll(entries: seq<Entry>)
    ensures |Paging.Newest(entries, ZERO)| == |entries|
  {
    if entries != [] {
      ZeroFilterFindsAll(entries[..|entries| - 1]);
      ZeroFilterMatchesAll(entries[|entries| - 1].item.msg);
    }
  }

  method CountMatches(f: Filter, order: seq<string>, items: map<string, Entry>, ghost entries: seq<Entry>)
    returns (n: nat)
    requires order == Ids(entries) && items == MapOf(entries) && Distinct(order)
    ensures n == |Paging.Newest(entries, f)|
  {
    n := 0;
    for i := 0 to |order|
      invariant n == |Paging.Newest(entries[..i], f)|
    {
      MapLookup(entries, i);
      NewestMore(entries, i, f);
      if Match(f, items[order[i]].item.msg) {
        n := n + 1;
      }
    }
    assert entries[..|order|] == entries;
  }

  /** The page loop, from the newest entry before `end` down. */
  method Scan(order: seq<string>, items: map<string, Entry>, f: Filter, end: nat, limit: int, ghost entries: seq<Entry>)
    returns (p: PageResult)
    requires order == Ids(entries) && items == MapOf(entries) && Distinct(order) && end <= |order|
    ensures var found := Paging.Newest(entries[..end], f);
            p == if 0 < limit < |found| then PageResult(Messages(found[..limit]), found[limit - 1].no)
                 else PageResult(Messages(found), 0)
  {
    var messages: seq<Message> := [];
    var last := 0;
    ghost var shown: seq<Entry>, more := [], Paging.Newest(entries[..end], f);
    ghost var found := more;
    assert found == shown + more;
    var i := end;
    while i > 0
      invariant 0 <= i <= end
      invariant more == Paging.Newest(entries[..i], f) && found == shown + more && messages == Messages(shown)
      invariant shown != [] ==> last == shown[|shown| - 1].no
      invariant limit > 0 ==> |shown| <= limit
    {
      i := i - 1;
      MapLookup(entries, i);
      NewestMore(entries, i, f);
      var e := items[order[i]];
      if Match(f, e.item.msg) {
        if limit > 0 && |messages| == limit {
          PageCut(found, shown, more);
          return PageResult(messages, last);
        }
        PageGrow(found, shown, e, more);
        MessagesMore(shown, e);
        messages := messages + [e.item.msg];
        last := e.no;
        shown, more := shown + [e], more[1..];
      }
    }
    assert found == shown;
    p := PageResult(messages, 0);
  }

  lemma PageCut(found: seq<Entry>, shown: seq<Entry>, more: seq<Entry>)
    requires found == shown + more && more != [] && shown != []
    ensures |shown| < |found| && found[..|shown|] == shown && found[|shown| - 1] == shown[|shown| - 1]
  {
  }

  lemma PageGrow(found: seq<Entry>, shown: seq<Entry>, e: Entry, more: seq<Entry>)
    requires found == shown + more && more != [] && more[0] == e
    ensures found == shown + [e] + more[1..]
  {
  }

  lemma MessagesMore(shown: seq<Entry>, e: Entry)
    ensures Messages(shown + [e]) == Messages(shown) + [e.item.msg]
  {
  }

  /** The eviction loop of `save`: the oldest go while a limit is exceeded. */
  method EvictOldest(lim: Limits, order: seq<string>, items: map<string, Entry>, bytes: int, ghost all: seq<Entry>)
    returns (order': seq<string>, items': map<string, Entry>, bytes': int, gone: seq<string>)
    requires Agree(order, items, bytes, all) && Distinct(Ids(all))
    ensures gone == Ids(all[..Evicted(all, lim)]) && Agree(order', items', bytes', all[Evicted(all, lim)..])
  {
    order', items', bytes', gone := order, items, bytes, [];
    ghost var dead: seq<Entry>, rest := [], all;
    while |order'| > lim.max || (lim.maxBytes > 0 && bytes' > lim.maxBytes && |order'| > 1)
      invariant all == dead + rest && |dead| <= Evicted(all, lim)
      invariant Agree(order', items', bytes', rest) && Distinct(Ids(rest)) && gone == Ids(dead)
      decreases |order'|
    {
      EvictMore(lim, dead, rest);
      EvictStep(order', items', bytes', rest);
      var oldest := order'[0];
      gone := gone + [oldest];
      bytes' := bytes' - items'[oldest].size;
      items' := items' - {oldest};
      order' := order'[1..];
      dead, rest := dead + [rest[0]], rest[1..];
    }
    EvictEnd(lim, dead, rest);
  }
}
