/**
 * The store as a plain sequence of entries, oldest first: what every
 * operation does to it, what it publishes, and what holds in every run.
 */
module StoreSpec {
  import opened Bytes
  import opened Mail
  import opened Filters
  import opened Retention
  import opened Events

  datatype Item = Item(msg: Message, raw: seq<byte>)

  function SizeOf(item: Item): nat {
    |item.raw| + |item.msg.text| + |item.msg.html| + Total(item.msg.attachments)
  }

  datatype Entry = Entry(item: Item, size: nat, no: nat)  // `no` is the arrival number, `seq` in the program

  function Id(e: Entry): string { e.item.msg.id }

  function Ids(entries: seq<Entry>): seq<string> {
    seq(|entries|, i requires 0 <= i < |entries| => Id(entries[i]))
  }

  function Sizes(entries: seq<Entry>): seq<nat> {
    seq(|entries|, i requires 0 <= i < |entries| => entries[i].size)
  }

  datatype State = State(entries: seq<Entry>, last: nat)

  const EMPTY := State([], 0)

  predicate Ascending(entries: seq<Entry>) {
    forall i, j | 0 <= i < j < |entries| :: entries[i].no < entries[j].no
  }

  predicate Distinct(ids: seq<string>) {
    forall i, j | 0 <= i < j < |ids| :: ids[i] != ids[j]
  }

  /** Holds in every reachable state: arrival order, fresh ids, honest sizes and both limits. */
  predicate WellFormed(st: State, lim: Limits) {
    && Ascending(st.entries)
    && Distinct(Ids(st.entries))
    && (forall e <- st.entries :: 1 <= e.no <= st.last && e.size == SizeOf(e.item))
    && Fits(Sizes(st.entries), lim)
  }

  // ----- operations -----

  datatype Selector = ById(id: string) | ByFilter(filter: Filter)

  predicate Selected(sel: Selector, e: Entry) {
    match sel
    case ById(id) => Id(e) == id
    case ByFilter(f) => Match(f, e.item.msg)
  }

  /** The entries that `sel` selects (or leaves), in order. */
  function Pick(entries: seq<Entry>, sel: Selector, want: bool): seq<Entry> {
    if entries == [] then []
    else
      var last := entries[|entries| - 1];
      Pick(entries[..|entries| - 1], sel, want) + if Selected(sel, last) == want then [last] else []
  }

  datatype Op = Save(item: Item) | Remove(sel: Selector)

  /** Ids are random; what matters is that a new one is not in the store. */
  predicate Legal(st: State, op: Op) {
    op.Save? ==> op.item.msg.id !in Ids(st.entries)
  }

  function Arrived(st: State, item: Item): seq<Entry> {
    st.entries + [Entry(item, SizeOf(item), st.last + 1)]
  }

  function Evicted(all: seq<Entry>, lim: Limits): (k: nat)
    ensures k <= |all|
  {
    Dropped(Sizes(all), lim)
  }

  function Apply(lim: Limits, st: State, op: Op): State {
    match op
    case Save(item) =>
      var all := Arrived(st, item);
      State(all[Evicted(all, lim)..], st.last + 1)
    case Remove(sel) => State(Pick(st.entries, sel, false), st.last)
  }

  // ----- events and their replay -----

  function Published(lim: Limits, st: State, op: Op): seq<MailEvent> {
    match op
    case Save(item) =>
      var all := Arrived(st, item);
      Deletions(Ids(all[..Evicted(all, lim)])) + [Created(item.msg.id)]
    case Remove(ById(id)) => if id in Ids(st.entries) then [Deleted(id)] else []
    case Remove(ByFilter(f)) => if IsZero(f) then [Cleared] else Deletions(Ids(Pick(st.entries, op.sel, true)))
  }

  function WithoutId(ids: seq<string>, id: string): seq<string> {
    if ids == [] then []
    else
      var last := ids[|ids| - 1];
      WithoutId(ids[..|ids| - 1], id) + if last == id then [] else [last]
  }

  function Hear(ids: seq<string>, e: MailEvent): seq<string> {
    match e
    case Created(id) => ids + [id]
    case Deleted(id) => WithoutId(ids, id)
    case Cleared => []
  }

  /** What a listener that only sees events knows about the arrival order. */
  function Replay(ids: seq<string>, events: seq<MailEvent>): seq<string> {
    if events == [] then ids
    else Hear(Replay(ids, events[..|events| - 1]), events[|events| - 1])
  }

  // ----- facts about Pick -----

  lemma {:induction false} PickMembers(entries: seq<Entry>, sel: Selector, want: bool)
    ensures forall e :: e in Pick(entries, sel, want) <==> e in entries && Selected(sel, e) == want
  {
    if entries != [] {
      var init, last := entries[..|entries| - 1], entries[|entries| - 1];
      PickMembers(init, sel, want);
      assert entries == init + [last];
    }
  }

  lemma {:induction false} PickAscending(entries: seq<Entry>, sel: Selector, want: bool)
    requires Ascending(entries) && Distinct(Ids(entries))
    ensures Ascending(Pick(entries, sel, want)) && Distinct(Ids(Pick(entries, sel, want)))
  {
    if entries != [] {
      var init, last := entries[..|entries| - 1], entries[|entries| - 1];
      InitDistinct(entries);
      PickAscending(init, sel, want);
      PickMembers(init, sel, want);
      var p := Pick(init, sel, want);
      forall e | e in p ensures e.no < last.no && Id(e) != Id(last) {
        var i :| 0 <= i < |init| && init[i] == e;
        assert Ids(entries)[i] == Id(e) && Ids(entries)[|entries| - 1] == Id(last);
      }
      AppendAscending(p, last);
      assert p + [] == p;
    }
  }

  lemma InitDistinct(entries: seq<Entry>)
    requires entries != [] && Ascending(entries) && Distinct(Ids(entries))
    ensures Ascending(entries[..|entries| - 1]) && Distinct(Ids(entries[..|entries| - 1]))
  {
    assert Ids(entries[..|entries| - 1]) == Ids(entries)[..|entries| - 1];
  }

  lemma TailDistinct(entries: seq<Entry>, k: nat)
    requires k <= |entries| && Ascending(entries) && Distinct(Ids(entries))
    ensures Ascending(entries[k..]) && Distinct(Ids(entries[k..]))
  {
    assert Ids(entries[k..]) == Ids(entries)[k..];
  }

  lemma AppendAscending(p: seq<Entry>, last: Entry)
    requires Ascending(p) && Distinct(Ids(p))
    requires forall e <- p :: e.no < last.no && Id(e) != Id(last)
    ensures Ascending(p + [last]) && Distinct(Ids(p + [last]))
  {
    assert Ids(p + [last]) == Ids(p) + [Id(last)];
    forall i | 0 <= i < |p| ensures Ids(p)[i] != Id(last) && p[i].no < last.no {
      assert p[i] in p;
    }
  }

  lemma {:induction false} PickCounts(entries: seq<Entry>, sel: Selector)
    ensures |Pick(entries, sel, true)| + |Pick(entries, sel, false)| == |entries|
    ensures Total(Sizes(Pick(entries, sel, true))) + Total(Sizes(Pick(entries, sel, false))) == Total(Sizes(entries))
  {
    if entries != [] {
      var init, last := entries[..|entries| - 1], entries[|entries| - 1];
      PickCounts(init, sel);
      SizesAppend(init, last);
      assert init + [last] == entries;
      SizesAppend(Pick(init, sel, Selected(sel, last)), last);
      var other := Pick(init, sel, !Selected(sel, last));
      assert other + [] == other;
    }
  }

  lemma SizesAppend(p: seq<Entry>, last: Entry)
    ensures Total(Sizes(p + [last])) == Total(Sizes(p)) + last.size
  {
    assert Sizes(p + [last]) == Sizes(p) + [last.size];
    TotalAppend(Sizes(p), [last.size]);
  }

  lemma SizesSlice(all: seq<Entry>, k: nat)
    requires k <= |all|
    ensures Sizes(all[k..]) == Sizes(all)[k..] && Sizes(all[..k]) == Sizes(all)[..k]
    ensures Ids(all[k..]) == Ids(all)[k..] && Ids(all[..k]) == Ids(all)[..k]
  {
  }

  // ----- every operation keeps the invariant -----

  lemma ArrivedKeeps(st: State, item: Item)
    requires Ascending(st.entries) && Distinct(Ids(st.entries)) && Legal(st, Save(item))
    requires forall e <- st.entries :: e.no <= st.last
    ensures Ascending(Arrived(st, item)) && Distinct(Ids(Arrived(st, item)))
  {
    var e := Entry(item, SizeOf(item), st.last + 1);
    forall x | x in st.entries ensures x.no < e.no && Id(x) != Id(e) {
      var i :| 0 <= i < |st.entries| && st.entries[i] == x;
      assert Ids(st.entries)[i] == Id(x);
    }
    AppendAscending(st.entries, e);
  }

  lemma SaveKeeps(lim: Limits, st: State, item: Item)
    requires WellFormed(st, lim) && Legal(st, Save(item))
    ensures WellFormed(Apply(lim, st, Save(item)), lim)
  {
    ArrivedKeeps(st, item);
    var all := Arrived(st, item);
    var k := Evicted(all, lim);
    TailDistinct(all, k);
    assert Fits(Sizes(all[k..]), lim) by {
      SizesSlice(all, k);
    }
    forall x | x in all[k..] ensures 1 <= x.no <= st.last + 1 && x.size == SizeOf(x.item) {
      assert x in all;
    }
  }

  lemma RemoveKeeps(lim: Limits, st: State, sel: Selector)
    requires WellFormed(st, lim)
    ensures WellFormed(Apply(lim, st, Remove(sel)), lim)
  {
    PickMembers(st.entries, sel, false);
    PickAscending(st.entries, sel, false);
    PickCounts(st.entries, sel);
  }

  lemma ApplyKeeps(lim: Limits, st: State, op: Op)
    requires WellFormed(st, lim) && Legal(st, op)
    ensures WellFormed(Apply(lim, st, op), lim)
  {
    match op
    case Save(item) => SaveKeeps(lim, st, item);
    case Remove(sel) => RemoveKeeps(lim, st, sel);
  }

  /**
   * Between a state and a later one, entries may go and only newer ones may
   * come: the fact behind paging over a changing store.
   */
  ghost predicate Later(st: State, st': State) {
    && st.last <= st'.last
    && forall e <- st'.entries :: e in st.entries || e.no > st.last
  }

  lemma ApplyIsLater(lim: Limits, st: State, op: Op)
    ensures Later(st, Apply(lim, st, op))
  {
    match op {
      case Save(item) =>
      case Remove(sel) => PickMembers(st.entries, sel, false);
    }
  }

  lemma LaterTransitive(a: State, b: State, c: State)
    requires Later(a, b) && Later(b, c)
    ensures Later(a, c)
  {
  }

  // ----- runs -----

  function Run(lim: Limits, st: State, ops: seq<Op>): State {
    if ops == [] then st else Apply(lim, Run(lim, st, ops[..|ops| - 1]), ops[|ops| - 1])
  }

  ghost predicate LegalRun(lim: Limits, st: State, ops: seq<Op>) {
    ops != [] ==> LegalRun(lim, st, ops[..|ops| - 1]) && Legal(Run(lim, st, ops[..|ops| - 1]), ops[|ops| - 1])
  }

  lemma {:induction false} RunKeeps(lim: Limits, st: State, ops: seq<Op>)
    requires WellFormed(st, lim) && LegalRun(lim, st, ops)
    ensures WellFormed(Run(lim, st, ops), lim) && Later(st, Run(lim, st, ops))
  {
    if ops != [] {
      var before := Run(lim, st, ops[..|ops| - 1]);
      RunKeeps(lim, st, ops[..|ops| - 1]);
      ApplyKeeps(lim, before, ops[|ops| - 1]);
      ApplyIsLater(lim, before, ops[|ops| - 1]);
    }
  }

  datatype Tally = Tally(saved: nat, evicted: nat, deleted: nat)

  function Count(lim: Limits, st: State, ops: seq<Op>): Tally {
    if ops == [] then Tally(0, 0, 0)
    else
      var t := Count(lim, st, ops[..|ops| - 1]);
      var before := Run(lim, st, ops[..|ops| - 1]);
      match ops[|ops| - 1]
      case Save(item) => t.(saved := t.saved + 1, evicted := t.evicted + Evicted(Arrived(before, item), lim))
      case Remove(sel) => t.(deleted := t.deleted + |Pick(before.entries, sel, true)|)
  }

  /** Every message ever saved is still there, was evicted or was deleted. */
  lemma {:induction false} SavesAreAccounted(lim: Limits, ops: seq<Op>)
    ensures var t := Count(lim, EMPTY, ops);
            t.saved == |Run(lim, EMPTY, ops).entries| + t.evicted + t.deleted && t.saved == Run(lim, EMPTY, ops).last
  {
    if ops != [] {
      SavesAreAccounted(lim, ops[..|ops| - 1]);
      var op := ops[|ops| - 1];
      if op.Remove? {
        PickCounts(Run(lim, EMPTY, ops[..|ops| - 1]).entries, op.sel);
      }
    }
  }

  // ----- saving a whole list -----

  function SaveAll(lim: Limits, st: State, items: seq<Item>): State {
    if items == [] then st else Apply(lim, SaveAll(lim, st, items[..|items| - 1]), Save(items[|items| - 1]))
  }

  function ArrivedAll(st: State, items: seq<Item>): seq<Entry> {
    if items == [] then st.entries
    else
      var item := items[|items| - 1];
      ArrivedAll(st, items[..|items| - 1]) + [Entry(item, SizeOf(item), st.last + |items|)]
  }

  /**
   * Folding saves over a list keeps exactly the newest that fit, as if the
   * limits had been applied once at the end.
   */
  lemma {:induction false} SaveAllKeepsNewest(lim: Limits, st: State, items: seq<Item>)
    requires Fits(Sizes(st.entries), lim)
    ensures var all := ArrivedAll(st, items);
            SaveAll(lim, st, items) == State(all[Evicted(all, lim)..], st.last + |items|)
  {
    if items != [] {
      var init, item := items[..|items| - 1], items[|items| - 1];
      SaveAllKeepsNewest(lim, st, init);
      SaveOnTop(lim, ArrivedAll(st, init), st.last + |init|, item, ArrivedAll(st, items));
    } else {
      KeepAll(lim, st.entries);
    }
  }

  lemma KeepAll(lim: Limits, entries: seq<Entry>)
    requires Fits(Sizes(entries), lim)
    ensures entries[Evicted(entries, lim)..] == entries
  {
  }

  lemma SaveOnTop(lim: Limits, prior: seq<Entry>, last: nat, item: Item, all: seq<Entry>)
    requires all == prior + [Entry(item, SizeOf(item), last + 1)]
    ensures Apply(lim, State(prior[Evicted(prior, lim)..], last), Save(item))
         == State(all[Evicted(all, lim)..], last + 1)
  {
    EvictAgain(lim, prior, Entry(item, SizeOf(item), last + 1));
  }

  lemma EvictAgain(lim: Limits, prior: seq<Entry>, e: Entry)
    ensures var kept := prior[Evicted(prior, lim)..] + [e];
            kept[Evicted(kept, lim)..] == (prior + [e])[Evicted(prior + [e], lim)..]
    ensures Evicted(prior, lim) + Evicted(prior[Evicted(prior, lim)..] + [e], lim) == Evicted(prior + [e], lim)
  {
    var k := Evicted(prior, lim);
    PathIndependent(Sizes(prior), [e.size], lim);
    TailSizes(prior, k, e);
    TailSizes(prior, 0, e);
  }

  lemma TailSizes(prior: seq<Entry>, k: nat, e: Entry)
    requires k <= |prior|
    ensures prior[k..] + [e] == (prior + [e])[k..]
    ensures Sizes(prior[k..] + [e]) == Sizes(prior)[k..] + [e.size]
    ensures Sizes(prior + [e]) == Sizes(prior) + [e.size]
  {
  }

  // ----- replaying the events -----

  lemma {:induction false} ReplayAppend(ids: seq<string>, a: seq<MailEvent>, b: seq<MailEvent>)
    ensures Replay(ids, a + b) == Replay(Replay(ids, a), b)
  {
    if b == [] {
      assert a + b == a;
    } else {
      ReplayAppend(ids, a, b[..|b| - 1]);
      assert (a + b)[..|a + b| - 1] == a + b[..|b| - 1];
    }
  }

  lemma {:induction false} WithoutAbsent(ids: seq<string>, id: string)
    requires id !in ids
    ensures WithoutId(ids, id) == ids
  {
    if ids != [] {
      WithoutAbsent(ids[..|ids| - 1], id);
    }
  }

  lemma {:induction false} WithoutFirst(id: string, rest: seq<string>)
    requires id !in rest
    ensures WithoutId([id] + rest, id) == rest
  {
    var ids := [id] + rest;
    if rest == [] {
      assert ids == [id] && ids[..0] == [];
    } else {
      WithoutFirst(id, rest[..|rest| - 1]);
      assert ids[..|ids| - 1] == [id] + rest[..|rest| - 1];
    }
  }

  /** Deleting the first k ids, oldest first, leaves the others. */
  lemma {:induction false} ReplayEvictions(ids: seq<string>, k: nat)
    requires k <= |ids| && Distinct(ids)
    ensures Replay(ids, Deletions(ids[..k])) == ids[k..]
  {
    if k > 0 {
      ReplayEvictions(ids, k - 1);
      var d := Deletions(ids[..k]);
      assert d[..k - 1] == Deletions(ids[..k - 1]);
      assert ids[k - 1..] == [ids[k - 1]] + ids[k..];
      WithoutFirst(ids[k - 1], ids[k..]);
    } else {
      assert ids[0..] == ids;
    }
  }

  lemma {:induction false} PickByIdIsWithout(entries: seq<Entry>, id: string)
    ensures Ids(Pick(entries, ById(id), false)) == WithoutId(Ids(entries), id)
  {
    if entries != [] {
      var init, last := entries[..|entries| - 1], entries[|entries| - 1];
      PickByIdIsWithout(init, id);
      assert Ids(entries)[..|entries| - 1] == Ids(init);
      var p := Pick(init, ById(id), false);
      assert Ids(p + [last]) == Ids(p) + [Id(last)];
      assert p + [] == p;
    }
  }

  lemma {:induction false} WithoutAppend(a: seq<string>, last: string, id: string)
    ensures WithoutId(a + [last], id) == WithoutId(a, id) + if last == id then [] else [last]
  {
    assert (a + [last])[..|a|] == a;
  }

  lemma {:induction false} ReplayDeletionsAppend(ids: seq<string>, last: string, gone: seq<string>)
    requires last !in gone
    ensures Replay(ids + [last], Deletions(gone)) == Replay(ids, Deletions(gone)) + [last]
  {
    if gone != [] {
      var init, id := gone[..|gone| - 1], gone[|gone| - 1];
      ReplayDeletionsAppend(ids, last, init);
      assert Deletions(gone)[..|gone| - 1] == Deletions(init);
      WithoutAppend(Replay(ids, Deletions(init)), last, id);
    }
  }

  /** Deleting the selected ids one by one leaves the ids of the others. */
  lemma {:induction false} ReplaySelected(entries: seq<Entry>, sel: Selector)
    requires Ascending(entries) && Distinct(Ids(entries))
    ensures Replay(Ids(entries), Deletions(Ids(Pick(entries, sel, true)))) == Ids(Pick(entries, sel, false))
  {
    if entries != [] {
      var init, last := entries[..|entries| - 1], entries[|entries| - 1];
      InitDistinct(entries);
      ReplaySelected(init, sel);
      ReplaySelectedStep(init, last, sel) by {
        assert entries == init + [last];
        assert Ids(entries) == Ids(init) + [Id(last)];
        forall e | e in init ensures Id(e) != Id(last) {
          var i :| 0 <= i < |init| && init[i] == e;
          assert Ids(entries)[i] == Id(e) && Ids(entries)[|init|] == Id(last);
        }
      }
      assert Ids(entries) == Ids(init) + [Id(last)];
    }
  }

  lemma PickLacks(entries: seq<Entry>, sel: Selector, want: bool, id: string)
    requires forall e <- entries :: Id(e) != id
    ensures id !in Ids(Pick(entries, sel, want))
  {
    var p := Pick(entries, sel, want);
    PickMembers(entries, sel, want);
    forall i | 0 <= i < |p| ensures Ids(p)[i] != id {
      assert p[i] in p;
    }
  }

  lemma ReplaySelectedStep(init: seq<Entry>, last: Entry, sel: Selector)
    requires forall e <- init :: Id(e) != Id(last)
    requires Replay(Ids(init), Deletions(Ids(Pick(init, sel, true)))) == Ids(Pick(init, sel, false))
    ensures var gone := Pick(init, sel, true) + if Selected(sel, last) then [last] else [];
            var left := Pick(init, sel, false) + if Selected(sel, last) then [] else [last];
            Replay(Ids(init) + [Id(last)], Deletions(Ids(gone))) == Ids(left)
  {
    var gone, left := Pick(init, sel, true), Pick(init, sel, false);
    PickLacks(init, sel, true, Id(last));
    PickLacks(init, sel, false, Id(last));
    ReplayDeletionsAppend(Ids(init), Id(last), Ids(gone));
    if Selected(sel, last) {
      DeleteNewest(Ids(init) + [Id(last)], Ids(gone), Ids(left), Id(last));
      assert Ids(gone + [last]) == Ids(gone) + [Id(last)];
      assert left + [] == left;
    } else {
      assert Ids(left + [last]) == Ids(left) + [Id(last)];
      assert gone + [] == gone;
    }
  }

  lemma DeleteNewest(ids: seq<string>, gone: seq<string>, left: seq<string>, id: string)
    requires Replay(ids, Deletions(gone)) == left + [id] && id !in left
    ensures Replay(ids, Deletions(gone + [id])) == left
  {
    var d := Deletions(gone + [id]);
    assert d[..|gone|] == Deletions(gone);
    WithoutAppend(left, id, id);
    WithoutAbsent(left, id);
  }

  lemma ReplaySave(lim: Limits, st: State, item: Item)
    requires WellFormed(st, lim) && Legal(st, Save(item))
    ensures Replay(Ids(st.entries), Published(lim, st, Save(item))) == Ids(Apply(lim, st, Save(item)).entries)
  {
    var all := Arrived(st, item);
    var k := Evicted(all, lim);
    NewestSurvives(Sizes(all), lim);
    var ids := Ids(st.entries);
    assert Ids(all) == ids + [item.msg.id];
    SizesSlice(all, k);
    assert Ids(all[..k]) == ids[..k];
    var d := Deletions(ids[..k]);
    ReplayEvictions(ids, k);
    ReplayAppend(ids, d, [Created(item.msg.id)]);
    ReplayOne(ids[k..], Created(item.msg.id));
  }

  lemma ZeroFilterMatchesAll(m: Message)
    ensures Match(ZERO, m)
  {
  }

  /** The zero filter leaves nothing: clearing needs no look at the messages. */
  lemma {:induction false} ZeroFilterLeavesNone(entries: seq<Entry>)
    ensures Pick(entries, ByFilter(ZERO), false) == [] && Pick(entries, ByFilter(ZERO), true) == entries
  {
    if entries != [] {
      ZeroFilterLeavesNone(entries[..|entries| - 1]);
      ZeroFilterMatchesAll(entries[|entries| - 1].item.msg);
    }
  }

  lemma ReplayOne(ids: seq<string>, e: MailEvent)
    ensures Replay(ids, [e]) == Hear(ids, e)
  {
    assert [e][..0] == [];
  }

  lemma ReplayRemove(lim: Limits, st: State, sel: Selector)
    requires WellFormed(st, lim)
    ensures Replay(Ids(st.entries), Published(lim, st, Remove(sel))) == Ids(Apply(lim, st, Remove(sel)).entries)
  {
    var ids := Ids(st.entries);
    match sel {
      case ById(id) =>
        PickByIdIsWithout(st.entries, id);
        ReplayOne(ids, Deleted(id));
        if id !in ids {
          WithoutAbsent(ids, id);
        }
      case ByFilter(f) =>
        if f == ZERO {
          ZeroFilterLeavesNone(st.entries);
          ReplayOne(ids, Cleared);
        } else {
          ReplaySelected(st.entries, sel);
        }
    }
  }

  function RunEvents(lim: Limits, st: State, ops: seq<Op>): seq<MailEvent> {
    if ops == [] then []
    else
      var before := Run(lim, st, ops[..|ops| - 1]);
      RunEvents(lim, st, ops[..|ops| - 1]) + Published(lim, before, ops[|ops| - 1])
  }

  /** For every sequential run, the published events rebuild the arrival order. */
  lemma {:induction false} ReplayRebuilds(lim: Limits, ops: seq<Op>)
    requires LegalRun(lim, EMPTY, ops)
    ensures Replay([], RunEvents(lim, EMPTY, ops)) == Ids(Run(lim, EMPTY, ops).entries)
  {
    if ops != [] {
      var init, op := ops[..|ops| - 1], ops[|ops| - 1];
      ReplayRebuilds(lim, init);
      RunKeeps(lim, EMPTY, init);
      var before := Run(lim, EMPTY, init);
      ReplayAppend([], RunEvents(lim, EMPTY, init), Published(lim, before, op));
      match op {
        case Save(item) => ReplaySave(lim, before, item);
        case Remove(sel) => ReplayRemove(lim, before, sel);
      }
    }
  }

  // ----- what the operations do, one by one -----

  /** Every byte of the mail, of its decoded texts and of its attachments counts once. */
  lemma SizeGrows(item: Item, b: byte, c: char, n: nat)
    ensures var m := item.msg;
            && SizeOf(item.(raw := item.raw + [b])) == SizeOf(item) + 1
            && SizeOf(item.(msg := m.(text := m.text + [c]))) == SizeOf(item) + 1
            && SizeOf(item.(msg := m.(html := m.html + [c]))) == SizeOf(item) + 1
            && SizeOf(item.(msg := m.(attachments := m.attachments + [n]))) == SizeOf(item) + n
    ensures item.raw == [] && item.msg.text == "" && item.msg.html == "" && item.msg.attachments == [] ==>
              SizeOf(item) == 0
  {
    TotalCounts(item.msg.attachments, n);
  }

  /** A save puts the message last and takes away oldest ones only; it is announced behind their deletions. */
  lemma SaveDoes(lim: Limits, st: State, item: Item)
    ensures var (after, k) := (Apply(lim, st, Save(item)).entries, Evicted(Arrived(st, item), lim));
            && k <= |st.entries| && after != [] && after[..|after| - 1] == st.entries[k..]
            && after[|after| - 1] == Entry(item, SizeOf(item), st.last + 1)
            && Told(Published(lim, st, Save(item)), st.entries[..k], [Created(item.msg.id)])
  {
    var all := Arrived(st, item);
    NewestSurvives(Sizes(all), lim);
    var k := Evicted(all, lim);
    assert all[k..] == st.entries[k..] + [all[|all| - 1]] && all[..k] == st.entries[..k];
  }

  /** One deletion for each of `gone`, in order, and then the `others`. */
  ghost predicate Told(events: seq<MailEvent>, gone: seq<Entry>, others: seq<MailEvent>) {
    && |events| == |gone| + |others| && events[|gone|..] == others
    && forall i | 0 <= i < |gone| :: events[i] == Deleted(gone[i].item.msg.id)
  }

  /** A deletion by id takes just the entry with this id, and says so if there was one. */
  lemma DeleteDoes(lim: Limits, st: State, id: string)
    ensures var op := Remove(ById(id));
            && (forall e :: e in Apply(lim, st, op).entries <==> e in st.entries && e.item.msg.id != id)
            && Published(lim, st, op) == if (exists e <- st.entries :: e.item.msg.id == id) then [Deleted(id)] else []
  {
    PickMembers(st.entries, ById(id), false);
    if e :| e in st.entries && e.item.msg.id == id {
      var i :| 0 <= i < |st.entries| && st.entries[i] == e;
      assert Ids(st.entries)[i] == id;
    }
    if id in Ids(st.entries) {
      var i :| 0 <= i < |st.entries| && Ids(st.entries)[i] == id;
      assert st.entries[i] in st.entries;
    }
  }

  /**
   * A deletion by filter takes just what matches and tells of each, in
   * arrival order; with nothing asked for, it takes all and says that once.
   */
  lemma DeleteMatchingDoes(lim: Limits, st: State, f: Filter)
    ensures var (op, gone) := (Remove(ByFilter(f)), Pick(st.entries, ByFilter(f), true));
            && (forall e :: e in Apply(lim, st, op).entries <==> e in st.entries && !Match(f, e.item.msg))
            && (forall e :: e in gone <==> e in st.entries && Match(f, e.item.msg))
            && if f == Filter("", "", "", "", "", "", 0) then Published(lim, st, op) == [Cleared]
               else Told(Published(lim, st, op), gone, [])
  {
    PickMembers(st.entries, ByFilter(f), false);
    PickMembers(st.entries, ByFilter(f), true);
  }
}
