/** Listing, newest first, in pages linked by cursors. */
module Paging {
  import opened Filters
  import opened Retention
  import opened StoreSpec

  /** The matching entries, newest first. */
  function Newest(entries: seq<Entry>, f: Filter): seq<Entry> {
    if entries == [] then []
    else
      var last := entries[|entries| - 1];
      (if Match(f, last.item.msg) then [last] else []) + Newest(entries[..|entries| - 1], f)
  }

  /** How many entries come before the cursor; 0 is no cursor. */
  function Upto(entries: seq<Entry>, cursor: nat): (n: nat)
    ensures n <= |entries|
  {
    if cursor == 0 || entries == [] || entries[|entries| - 1].no < cursor then |entries|
    else Upto(entries[..|entries| - 1], cursor)
  }

  datatype Page = Page(shown: seq<Entry>, next: nat)

  /** A limit not above zero means no limit; `next` 0 means there is no further page. */
  function PageOf(entries: seq<Entry>, f: Filter, cursor: nat, limit: int): Page {
    var found := Newest(entries[..Upto(entries, cursor)], f);
    if 0 < limit < |found| then Page(found[..limit], found[limit - 1].no) else Page(found, 0)
  }

  ghost predicate Descending(s: seq<Entry>) {
    forall i, j | 0 <= i < j < |s| :: s[i].no > s[j].no
  }

  // ----- one listing -----

  lemma {:induction false} NewestMembers(entries: seq<Entry>, f: Filter)
    ensures forall e :: e in Newest(entries, f) <==> e in entries && Match(f, e.item.msg)
  {
    if entries != [] {
      NewestMembers(entries[..|entries| - 1], f);
      assert entries == entries[..|entries| - 1] + [entries[|entries| - 1]];
    }
  }

  lemma {:induction false} NewestDescending(entries: seq<Entry>, f: Filter)
    requires Ascending(entries)
    ensures Descending(Newest(entries, f))
  {
    if entries != [] {
      var init, last := entries[..|entries| - 1], entries[|entries| - 1];
      NewestDescending(init, f);
      NewestMembers(init, f);
      PutFirst(last, Newest(init, f));
    }
  }

  lemma PutFirst(e: Entry, s: seq<Entry>)
    requires Descending(s) && forall x <- s :: x.no < e.no
    ensures Descending([e] + s)
  {
  }

  lemma {:induction false} UptoSplits(entries: seq<Entry>, cursor: nat)
    requires Ascending(entries) && cursor > 0
    ensures forall i | 0 <= i < |entries| :: entries[i].no < cursor <==> i < Upto(entries, cursor)
  {
    if entries != [] {
      UptoSplits(entries[..|entries| - 1], cursor);
    }
  }

  predicate Below(e: Entry, cursor: nat) { cursor == 0 || e.no < cursor }

  lemma UptoMembers(entries: seq<Entry>, cursor: nat)
    requires Ascending(entries)
    ensures forall e :: e in entries[..Upto(entries, cursor)] <==> e in entries && Below(e, cursor)
  {
    if cursor > 0 {
      UptoSplits(entries, cursor);
      var n := Upto(entries, cursor);
      forall e | e in entries && Below(e, cursor) ensures e in entries[..n] {
        var i :| 0 <= i < |entries| && entries[i] == e;
        assert entries[..n][i] == e;
      }
    }
  }

  /** What one page shows, and that nothing matching between cursor and `next` is skipped. */
  ghost predicate PageFacts(entries: seq<Entry>, f: Filter, cursor: nat, p: Page) {
    && Descending(p.shown)
    && (forall e <- p.shown :: e in entries && Match(f, e.item.msg) && Below(e, cursor) && e.no >= p.next)
    && (forall e <- entries :: Match(f, e.item.msg) && Below(e, cursor) && e.no >= p.next ==> e in p.shown)
    && (p.next > 0 ==> p.shown != [] && p.shown[|p.shown| - 1].no == p.next)
  }

  /** A page is no longer than its limit, and a cursor comes with it exactly when more follows, with a full page. */
  ghost predicate PageEnds(entries: seq<Entry>, f: Filter, cursor: nat, limit: int, p: Page) {
    && (limit > 0 ==> |p.shown| <= limit)
    && (p.next > 0 <==> exists e <- entries :: Match(f, e.item.msg) && Below(e, cursor) && e !in p.shown)
    && (p.next > 0 ==> |p.shown| == limit)
  }

  lemma PageIsExact(entries: seq<Entry>, f: Filter, cursor: nat, limit: int)
    requires Ascending(entries)
    requires forall e <- entries :: e.no >= 1
    ensures PageFacts(entries, f, cursor, PageOf(entries, f, cursor, limit))
    ensures PageEnds(entries, f, cursor, limit, PageOf(entries, f, cursor, limit))
  {
    var part := entries[..Upto(entries, cursor)];
    NewestDescending(part, f);
    NewestMembers(part, f);
    UptoMembers(entries, cursor);
    FoundIsExact(entries, f, cursor, Newest(part, f), limit, PageOf(entries, f, cursor, limit));
  }

  lemma FoundIsExact(entries: seq<Entry>, f: Filter, cursor: nat, found: seq<Entry>, limit: int, p: Page)
    requires Descending(found) && forall e :: e in found <==> e in entries && Match(f, e.item.msg) && Below(e, cursor)
    requires forall e <- entries :: e.no >= 1
    requires p == if 0 < limit < |found| then Page(found[..limit], found[limit - 1].no) else Page(found, 0)
    ensures PageFacts(entries, f, cursor, p) && PageEnds(entries, f, cursor, limit, p)
  {
    if 0 < limit < |found| {
      CutFound(found, limit);
      var last := found[|found| - 1];
      assert last in found && last.no < found[limit - 1].no;
    }
  }

  lemma CutFound(found: seq<Entry>, limit: int)
    requires Descending(found) && 0 < limit < |found|
    requires forall e <- found :: e.no >= 1
    ensures forall e <- found :: e in found[..limit] <==> e.no >= found[limit - 1].no
    ensures found[limit - 1].no > 0
  {
    assert found[limit - 1] in found;
    forall e | e in found[..limit] ensures e.no >= found[limit - 1].no {
      var i :| 0 <= i < limit && found[..limit][i] == e;
      assert found[i] == e;
    }
    forall e | e in found && e.no >= found[limit - 1].no ensures e in found[..limit] {
      var i :| 0 <= i < |found| && found[i] == e;
      assert found[..limit][i] == e;
    }
  }

  // ----- a walk over the pages while the store changes -----

  /** What happened to the store since the previous page, and the page asked for then. */
  datatype Visit = Visit(ops: seq<Op>, limit: nat)

  function StateAt(lim: Limits, st: State, visits: seq<Visit>): State {
    if visits == [] then st
    else Run(lim, StateAt(lim, st, visits[..|visits| - 1]), visits[|visits| - 1].ops)
  }

  /** The last page of a walk; each page follows the cursor of the one before. */
  function LastPage(lim: Limits, st: State, f: Filter, visits: seq<Visit>): Page {
    if visits == [] then Page([], 0)
    else
      PageOf(StateAt(lim, st, visits).entries, f,
             LastPage(lim, st, f, visits[..|visits| - 1]).next, visits[|visits| - 1].limit)
  }

  function Shown(lim: Limits, st: State, f: Filter, visits: seq<Visit>): seq<Entry> {
    if visits == [] then []
    else Shown(lim, st, f, visits[..|visits| - 1]) + LastPage(lim, st, f, visits).shown
  }

  /** Pages of at least one message, asked for as long as there is a next one. */
  ghost predicate Walk(lim: Limits, st: State, f: Filter, visits: seq<Visit>) {
    visits != [] ==>
      var init, v := visits[..|visits| - 1], visits[|visits| - 1];
      && Walk(lim, st, f, init)
      && v.limit >= 1
      && LegalRun(lim, StateAt(lim, st, init), v.ops)
      && (init != [] ==> LastPage(lim, st, f, init).next > 0)
  }

  /** An entry that is in the store at every page of the walk. */
  ghost predicate Survives(lim: Limits, st: State, visits: seq<Visit>, e: Entry) {
    visits != [] ==>
      Survives(lim, st, visits[..|visits| - 1], e) && e in StateAt(lim, st, visits).entries
  }

  lemma {:induction false} StatesKeep(lim: Limits, st: State, f: Filter, visits: seq<Visit>)
    requires WellFormed(st, lim) && Walk(lim, st, f, visits)
    ensures WellFormed(StateAt(lim, st, visits), lim)
  {
    if visits != [] {
      var init := visits[..|visits| - 1];
      StatesKeep(lim, st, f, init);
      RunKeeps(lim, StateAt(lim, st, init), visits[|visits| - 1].ops);
    }
  }

  lemma {:induction false} StatesLater(lim: Limits, st: State, f: Filter, visits: seq<Visit>, first: State)
    requires WellFormed(st, lim) && Walk(lim, st, f, visits) && visits != []
    requires first == StateAt(lim, st, visits[..1])
    ensures Later(first, StateAt(lim, st, visits))
  {
    if |visits| == 1 {
      assert visits[..1] == visits;
    } else {
      var init := visits[..|visits| - 1];
      assert init[..1] == visits[..1];
      StatesLater(lim, st, f, init, first);
      StatesKeep(lim, st, f, init);
      RunKeeps(lim, StateAt(lim, st, init), visits[|visits| - 1].ops);
      LaterTransitive(first, StateAt(lim, st, init), StateAt(lim, st, visits));
    }
  }

  lemma AppendDescending(a: seq<Entry>, b: seq<Entry>, bound: nat)
    requires Descending(a) && Descending(b)
    requires (forall e <- a :: e.no >= bound) && (forall e <- b :: e.no < bound)
    ensures Descending(a + b)
  {
    forall i, j | 0 <= i < j < |a + b| ensures (a + b)[i].no > (a + b)[j].no {
      if i < |a| <= j {
        assert a[i] in a && b[j - |a|] in b;
      }
    }
  }

  /** The invariant of a walk, page by page. */
  ghost predicate WalkFacts(first: State, f: Filter, shown: seq<Entry>, next: nat) {
    && Descending(shown)
    && (forall e <- shown :: e in first.entries && Match(f, e.item.msg) && e.no >= next)
  }

  lemma {:induction false} WalkHolds(lim: Limits, st: State, f: Filter, visits: seq<Visit>, first: State)
    requires WellFormed(st, lim) && Walk(lim, st, f, visits) && visits != []
    requires first == StateAt(lim, st, visits[..1])
    ensures WalkFacts(first, f, Shown(lim, st, f, visits), LastPage(lim, st, f, visits).next)
    ensures LastPage(lim, st, f, visits).next <= first.last
  {
    ThisPage(lim, st, f, visits);
    if |visits| == 1 {
      assert visits[..1] == visits;
      WalkStart(first, f, LastPage(lim, st, f, visits));
      assert Shown(lim, st, f, visits) == LastPage(lim, st, f, visits).shown;
    } else {
      var init := visits[..|visits| - 1];
      assert init[..1] == visits[..1];
      WalkHolds(lim, st, f, init, first);
      StatesLater(lim, st, f, visits, first);
      WalkStep(first, StateAt(lim, st, visits), f, Shown(lim, st, f, init), LastPage(lim, st, f, init).next,
               LastPage(lim, st, f, visits));
    }
  }

  lemma ThisPage(lim: Limits, st: State, f: Filter, visits: seq<Visit>)
    requires WellFormed(st, lim) && Walk(lim, st, f, visits) && visits != []
    ensures WellFormed(StateAt(lim, st, visits), lim)
    ensures PageFacts(StateAt(lim, st, visits).entries, f,
                      LastPage(lim, st, f, visits[..|visits| - 1]).next, LastPage(lim, st, f, visits))
  {
    StatesKeep(lim, st, f, visits);
    PageIsExact(StateAt(lim, st, visits).entries, f,
                LastPage(lim, st, f, visits[..|visits| - 1]).next, visits[|visits| - 1].limit);
  }

  lemma WalkStart(now: State, f: Filter, p: Page)
    requires PageFacts(now.entries, f, 0, p) && forall e <- now.entries :: e.no <= now.last
    ensures WalkFacts(now, f, p.shown, p.next) && p.next <= now.last
  {
    if p.next > 0 {
      assert p.shown[|p.shown| - 1] in p.shown;
    }
  }

  lemma WalkStep(first: State, now: State, f: Filter, shown: seq<Entry>, cursor: nat, p: Page)
    requires Later(first, now) && WalkFacts(first, f, shown, cursor) && 0 < cursor <= first.last
    requires PageFacts(now.entries, f, cursor, p)
    ensures WalkFacts(first, f, shown + p.shown, p.next) && p.next <= first.last
  {
    AppendDescending(shown, p.shown, cursor);
    if p.next > 0 {
      assert p.shown[|p.shown| - 1] in p.shown;
    }
    forall e | e in p.shown ensures e in first.entries {
      assert e in now.entries && e.no < cursor;
    }
  }

  /** Nothing that matches and stays is passed over on the way to the cursor. */
  lemma {:induction false} WalkMissesNothing(lim: Limits, st: State, f: Filter, visits: seq<Visit>, e: Entry)
    requires WellFormed(st, lim) && Walk(lim, st, f, visits) && visits != []
    requires Survives(lim, st, visits, e) && Match(f, e.item.msg)
    requires e.no >= LastPage(lim, st, f, visits).next
    ensures e in Shown(lim, st, f, visits)
  {
    ThisPage(lim, st, f, visits);
    var init := visits[..|visits| - 1];
    if init != [] && e.no >= LastPage(lim, st, f, init).next {
      WalkMissesNothing(lim, st, f, init, e);
    }
  }

  /**
   * Paging is exact under change: the walk shows strictly decreasing arrival
   * numbers (so nothing twice), only matching messages that were in the store
   * at page one (so nothing saved later), and, once there is no next page,
   * every matching message that was there at every page.
   */
  lemma PagingIsExact(lim: Limits, st: State, f: Filter, visits: seq<Visit>)
    requires WellFormed(st, lim) && Walk(lim, st, f, visits) && visits != []
    ensures Descending(Shown(lim, st, f, visits))
    ensures forall e <- Shown(lim, st, f, visits) ::
              e in StateAt(lim, st, visits[..1]).entries && Match(f, e.item.msg)
    ensures LastPage(lim, st, f, visits).next == 0 ==>
              forall e | Survives(lim, st, visits, e) && Match(f, e.item.msg) :: e in Shown(lim, st, f, visits)
  {
    WalkHolds(lim, st, f, visits, StateAt(lim, st, visits[..1]));
    if LastPage(lim, st, f, visits).next == 0 {
      forall e | Survives(lim, st, visits, e) && Match(f, e.item.msg) ensures e in Shown(lim, st, f, visits) {
        WalkMissesNothing(lim, st, f, visits, e);
      }
    }
  }

  // ----- it ends, and without changes it is the list -----

  lemma {:induction false} WalkAdvances(lim: Limits, st: State, f: Filter, visits: seq<Visit>)
    requires WellFormed(st, lim) && Walk(lim, st, f, visits)
    ensures |visits| <= |Shown(lim, st, f, visits)| + 1
    ensures visits != [] && LastPage(lim, st, f, visits).next > 0 ==> |visits| <= |Shown(lim, st, f, visits)|
  {
    if visits != [] {
      var init := visits[..|visits| - 1];
      WalkAdvances(lim, st, f, init);
      ThisPage(lim, st, f, visits);
    }
  }

  lemma {:induction false} DescendingWithin(s: seq<Entry>, entries: seq<Entry>)
    requires Descending(s) && Ascending(entries)
    requires forall e <- s :: e in entries
    ensures |s| <= |entries|
  {
    if s != [] {
      assert s[0] in s;
      var i :| 0 <= i < |entries| && entries[i] == s[0];
      forall e | e in s[1..] ensures e in entries[..i] {
        assert e in s;
        var j :| 0 <= j < |entries| && entries[j] == e;
        assert e.no < s[0].no;
        assert entries[..i][j] == e;
      }
      DescendingWithin(s[1..], entries[..i]);
    }
  }

  /** However the store changes, a walk has at most one page more than page one's store has messages. */
  lemma WalkEnds(lim: Limits, st: State, f: Filter, visits: seq<Visit>)
    requires WellFormed(st, lim) && Walk(lim, st, f, visits) && visits != []
    ensures |visits| <= |StateAt(lim, st, visits[..1]).entries| + 1
  {
    WalkAdvances(lim, st, f, visits);
    PagingIsExact(lim, st, f, visits);
    StatesKeep(lim, st, f, visits[..1]) by {
      WalkPrefix(lim, st, f, visits);
    }
    DescendingWithin(Shown(lim, st, f, visits), StateAt(lim, st, visits[..1]).entries);
  }

  lemma {:induction false} WalkPrefix(lim: Limits, st: State, f: Filter, visits: seq<Visit>)
    requires Walk(lim, st, f, visits) && visits != []
    ensures Walk(lim, st, f, visits[..1])
  {
    if |visits| == 1 {
      assert visits[..1] == visits;
    } else {
      WalkPrefix(lim, st, f, visits[..|visits| - 1]);
      assert visits[..|visits| - 1][..1] == visits[..1];
    }
  }

  /** Two strictly descending lists of the same entries are the same list. */
  lemma {:induction false} DescendingUnique(a: seq<Entry>, b: seq<Entry>)
    requires Descending(a) && Descending(b)
    requires forall e :: e in a <==> e in b
    ensures a == b
  {
    assert a != [] ==> a[0] in b;
    assert b != [] ==> b[0] in a;
    if a != [] && b != [] {
      assert a[0] == b[0];
      TailMembers(a, b);
      DescendingUnique(a[1..], b[1..]);
    }
  }

  lemma TailMembers(a: seq<Entry>, b: seq<Entry>)
    requires a != [] && b != [] && a[0] == b[0] && Descending(a) && Descending(b)
    requires forall e :: e in a <==> e in b
    ensures forall e :: e in a[1..] <==> e in b[1..]
  {
    forall e | e in a[1..] ensures e in b[1..] {
      assert e in a && e.no < a[0].no;
      assert b == [b[0]] + b[1..];
    }
    forall e | e in b[1..] ensures e in a[1..] {
      assert e in b && e.no < b[0].no;
      assert a == [a[0]] + a[1..];
    }
  }

  lemma {:induction false} StillWalk(lim: Limits, st: State, visits: seq<Visit>, e: Entry)
    requires forall v <- visits :: v.ops == []
    ensures StateAt(lim, st, visits) == st
    ensures e in st.entries ==> Survives(lim, st, visits, e)
  {
    if visits != [] {
      StillWalk(lim, st, visits[..|visits| - 1], e);
      assert visits[|visits| - 1] in visits;
    }
  }

  /** Without changes the pages, whatever their limits, concatenate to the whole list. */
  lemma PagesMakeTheList(lim: Limits, st: State, f: Filter, visits: seq<Visit>)
    requires WellFormed(st, lim) && Walk(lim, st, f, visits) && visits != []
    requires forall v <- visits :: v.ops == []
    requires LastPage(lim, st, f, visits).next == 0
    ensures Shown(lim, st, f, visits) == PageOf(st.entries, f, 0, 0).shown
  {
    var list := Newest(st.entries, f);
    assert st.entries[..Upto(st.entries, 0)] == st.entries;
    NewestDescending(st.entries, f);
    NewestMembers(st.entries, f);
    PagingIsExact(lim, st, f, visits);
    forall e ensures e in Shown(lim, st, f, visits) <==> e in list {
      StillWalk(lim, st, visits[..1], e);
      StillWalk(lim, st, visits, e);
    }
    DescendingUnique(Shown(lim, st, f, visits), list);
  }
}
