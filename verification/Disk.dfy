/**
 * The data directory, one atomic file-system step at a time.  A crash is a
 * stop after any number of steps; the memory is then lost and the next start
 * loads what the directory holds.
 */
module Disk {
  import opened Bytes
  import opened Mail
  import opened Retention
  import opened StoreSpec
  import opened Seqs
  import Text

  datatype File = Eml(id: string) | EmlTmp(id: string) | Json(id: string) | JsonTmp(id: string) | Probe

  type FS = map<File, seq<byte>>

  datatype Meta = Meta(envelope: Envelope, createdAt: nat)

  /** One message as a pair of files holds it. */
  datatype Stored = Stored(id: string, meta: Meta, raw: seq<byte>)

  /** JSON and MIME are library code: any encoding that can be undone, any parser. */
  datatype Codec = Codec(
    encode: Meta -> seq<byte>,
    decode: seq<byte> -> Text.Option<Meta>,
    parse: (seq<byte>, Envelope) -> Message)

  ghost predicate Lawful(c: Codec) {
    forall m :: c.decode(c.encode(m)) == Text.Some(m)
  }

  // ----- steps -----

  datatype Step = Put(file: File, data: seq<byte>) | Move(src: File, dst: File) | Drop(file: File)

  function Do(fs: FS, step: Step): FS {
    match step
    case Put(file, data) => fs[file := data]
    case Move(src, dst) => if src in fs then (fs - {src})[dst := fs[src]] else fs
    case Drop(file) => fs - {file}
  }

  function DoAll(fs: FS, steps: seq<Step>): FS
    decreases |steps|
  {
    if steps == [] then fs else DoAll(Do(fs, steps[0]), steps[1..])
  }

  /** `os.WriteFile`: the file is truncated, then grows; a crash may leave any prefix. */
  function Puts(tmp: File, data: seq<byte>): seq<Step> {
    seq(|data| + 1, i requires 0 <= i <= |data| => Put(tmp, data[..i]))
  }

  /** `writeFile`: a temporary file, then a rename. */
  function WriteSteps(tmp: File, file: File, data: seq<byte>): seq<Step> {
    Puts(tmp, data) + [Move(tmp, file)]
  }

  /** `disk.write`: the mail first, its metadata last. */
  function SaveSteps(c: Codec, s: Stored): seq<Step> {
    WriteSteps(EmlTmp(s.id), Eml(s.id), s.raw) + WriteSteps(JsonTmp(s.id), Json(s.id), c.encode(s.meta))
  }

  /** `disk.remove`: for each id the metadata first, the mail last. */
  function RemoveSteps(ids: seq<string>): (steps: seq<Step>)
    ensures |steps| == 2 * |ids|
  {
    if ids == [] then [] else [Drop(Json(ids[0])), Drop(Eml(ids[0]))] + RemoveSteps(ids[1..])
  }

  const PROBE_STEPS: seq<Step> := [Put(Probe, []), Drop(Probe)]

  // ----- what a directory means -----

  /** `readStored` loads `s`; broken or incomplete pairs are skipped. */
  predicate Held(c: Codec, fs: FS, s: Stored) {
    && Json(s.id) in fs && Eml(s.id) in fs
    && c.decode(fs[Json(s.id)]) == Text.Some(s.meta) && fs[Eml(s.id)] == s.raw
  }

  ghost predicate JsonHasEml(fs: FS) {
    forall id :: Json(id) in fs ==> Eml(id) in fs
  }

  /** `d` holds what `fs` holds, except the messages with these ids. */
  ghost predicate Lost(c: Codec, fs: FS, d: FS, ids: seq<string>) {
    forall x :: Held(c, d, x) <==> Held(c, fs, x) && x.id !in ids
  }

  /** `d` holds what `fs` holds, and `s`. */
  ghost predicate Gained(c: Codec, fs: FS, d: FS, s: Stored) {
    forall x :: Held(c, d, x) <==> Held(c, fs, x) || x == s
  }

  /** Arrival time, then id: the order of a reload. */
  predicate KeyLess(a: Stored, b: Stored) {
    a.meta.createdAt < b.meta.createdAt || (a.meta.createdAt == b.meta.createdAt && Text.Less(a.id, b.id))
  }

  ghost predicate Sorted(list: seq<Stored>) {
    forall i, j | 0 <= i < j < |list| :: KeyLess(list[i], list[j])
  }

  /** `list` is exactly the loadable messages, in reload order. */
  ghost predicate Arranged(c: Codec, list: seq<Stored>, fs: FS) {
    && Sorted(list)
    && forall x :: Held(c, fs, x) <==> x in list
  }

  function StoredIds(list: seq<Stored>): seq<string> {
    seq(|list|, i requires 0 <= i < |list| => list[i].id)
  }

  function ItemOf(c: Codec, s: Stored): Item {
    var m := c.parse(s.raw, s.meta.envelope);
    Item(m.(id := s.id, envelope := s.meta.envelope, createdAt := s.meta.createdAt), s.raw)
  }

  function StoredSizes(c: Codec, list: seq<Stored>): seq<nat> {
    seq(|list|, i requires 0 <= i < |list| => SizeOf(ItemOf(c, list[i])))
  }

  function Overflow(c: Codec, list: seq<Stored>, lim: Limits): (n: nat)
    ensures n <= |list|
  {
    Dropped(StoredSizes(c, list), lim)
  }

  function Kept(c: Codec, list: seq<Stored>, lim: Limits): seq<Stored> { list[Overflow(c, list, lim)..] }

  /** Loading the directory under `lim` ends with exactly `list` in the store. */
  ghost predicate Recovers(c: Codec, fs: FS, lim: Limits, list: seq<Stored>) {
    exists all :: Arranged(c, all, fs) && list == Kept(c, all, lim)
  }

  // ----- running steps -----

  lemma {:induction false} DoAppend(fs: FS, a: seq<Step>, b: seq<Step>)
    ensures DoAll(fs, a + b) == DoAll(DoAll(fs, a), b)
    decreases |a|
  {
    if a == [] {
      assert a + b == b;
    } else {
      DoAppend(Do(fs, a[0]), a[1..], b);
      assert (a + b)[1..] == a[1..] + b;
    }
  }

  /** A crash inside two programs run in turn is a crash inside one of them. */
  lemma CrashAppend(fs: FS, a: seq<Step>, b: seq<Step>, k: nat)
    requires k <= |a| + |b|
    ensures k <= |a| ==> DoAll(fs, (a + b)[..k]) == DoAll(fs, a[..k])
    ensures k >= |a| ==> DoAll(fs, (a + b)[..k]) == DoAll(DoAll(fs, a), b[..k - |a|])
  {
    if k <= |a| {
      assert (a + b)[..k] == a[..k];
    }
    if k >= |a| {
      assert (a + b)[..k] == a + b[..k - |a|];
      DoAppend(fs, a, b[..k - |a|]);
    }
  }

  lemma {:induction false} DoPuts(fs: FS, tmp: File, steps: seq<Step>)
    requires steps != [] && forall s <- steps :: s.Put? && s.file == tmp
    ensures DoAll(fs, steps) == fs[tmp := steps[|steps| - 1].data]
    decreases |steps|
  {
    assert steps[0] in steps;
    if |steps| > 1 {
      DoPuts(fs[tmp := steps[0].data], tmp, steps[1..]);
    } else {
      assert steps[1..] == [];
    }
  }

  /** While a file is being written, only its temporary name changes. */
  lemma CrashWhileWriting(fs: FS, tmp: File, file: File, data: seq<byte>, k: nat) returns (part: seq<byte>)
    requires k <= |data| + 1
    ensures var d := DoAll(fs, WriteSteps(tmp, file, data)[..k]); d == fs || d == fs[tmp := part]
  {
    var steps := WriteSteps(tmp, file, data)[..k];
    part := [];
    if k > 0 {
      DoPuts(fs, tmp, steps);
      part := steps[k - 1].data;
    }
  }

  lemma WriteDone(fs: FS, tmp: File, file: File, data: seq<byte>)
    requires tmp != file
    ensures DoAll(fs, WriteSteps(tmp, file, data)) == (fs - {tmp})[file := data]
  {
    var puts := Puts(tmp, data);
    DoAppend(fs, puts, [Move(tmp, file)]);
    DoPuts(fs, tmp, puts);
    assert data[..|data|] == data;
    assert fs[tmp := data] - {tmp} == fs - {tmp};
    assert [Move(tmp, file)][1..] == [];
  }

  // ----- which steps a reload notices -----

  lemma TmpUnseen(c: Codec, fs: FS, file: File, data: seq<byte>)
    requires !file.Json? && !file.Eml?
    ensures Lost(c, fs, fs[file := data], []) && Lost(c, fs, fs - {file}, [])
    ensures JsonHasEml(fs) ==> JsonHasEml(fs[file := data]) && JsonHasEml(fs - {file})
  {
  }

  /** A mail without metadata is not loaded: writing or removing it goes unseen. */
  lemma OrphanUnseen(c: Codec, fs: FS, id: string, raw: seq<byte>)
    requires Json(id) !in fs
    ensures Lost(c, fs, fs[Eml(id) := raw], []) && Lost(c, fs, fs - {Eml(id)}, [])
    ensures JsonHasEml(fs) ==> JsonHasEml(fs[Eml(id) := raw]) && JsonHasEml(fs - {Eml(id)})
  {
  }

  /** The rename of the metadata is what makes a message exist. */
  lemma CommitSeen(c: Codec, fs: FS, s: Stored)
    requires Lawful(c) && Json(s.id) !in fs && Eml(s.id) in fs && fs[Eml(s.id)] == s.raw
    ensures Gained(c, fs, fs[Json(s.id) := c.encode(s.meta)], s)
    ensures JsonHasEml(fs) ==> JsonHasEml(fs[Json(s.id) := c.encode(s.meta)])
  {
  }

  /** Removing the metadata is what makes a message go. */
  lemma RemovalSeen(c: Codec, fs: FS, id: string)
    ensures Lost(c, fs, fs - {Json(id)}, [id])
    ensures JsonHasEml(fs) ==> JsonHasEml(fs - {Json(id)})
  {
  }

  // ----- crashing while writing a message -----

  /** Until the last rename the directory means what it meant; after it, the message is there. */
  lemma CrashWhileSaving(c: Codec, fs: FS, s: Stored, k: nat)
    requires Lawful(c) && Json(s.id) !in fs
    requires k <= |SaveSteps(c, s)|
    ensures var d := DoAll(fs, SaveSteps(c, s)[..k]);
            && (JsonHasEml(fs) ==> JsonHasEml(d))
            && (k < |SaveSteps(c, s)| ==> Lost(c, fs, d, []))
            && (k == |SaveSteps(c, s)| ==> Gained(c, fs, d, s))
  {
    var first := WriteSteps(EmlTmp(s.id), Eml(s.id), s.raw);
    var second := WriteSteps(JsonTmp(s.id), Json(s.id), c.encode(s.meta));
    CrashAppend(fs, first, second, k);
    if k < |first| {
      var part := CrashWhileWriting(fs, EmlTmp(s.id), Eml(s.id), s.raw, k);
      TmpUnseen(c, fs, EmlTmp(s.id), part);
    } else {
      MailWritten(c, fs, s);
      MetadataWritten(c, DoAll(fs, first), s, k - |first|);
    }
  }

  lemma MailWritten(c: Codec, fs: FS, s: Stored)
    requires Json(s.id) !in fs
    ensures var mid := DoAll(fs, WriteSteps(EmlTmp(s.id), Eml(s.id), s.raw));
            && Lost(c, fs, mid, []) && (JsonHasEml(fs) ==> JsonHasEml(mid))
            && Eml(s.id) in mid && mid[Eml(s.id)] == s.raw && Json(s.id) !in mid
  {
    WriteDone(fs, EmlTmp(s.id), Eml(s.id), s.raw);
    TmpUnseen(c, fs, EmlTmp(s.id), []);
    OrphanUnseen(c, fs - {EmlTmp(s.id)}, s.id, s.raw);
  }

  lemma MetadataWritten(c: Codec, mid: FS, s: Stored, k: nat)
    requires Lawful(c)
    requires Eml(s.id) in mid && mid[Eml(s.id)] == s.raw && Json(s.id) !in mid
    requires k <= |c.encode(s.meta)| + 2
    ensures var d := DoAll(mid, WriteSteps(JsonTmp(s.id), Json(s.id), c.encode(s.meta))[..k]);
            && (JsonHasEml(mid) ==> JsonHasEml(d))
            && (k < |c.encode(s.meta)| + 2 ==> Lost(c, mid, d, []))
            && (k == |c.encode(s.meta)| + 2 ==> Gained(c, mid, d, s))
  {
    var data := c.encode(s.meta);
    var steps := WriteSteps(JsonTmp(s.id), Json(s.id), data);
    if k < |data| + 2 {
      var part := CrashWhileWriting(mid, JsonTmp(s.id), Json(s.id), data, k);
      TmpUnseen(c, mid, JsonTmp(s.id), part);
    } else {
      assert steps[..k] == steps;
      WriteDone(mid, JsonTmp(s.id), Json(s.id), data);
      TmpUnseen(c, mid, JsonTmp(s.id), []);
      CommitSeen(c, mid - {JsonTmp(s.id)}, s);
    }
  }

  // ----- crashing while removing messages -----

  /** A crash while removing ids, in order, has removed some first ones of them. */
  lemma {:induction false} CrashWhileRemoving(c: Codec, fs: FS, ids: seq<string>, k: nat) returns (i: nat)
    requires k <= |RemoveSteps(ids)|
    ensures i == (k + 1) / 2 && i <= |ids|
    ensures var d := DoAll(fs, RemoveSteps(ids)[..k]);
            (JsonHasEml(fs) ==> JsonHasEml(d)) && Lost(c, fs, d, ids[..i])
    decreases |ids|
  {
    var steps := RemoveSteps(ids);
    if k == 0 {
      i := 0;
    } else {
      var id := ids[0];
      RemovalSeen(c, fs, id);
      if k == 1 {
        i := 1;
        assert steps[..1] == [Drop(Json(id))];
        DoOne(fs, Drop(Json(id)), []);
      } else {
        var rest := RemoveSteps(ids[1..])[..k - 2];
        assert steps[..k] == [Drop(Json(id))] + ([Drop(Eml(id))] + rest);
        DoOne(fs, Drop(Json(id)), [Drop(Eml(id))] + rest);
        var one := fs - {Json(id)};
        DoOne(one, Drop(Eml(id)), rest);
        OrphanUnseen(c, one, id, []);
        var j := CrashWhileRemoving(c, one - {Eml(id)}, ids[1..], k - 2);
        i := j + 1;
        assert ids[..i] == [id] + ids[1..][..j];
      }
    }
  }

  lemma DoOne(fs: FS, step: Step, rest: seq<Step>)
    ensures DoAll(fs, [step]) == Do(fs, step)
    ensures DoAll(fs, [step] + rest) == DoAll(Do(fs, step), rest)
  {
    assert ([step] + rest)[1..] == rest;
  }

  // ----- reload order -----

  lemma KeyLessTransitive(a: Stored, b: Stored, x: Stored)
    requires KeyLess(a, b) && KeyLess(b, x)
    ensures KeyLess(a, x)
  {
    if a.meta.createdAt == b.meta.createdAt == x.meta.createdAt {
      Text.LessTransitive(a.id, b.id, x.id);
    }
  }

  /** The order of a reload: by arrival time, and by id where times are equal. */
  lemma KeyLessIff(a: Stored, b: Stored)
    ensures KeyLess(a, b) <==>
              a.meta.createdAt < b.meta.createdAt
              || (a.meta.createdAt == b.meta.createdAt && Text.ComesFirst(a.id, b.id))
  {
    Text.LessIff(a.id, b.id);
  }

  lemma KeyLessAsymmetric(a: Stored, b: Stored)
    requires KeyLess(a, b)
    ensures !KeyLess(b, a) && a != b
  {
    if KeyLess(b, a) {
      Text.LessTransitive(a.id, b.id, a.id);
    }
    Text.LessIrreflexive(a.id);
  }

  lemma SortedDistinct(list: seq<Stored>, i: nat, j: nat)
    requires Sorted(list) && i < |list| && j < |list| && list[i] == list[j]
    ensures i == j
  {
    if i < j {
      KeyLessAsymmetric(list[i], list[j]);
    } else if j < i {
      KeyLessAsymmetric(list[j], list[i]);
    }
  }

  /** An id is held at most once, so cutting off the first `i` is losing their ids. */
  lemma CutMembers(c: Codec, list: seq<Stored>, fs: FS, i: nat, x: Stored)
    requires Arranged(c, list, fs) && i <= |list|
    ensures x in list[i..] <==> x in list && x.id !in StoredIds(list)[..i]
  {
    if x in list[i..] {
      var b :| 0 <= b < |list| - i && list[i..][b] == x;
      forall a | 0 <= a < i ensures list[a].id != x.id {
        assert Held(c, fs, list[a]) && Held(c, fs, list[i + b]);
        if list[a].id == x.id {
          SortedDistinct(list, a, i + b);
        }
      }
    }
    if x in list && x.id !in StoredIds(list)[..i] {
      forall a | 0 <= a < i ensures list[a].id in StoredIds(list)[..i] {
        assert StoredIds(list)[..i][a] == list[a].id;
      }
      var b :| 0 <= b < |list| && list[b] == x;
      assert list[i..][b - i] == x;
    }
  }

  lemma ArrangedCut(c: Codec, list: seq<Stored>, fs: FS, d: FS, i: nat)
    requires Arranged(c, list, fs) && i <= |list| && Lost(c, fs, d, StoredIds(list)[..i])
    ensures Arranged(c, list[i..], d)
  {
    forall x ensures Held(c, d, x) <==> x in list[i..] {
      CutMembers(c, list, fs, i, x);
    }
  }

  lemma ArrangedAdd(c: Codec, list: seq<Stored>, fs: FS, d: FS, s: Stored)
    requires Arranged(c, list, fs) && Gained(c, fs, d, s) && forall x <- list :: KeyLess(x, s)
    ensures Arranged(c, list + [s], d)
  {
  }

  lemma SameHead(a: seq<Stored>, b: seq<Stored>)
    requires a != [] && b != [] && Sorted(a) && Sorted(b) && a[0] in b && b[0] in a
    ensures a[0] == b[0]
  {
    var i :| 0 <= i < |a| && a[i] == b[0];
    var j :| 0 <= j < |b| && b[j] == a[0];
    if i > 0 && j > 0 {
      KeyLessAsymmetric(a[0], b[0]);
    }
  }

  /** Two strictly sorted lists of the same messages are the same list. */
  lemma {:induction false} SortedUnique(a: seq<Stored>, b: seq<Stored>)
    requires Sorted(a) && Sorted(b) && forall x :: x in a <==> x in b
    ensures a == b
  {
    assert a != [] ==> a[0] in b;
    assert b != [] ==> b[0] in a;
    if a != [] && b != [] {
      SameHead(a, b);
      TailsAgree(a, b);
      TailsAgree(b, a);
      SortedUnique(a[1..], b[1..]);
    }
  }

  lemma TailsAgree(a: seq<Stored>, b: seq<Stored>)
    requires a != [] && b != [] && Sorted(a) && a[0] == b[0] && forall x :: x in a ==> x in b
    ensures forall x :: x in a[1..] ==> x in b[1..]
  {
    forall x | x in a[1..] ensures x in b[1..] {
      var i :| 1 <= i < |a| && a[i] == x;
      KeyLessAsymmetric(a[0], a[i]);
      assert x in a && x in b && x != b[0];
      assert b == [b[0]] + b[1..];
    }
  }

  /** A directory has one reload order, so a reload has one result. */
  lemma RecoversOnly(c: Codec, fs: FS, lim: Limits, all: seq<Stored>)
    requires Arranged(c, all, fs)
    ensures forall list :: Recovers(c, fs, lim, list) <==> list == Kept(c, all, lim)
  {
    forall other | Arranged(c, other, fs) ensures other == all {
      assert forall x :: x in other <==> Held(c, fs, x);
      SortedUnique(other, all);
    }
  }

  // ----- the crash theorems -----

  /** Removing some of the doomed first ones does not change what is kept. */
  lemma KeptCut(c: Codec, all: seq<Stored>, i: nat, lim: Limits)
    requires i <= Overflow(c, all, lim)
    ensures Kept(c, all[i..], lim) == Kept(c, all, lim)
  {
    DropInSteps(StoredSizes(c, all), i, lim);
    assert StoredSizes(c, all[i..]) == StoredSizes(c, all)[i..];
  }

  /** The steps that remove what overflows, oldest first. */
  function EvictSteps(c: Codec, all: seq<Stored>, lim: Limits): seq<Step> {
    RemoveSteps(StoredIds(all)[..Overflow(c, all, lim)])
  }

  /** `d` reloads to exactly `list`. */
  ghost predicate ReloadsTo(c: Codec, d: FS, lim: Limits, list: seq<Stored>) {
    Recovers(c, d, lim, list) && forall other :: Recovers(c, d, lim, other) ==> other == list
  }

  /**
   * Stop anywhere in the removal of overflowing messages: a reload still
   * keeps the same list.  At the end the directory holds exactly that list.
   */
  lemma CrashWhileEvicting(c: Codec, fs: FS, all: seq<Stored>, lim: Limits, k: nat)
    requires Arranged(c, all, fs) && k <= |EvictSteps(c, all, lim)|
    ensures var d := DoAll(fs, EvictSteps(c, all, lim)[..k]);
            && (JsonHasEml(fs) ==> JsonHasEml(d))
            && ReloadsTo(c, d, lim, Kept(c, all, lim))
            && (k == |EvictSteps(c, all, lim)| ==> Arranged(c, Kept(c, all, lim), d))
  {
    var n := Overflow(c, all, lim);
    var ids := StoredIds(all)[..n];
    var i := CrashWhileRemoving(c, fs, ids, k);
    assert ids[..i] == StoredIds(all)[..i];
    var d := DoAll(fs, EvictSteps(c, all, lim)[..k]);
    ArrangedCut(c, all, fs, d, i);
    KeptCut(c, all, i, lim);
    RecoversOnly(c, d, lim, all[i..]);
  }

  /** All the steps of one `Save`: write the message, then remove what overflows. */
  function SaveAndEvict(c: Codec, before: seq<Stored>, s: Stored, lim: Limits): seq<Step> {
    SaveSteps(c, s) + EvictSteps(c, before + [s], lim)
  }

  /**
   * Save is crash-atomic.  Stop after any number of its steps and reload under
   * the same limits: the store holds exactly what it held before or exactly
   * what it would have held after, and metadata never gets to be without its mail.  Not
   * stopping at all leaves a directory that mirrors the new contents.
   */
  lemma SaveIsCrashAtomic(c: Codec, fs: FS, before: seq<Stored>, s: Stored, lim: Limits, k: nat)
    requires Lawful(c) && Arranged(c, before, fs)
    requires Fits(StoredSizes(c, before), lim)
    requires Json(s.id) !in fs && forall x <- before :: KeyLess(x, s)
    requires k <= |SaveAndEvict(c, before, s, lim)|
    ensures var d := DoAll(fs, SaveAndEvict(c, before, s, lim)[..k]);
            var after := Kept(c, before + [s], lim);
            && (JsonHasEml(fs) ==> JsonHasEml(d))
            && ReloadsTo(c, d, lim, if k < |SaveSteps(c, s)| then before else after)
            && (k == |SaveAndEvict(c, before, s, lim)| ==> Arranged(c, after, d))
  {
    var all := before + [s];
    var write := SaveSteps(c, s);
    CrashAppend(fs, write, EvictSteps(c, all, lim), k);
    if k < |write| {
      CrashWhileSaving(c, fs, s, k);
      var d := DoAll(fs, write[..k]);
      assert Arranged(c, before, d);
      RecoversOnly(c, d, lim, before);
    } else {
      assert write[..|write|] == write;
      CrashWhileSaving(c, fs, s, |write|);
      ArrangedAdd(c, before, fs, DoAll(fs, write), s);
      CrashWhileEvicting(c, DoAll(fs, write), all, lim, k - |write|);
    }
  }

  /** The steps of a start: the write probe, then the removal of what the limits no longer allow. */
  function RecoverySteps(c: Codec, all: seq<Stored>, lim: Limits): seq<Step> {
    PROBE_STEPS + EvictSteps(c, all, lim)
  }

  lemma CrashWhileProbing(c: Codec, fs: FS, k: nat)
    requires k <= 2
    ensures var d := DoAll(fs, PROBE_STEPS[..k]); Lost(c, fs, d, []) && (JsonHasEml(fs) ==> JsonHasEml(d))
  {
    TmpUnseen(c, fs, Probe, []);
    TmpUnseen(c, fs[Probe := []], Probe, []);
    if k == 1 {
      assert PROBE_STEPS[..k] == [Put(Probe, [])];
      DoOne(fs, Put(Probe, []), []);
    } else if k == 2 {
      assert PROBE_STEPS[..k] == [Put(Probe, [])] + [Drop(Probe)];
      DoOne(fs, Put(Probe, []), [Drop(Probe)]);
      DoOne(fs[Probe := []], Drop(Probe), []);
    }
  }

  /**
   * A crash during recovery costs nothing: stop it after any number of steps
   * and the next recovery keeps the same messages.
   */
  lemma RecoveryIsCrashSafe(c: Codec, fs: FS, all: seq<Stored>, lim: Limits, k: nat)
    requires Arranged(c, all, fs) && k <= |RecoverySteps(c, all, lim)|
    ensures var d := DoAll(fs, RecoverySteps(c, all, lim)[..k]);
            && (JsonHasEml(fs) ==> JsonHasEml(d))
            && ReloadsTo(c, d, lim, Kept(c, all, lim))
            && (k == |RecoverySteps(c, all, lim)| ==> Arranged(c, Kept(c, all, lim), d))
  {
    CrashAppend(fs, PROBE_STEPS, EvictSteps(c, all, lim), k);
    if k < 2 {
      CrashWhileProbing(c, fs, k);
      var d := DoAll(fs, PROBE_STEPS[..k]);
      assert Arranged(c, all, d);
      RecoversOnly(c, d, lim, all);
    } else {
      CrashWhileProbing(c, fs, 2);
      assert PROBE_STEPS[..2] == PROBE_STEPS;
      assert Arranged(c, all, DoAll(fs, PROBE_STEPS));
      CrashWhileEvicting(c, DoAll(fs, PROBE_STEPS), all, lim, k - 2);
    }
  }

  /**
   * A crash inside a removal of several messages is atomic for each of them:
   * the reload has lost some first ones of the list and nothing else.
   */
  lemma RemovalIsCrashAtomicPerMessage(c: Codec, fs: FS, ids: seq<string>, k: nat)
    requires k <= |RemoveSteps(ids)|
    ensures var d := DoAll(fs, RemoveSteps(ids)[..k]);
            (JsonHasEml(fs) ==> JsonHasEml(d)) && exists i | 0 <= i <= |ids| :: Lost(c, fs, d, ids[..i])
  {
    var i := CrashWhileRemoving(c, fs, ids, k);
  }

  /**
   * The arrival order matters: with a message added, the list extended at its
   * end is the reload order exactly when the new key is above all the others.
   */
  lemma ReloadKeepsOrderIff(c: Codec, fs: FS, d: FS, before: seq<Stored>, s: Stored)
    requires Arranged(c, before, fs) && Gained(c, fs, d, s)
    ensures Arranged(c, before + [s], d) <==> forall x <- before :: KeyLess(x, s)
  {
    if Arranged(c, before + [s], d) {
      forall x | x in before ensures KeyLess(x, s) {
        var i :| 0 <= i < |before| && before[i] == x;
        assert (before + [s])[i] == x && (before + [s])[|before|] == s;
      }
    } else if forall x <- before :: KeyLess(x, s) {
      ArrangedAdd(c, before, fs, d, s);
    }
  }

  // ----- the directory as an object -----

  /**
   * `disk`: the files, and a ghost record of every step taken since `origin`.
   * A crash after any number of steps leaves DoAll(origin, log[..n]).
   */
  class Directory {
    const codec: Codec
    var files: FS
    ghost const origin: FS
    ghost var log: seq<Step>

    ghost predicate Valid()
      reads this
    {
      files == DoAll(origin, log)
    }

    constructor (codec: Codec, files: FS)
      ensures Valid() && this.codec == codec && this.files == files && log == []
    {
      this.codec := codec;
      this.files := files;
      origin := files;
      log := [];
    }

    method Take(step: Step)
      requires Valid()
      modifies this
      ensures Valid() && log == old(log) + [step] && files == Do(old(files), step)
    {
      DoAppend(origin, log, [step]);
      DoOne(files, step, []);
      files := Do(files, step);
      log := log + [step];
    }

    method WriteFile(tmp: File, file: File, data: seq<byte>)
      requires Valid()
      modifies this
      ensures Valid() && log == old(log) + WriteSteps(tmp, file, data)
    {
      var n := 0;
      while n <= |data|
        invariant 0 <= n <= |data| + 1
        invariant Valid() && log == old(log) + Puts(tmp, data)[..n]
      {
        assert Puts(tmp, data)[..n + 1] == Puts(tmp, data)[..n] + [Put(tmp, data[..n])];
        Take(Put(tmp, data[..n]));
        n := n + 1;
      }
      assert Puts(tmp, data)[..n] == Puts(tmp, data);
      Take(Move(tmp, file));
    }

    /** `disk.write` */
    method Write(s: Stored)
      requires Valid()
      modifies this
      ensures Valid() && log == old(log) + SaveSteps(codec, s)
      ensures files == DoAll(old(files), SaveSteps(codec, s))
    {
      WriteFile(EmlTmp(s.id), Eml(s.id), s.raw);
      WriteFile(JsonTmp(s.id), Json(s.id), codec.encode(s.meta));
      assert log == old(log) + SaveSteps(codec, s);
      DoAppend(origin, old(log), SaveSteps(codec, s));
    }

    /** `disk.remove` */
    method Remove(ids: seq<string>)
      requires Valid()
      modifies this
      ensures Valid() && log == old(log) + RemoveSteps(ids)
      ensures files == DoAll(old(files), RemoveSteps(ids))
    {
      var n := 0;
      while n < |ids|
        invariant 0 <= n <= |ids|
        invariant Valid() && log == old(log) + RemoveSteps(ids[..n])
      {
        Take(Drop(Json(ids[n])));
        Take(Drop(Eml(ids[n])));
        RemoveStepsMore(ids[..n], ids[n]);
        assert ids[..n + 1] == ids[..n] + [ids[n]];
        n := n + 1;
      }
      assert ids[..n] == ids;
      DoAppend(origin, old(log), RemoveSteps(ids));
    }
  }

  lemma {:induction false} RemoveStepsAppend(a: seq<string>, b: seq<string>)
    ensures RemoveSteps(a + b) == RemoveSteps(a) + RemoveSteps(b)
  {
    if a == [] {
      assert a + b == b;
    } else {
      RemoveStepsAppend(a[1..], b);
      DropOfAppend(a, 1, b);
      Associative([Drop(Json(a[0])), Drop(Eml(a[0]))], RemoveSteps(a[1..]), RemoveSteps(b));
    }
  }

  lemma RemoveStepsMore(ids: seq<string>, id: string)
    ensures RemoveSteps(ids + [id]) == RemoveSteps(ids) + [Drop(Json(id))] + [Drop(Eml(id))]
  {
    RemoveStepsAppend(ids, [id]);
    assert [id][1..] == [];
  }
}
