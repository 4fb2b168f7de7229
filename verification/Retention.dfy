/**
 * Which messages survive the two limits of the store.  Only sizes matter, so
 * this part is about sequences of sizes, oldest first.
 */
module Retention {
  import opened Seqs

  /** `maxBytes` not above zero means no byte limit; `New` raises `max` to at least one. */
  datatype AnyLimits = Limits(max: nat, maxBytes: int)
  type Limits = l: AnyLimits | l.max >= 1 witness Limits(1, 0)

  function Total(sizes: seq<nat>): nat {
    if sizes == [] then 0 else sizes[0] + Total(sizes[1..])
  }

  /** Nothing has to go: the newest message alone is always allowed. */
  predicate Fits(sizes: seq<nat>, lim: Limits) {
    && |sizes| <= lim.max
    && !(lim.maxBytes > 0 && Total(sizes) > lim.maxBytes && |sizes| > 1)
  }

  /** How many of the oldest go. */
  function Dropped(sizes: seq<nat>, lim: Limits): (k: nat)
    ensures k <= |sizes|
    ensures Fits(sizes[k..], lim)
  {
    if Fits(sizes, lim) then 0 else 1 + Dropped(sizes[1..], lim)
  }

  lemma {:induction false} TotalAppend(a: seq<nat>, b: seq<nat>)
    ensures Total(a + b) == Total(a) + Total(b)
  {
    if a == [] {
      assert a + b == b;
    } else {
      TotalAppend(a[1..], b);
      DropOfAppend(a, 1, b);
    }
  }

  lemma FitsPart(a: seq<nat>, b: seq<nat>, c: seq<nat>, lim: Limits)
    requires Fits(a + b + c, lim)
    ensures Fits(b, lim)
  {
    TotalAppend(a + b, c);
    TotalAppend(a, b);
  }

  lemma {:induction false} NewestSurvives(sizes: seq<nat>, lim: Limits)
    requires sizes != []
    ensures Dropped(sizes, lim) < |sizes|
  {
    if !Fits(sizes, lim) {
      assert |sizes| > 1;
      NewestSurvives(sizes[1..], lim);
    }
  }

  /** No longer suffix than the kept one fits. */
  lemma {:induction false} DoomedDoNotFit(sizes: seq<nat>, j: nat, lim: Limits)
    requires j < Dropped(sizes, lim)
    ensures !Fits(sizes[j..], lim)
  {
    if j == 0 {
      assert sizes[0..] == sizes;
    } else {
      DoomedDoNotFit(sizes[1..], j - 1, lim);
      assert sizes[j..] == sizes[1..][j - 1..];
    }
  }

  lemma ShorterFits(sizes: seq<nat>, k: nat, j: nat, lim: Limits)
    requires k <= j <= |sizes| && Fits(sizes[k..], lim)
    ensures Fits(sizes[j..], lim)
  {
    assert sizes[k..] == sizes[k..j] + sizes[j..] + [];
    FitsPart(sizes[k..j], sizes[j..], [], lim);
  }

  /** The kept part is the longest suffix that fits. */
  lemma LongestSuffix(sizes: seq<nat>, j: nat, lim: Limits)
    requires j <= |sizes|
    ensures Fits(sizes[j..], lim) <==> Dropped(sizes, lim) <= j
  {
    if Dropped(sizes, lim) <= j {
      ShorterFits(sizes, Dropped(sizes, lim), j, lim);
    } else {
      DoomedDoNotFit(sizes, j, lim);
    }
  }

  /** Dropping some of the doomed ones first changes nothing. */
  lemma {:induction false} DropInSteps(sizes: seq<nat>, i: nat, lim: Limits)
    requires i <= Dropped(sizes, lim)
    ensures Dropped(sizes[i..], lim) == Dropped(sizes, lim) - i
  {
    if i == 0 {
      assert sizes[0..] == sizes;
    } else {
      DropInSteps(sizes[1..], i - 1, lim);
      assert sizes[i..] == sizes[1..][i - 1..];
    }
  }

  /** What had to go without the later messages has to go with them. */
  lemma DroppedGrows(a: seq<nat>, b: seq<nat>, lim: Limits)
    ensures Dropped(a, lim) <= Dropped(a + b, lim)
  {
    var k := Dropped(a + b, lim);
    if k < |a| {
      assert (a + b)[k..] == [] + a[k..] + b;
      FitsPart([], a[k..], b, lim);
      LongestSuffix(a, k, lim);
    }
  }

  /** Evicting after every save ends where evicting once at the end would. */
  lemma PathIndependent(a: seq<nat>, b: seq<nat>, lim: Limits)
    ensures Dropped(a, lim) + Dropped(a[Dropped(a, lim)..] + b, lim) == Dropped(a + b, lim)
  {
    var k := Dropped(a, lim);
    DroppedGrows(a, b, lim);
    DropInSteps(a + b, k, lim);
    DropOfAppend(a, k, b);
  }

  /** Tighter limits keep fewer: exactly the newest that still fit. */
  lemma {:induction false} TighterKeepsFewer(sizes: seq<nat>, lim: Limits, tight: Limits)
    requires tight.max <= lim.max
    requires lim.maxBytes > 0 ==> 0 < tight.maxBytes <= lim.maxBytes
    ensures Dropped(sizes, lim) <= Dropped(sizes, tight)
    ensures Dropped(sizes[Dropped(sizes, lim)..], tight) == Dropped(sizes, tight) - Dropped(sizes, lim)
  {
    LongestSuffix(sizes, Dropped(sizes, tight), lim);
    DropInSteps(sizes, Dropped(sizes, lim), tight);
  }

  /**
   * From which entry on everything is kept: the earliest one from which on
   * there are no more entries than allowed and, unless it is the newest or
   * bytes do not count, no more bytes.
   */
  lemma KeptFrom(sizes: seq<nat>, j: nat, lim: Limits)
    requires j <= |sizes|
    ensures Dropped(sizes, lim) <= j
       <==> |sizes| - j <= lim.max && (lim.maxBytes <= 0 || |sizes| - j <= 1 || Total(sizes[j..]) <= lim.maxBytes)
  {
    LongestSuffix(sizes, j, lim);
  }

  /** Every entry's size counts once. */
  lemma TotalCounts(sizes: seq<nat>, n: nat)
    ensures Total([]) == 0 && Total(sizes + [n]) == Total(sizes) + n
  {
    TotalAppend(sizes, [n]);
    assert [n][1..] == [];
  }
}
