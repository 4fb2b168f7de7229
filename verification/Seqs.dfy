/** Facts about sequences that the verifier does not find quickly by itself. */
module Seqs {
  lemma Associative<T>(a: seq<T>, b: seq<T>, c: seq<T>)
    ensures a + b + c == a + (b + c)
  {
  }

  lemma DropOfAppend<T>(a: seq<T>, k: nat, b: seq<T>)
    requires k <= |a|
    ensures (a + b)[k..] == a[k..] + b
  {
  }

  lemma SliceOfTake<T>(s: seq<T>, n: nat, i: nat, j: nat)
    requires i <= j <= n <= |s|
    ensures s[..n][i..j] == s[i..j] && s[i..][..j - i] == s[i..j]
  {
  }
}
