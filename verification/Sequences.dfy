// Facts about sequences that the other modules share.
module Sequences {

  lemma Associative<T>(a: seq<T>, b: seq<T>, c: seq<T>)
    ensures (a + b) + c == a + (b + c)
  {
  }

  lemma SliceSnoc<T>(s: seq<T>, lo: nat, hi: nat)
    requires lo <= hi < |s|
    ensures s[lo..hi + 1] == s[lo..hi] + [s[hi]]
  {
  }

  lemma SliceOfDrop<T>(s: seq<T>, from: nat, lo: nat, hi: nat)
    requires lo <= hi && from + hi <= |s|
    ensures s[from..][lo..hi] == s[from + lo..from + hi]
  {
  }

  lemma SliceEnds<T>(s: seq<T>, lo: nat, hi: nat)
    requires lo < hi <= |s|
    ensures s[lo..hi][0] == s[lo] && s[lo..hi][hi - lo - 1] == s[hi - 1]
  {
  }

  lemma DropOfTakeAt<T>(s: seq<T>, n: nat, k: nat, i: nat)
    requires k <= i < n <= |s|
    ensures s[..n][k..][i - k] == s[i]
  {
  }

  lemma DropOfDrop<T>(s: seq<T>, from: nat, n: nat)
    requires from + n <= |s|
    ensures s[from..][n..] == s[from + n..]
  {
  }

  lemma TakeIsAll<T>(s: seq<T>, n: nat)
    requires n <= |s|
    ensures s[..n] == s <==> n == |s|
  {
    assert |s[..n]| == n;
  }

  lemma TakePlus<T>(s: seq<T>, n: nat, m: nat)
    requires n + m <= |s|
    ensures s[..n] + s[n..n + m] == s[..n + m]
  {
  }

  lemma TakeIsPrefix<T>(s: seq<T>, n: nat)
    requires n <= |s|
    ensures s[..n] <= s && |s[..n]| == n
  {
  }

  lemma SliceOfTake<T>(s: seq<T>, n: nat, lo: nat, hi: nat)
    requires lo <= hi <= n <= |s|
    ensures s[..n][lo..hi] == s[lo..hi]
  {
  }

  lemma TakeOfDrop<T>(s: seq<T>, n: nat, k: nat)
    requires n + k <= |s|
    ensures s[n..][..k] == s[..n + k][n..]
  {
  }

  lemma TakeOfAppend<T>(a: seq<T>, b: seq<T>)
    ensures (a + b)[..|a|] == a
  {
  }

  lemma PrefixIsAll<T>(a: seq<T>, b: seq<T>)
    requires a <= b && |a| == |b|
    ensures a == b
  {
  }
}
