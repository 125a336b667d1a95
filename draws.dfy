/** Random draws taken as inputs, and drawing cells from a list without replacement. */
module Draws {
  import opened Cells

  /** The values the engine's integer Random.Range(lo, hi) may return: lo inclusive,
      hi exclusive, and lo itself when lo == hi. When lo > hi the engine's choice
      is not modelled and any value is admitted. */
  predicate RangeDraw(lo: int, hi: int, v: int)
  {
    if lo < hi then lo <= v < hi else if lo == hi then v == lo else true
  }

  /** `picks` are the indices successive Random.Range(0, Count) calls return on a list
      of n entries that loses one entry per call. */
  predicate DrawsFit(n: int, picks: seq<int>)
  {
    forall k :: 0 <= k < |picks| ==> RangeDraw(0, n - k, picks[k])
  }

  /** Every pick is a valid index into the list as it stands when the pick is made. */
  predicate IndicesFit(n: int, picks: seq<int>)
  {
    forall k :: 0 <= k < |picks| ==> 0 <= picks[k] < n - k
  }

  /** List.RemoveAt(i): the entry at i goes, and nothing else. */
  function Remove<T>(s: seq<T>, i: int): (r: seq<T>)
    requires 0 <= i < |s|
    ensures |r| == |s| - 1
    ensures multiset(r) + multiset{s[i]} == multiset(s)
  {
    assert s == s[..i] + [s[i]] + s[i + 1..];
    s[..i] + s[i + 1..]
  }

  /** After RemoveAt(i) the entries before i stay where they were and those after i move down one. */
  lemma RemoveKeepsOrder<T>(s: seq<T>, i: int)
    requires 0 <= i < |s|
    ensures forall k :: 0 <= k < i ==> Remove(s, i)[k] == s[k]
    ensures forall k :: i <= k < |s| - 1 ==> Remove(s, i)[k] == s[k + 1]
  {
  }

  /** Removing from a duplicate-free list takes out exactly the entry at i. */
  lemma RemoveDistinct<T>(s: seq<T>, i: int)
    requires 0 <= i < |s|
    requires NoDup(s)
    ensures NoDup(Remove(s, i))
    ensures forall v :: v in Remove(s, i) <==> v in s && v != s[i]
  {
    var r := Remove(s, i);
    assert s == r[..i] + [s[i]] + r[i..];
    NoDupSplit(r[..i] + [s[i]], r[i..]);
    NoDupSplit(r[..i], [s[i]]);
    NoDupConcat(r[..i], r[i..]);
    assert r == r[..i] + r[i..];
  }

  /** The list left after removing, one after another, the entries the picks point at. */
  function Remaining<T>(pool: seq<T>, picks: seq<int>): (r: seq<T>)
    requires IndicesFit(|pool|, picks)
    ensures |r| == |pool| - |picks|
    decreases |picks|
  {
    if picks == [] then pool
    else
      var init := picks[..|picks| - 1];
      Remove(Remaining(pool, init), picks[|picks| - 1])
  }

  /** The entries those removals return, in the order they are drawn. */
  function Drawn<T>(pool: seq<T>, picks: seq<int>): (d: seq<T>)
    requires IndicesFit(|pool|, picks)
    ensures |d| == |picks|
    decreases |picks|
  {
    if picks == [] then []
    else
      var init := picks[..|picks| - 1];
      Drawn(pool, init) + [Remaining(pool, init)[picks[|picks| - 1]]]
  }

  /** One more draw removes the entry at the pick from what the earlier draws left, and returns it. */
  lemma DrawStep<T>(pool: seq<T>, picks: seq<int>, i: nat)
    requires i < |picks|
    requires IndicesFit(|pool|, picks[..i + 1])
    ensures IndicesFit(|pool|, picks[..i])
    ensures 0 <= picks[i] < |Remaining(pool, picks[..i])|
    ensures Remaining(pool, picks[..i + 1]) == Remove(Remaining(pool, picks[..i]), picks[i])
    ensures Drawn(pool, picks[..i + 1]) == Drawn(pool, picks[..i]) + [Remaining(pool, picks[..i])[picks[i]]]
  {
    assert picks[..i + 1][..i] == picks[..i];
    assert picks[..i + 1][i] == picks[i];
  }

  /** While the list is not empty, a draw is a valid index. */
  lemma DrawsFitIndices(n: int, picks: seq<int>, m: nat)
    requires DrawsFit(n, picks)
    requires m <= |picks| && m <= n
    ensures IndicesFit(n, picks[..m])
  {
    forall k | 0 <= k < m ensures 0 <= picks[..m][k] < n - k {
      assert RangeDraw(0, n - k, picks[k]);
    }
  }

  /** Drawing loses nothing and invents nothing: drawn and remaining entries
      together are the original list, up to order. */
  lemma {:induction false} DrawConserves<T>(pool: seq<T>, picks: seq<int>)
    requires IndicesFit(|pool|, picks)
    ensures multiset(Drawn(pool, picks)) + multiset(Remaining(pool, picks)) == multiset(pool)
    decreases |picks|
  {
    if picks != [] {
      var init := picks[..|picks| - 1];
      DrawConserves(pool, init);
    }
  }

  /** From a duplicate-free list, successive draws never return an entry twice,
      every drawn entry comes from the list, and none of them stays behind. */
  lemma DrawnDistinct<T>(pool: seq<T>, picks: seq<int>)
    requires IndicesFit(|pool|, picks)
    requires NoDup(pool)
    ensures NoDup(Drawn(pool, picks) + Remaining(pool, picks))
    ensures NoDup(Drawn(pool, picks)) && NoDup(Remaining(pool, picks))
    ensures forall v :: v in Drawn(pool, picks) ==> v in pool && v !in Remaining(pool, picks)
    ensures forall v :: v in Remaining(pool, picks) ==> v in pool
  {
    var d, r := Drawn(pool, picks), Remaining(pool, picks);
    DrawConserves(pool, picks);
    NoDupPermutation(pool, d + r);
    NoDupSplit(d, r);
    forall v | v in d + r ensures v in pool {
      assert v in multiset(d + r);
    }
  }
}
