/**
 * The random `shuffle` helpers of the knockout copies (`arr.sort(() => Math.random() - 0.5)`).
 * The random comparator is replaced by an explicit list of transpositions chosen by the
 * environment; a transposition that names an index outside the sequence is ignored.
 */
module Shuffle {

  /** Exchange the elements at `i` and `j`; out-of-range indices leave `s` as it is. */
  function SwapAt<T>(s: seq<T>, i: nat, j: nat): (r: seq<T>)
    ensures |r| == |s|
    ensures multiset(r) == multiset(s)
  {
    if i < |s| && j < |s| then s[i := s[j]][j := s[i]] else s
  }

  /** Apply the transpositions in order. */
  function Shuffle<T>(s: seq<T>, swaps: seq<(nat, nat)>): (r: seq<T>)
    ensures |r| == |s|
    ensures multiset(r) == multiset(s)
    decreases |swaps|
  {
    if swaps == [] then s else Shuffle(SwapAt(s, swaps[0].0, swaps[0].1), swaps[1..])
  }

  /**
   * The transposition lists reach every permutation: whatever order a random comparator
   * could leave `s` in, some `swaps` yields it. So `Shuffle` loses no behaviour of the source.
   */
  lemma {:induction false} ShuffleReachesEvery<T>(s: seq<T>, r: seq<T>)
    requires multiset(r) == multiset(s)
    ensures exists swaps :: Shuffle(s, swaps) == r
  {
    assert |r| == |s| by {
      assert |multiset(r)| == |r| && |multiset(s)| == |s|;
    }
    FixFrom(s, r, 0);
  }

  /** Positions below `k` already agree; the rest is put in place one transposition at a time. */
  lemma {:induction false} FixFrom<T>(s: seq<T>, r: seq<T>, k: nat)
    requires multiset(r) == multiset(s)
    requires |r| == |s| && k <= |s| && s[..k] == r[..k]
    ensures exists swaps :: Shuffle(s, swaps) == r
    decreases |s| - k
  {
    if k == |s| {
      assert s == s[..k] && r == r[..k];
      assert Shuffle(s, []) == r;
    } else {
      var j := SwapPartner(s, r, k);
      var s' := SwapAt(s, k, j);
      FixFrom(s', r, k + 1);
      var swaps' :| Shuffle(s', swaps') == r;
      var swaps := [(k, j)] + swaps';
      assert swaps[1..] == swaps';
      assert Shuffle(s, swaps) == r;
    }
  }

  /** Sequences with equal multisets that agree below `k` have equal multisets from `k` on. */
  lemma SuffixMultiset<T>(s: seq<T>, r: seq<T>, k: nat)
    requires multiset(r) == multiset(s)
    requires |r| == |s| && k <= |s| && s[..k] == r[..k]
    ensures multiset(s[k..]) == multiset(r[k..])
  {
    assert s == s[..k] + s[k..];
    assert r == r[..k] + r[k..];
    assert multiset(s) == multiset(s[..k]) + multiset(s[k..]);
    assert multiset(r) == multiset(r[..k]) + multiset(r[k..]);
    forall x ensures multiset(s[k..])[x] == multiset(r[k..])[x] {
      assert multiset(s)[x] == multiset(s[..k])[x] + multiset(s[k..])[x];
      assert multiset(r)[x] == multiset(r[..k])[x] + multiset(r[k..])[x];
    }
  }

  /** Some position at or after `k` holds `r[k]`; exchanging it with `k` extends the agreement by one. */
  lemma SwapPartner<T>(s: seq<T>, r: seq<T>, k: nat) returns (j: nat)
    requires multiset(r) == multiset(s)
    requires |r| == |s| && k < |s| && s[..k] == r[..k]
    ensures k <= j < |s| && SwapAt(s, k, j)[..k + 1] == r[..k + 1]
  {
    SuffixMultiset(s, r, k);
    assert r[k] == r[k..][0];
    assert r[k] in multiset(r[k..]);
    var j' :| 0 <= j' < |s[k..]| && s[k..][j'] == r[k];
    j := k + j';
    var s' := SwapAt(s, k, j);
    forall i | 0 <= i < k + 1 ensures s'[i] == r[i] {
      if i < k { assert s[..k][i] == r[..k][i]; }
    }
  }
}
