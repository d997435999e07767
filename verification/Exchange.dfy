/**
 Recursive doubling for any number of participants: the communication pattern shared by
 MP_Global and MP_Global_gather (MP_Lite/mpcore.c).

 In round k every participant exchanges with the one whose rank differs in bit k.  Ranks
 from n up to the next power of two are virtual; where a virtual rank would have to send,
 the last real rank n-1 sends in its stead.

 The second half runs the pattern asynchronously: every participant goes through its own
 sends and receives at its own pace.
 */
module Exchange {
  import opened Common
  import opened Binary

  // ------------------------------------------------------------------ the pattern

  // trial[v] != 0 in round k: the aligned block of 2^k ranks around v has a real rank in it.
  predicate Occupied(v: nat, k: nat, n: nat)
  {
    Lo(v, k) < n
  }

  // Whom participant r waits for in round k.
  function Source(r: nat, k: nat, n: nat): (s: Option<nat>)
    requires n > 0
    ensures s.Some? ==> s.value < n
  {
    var p := Xor(r, Pow2(k));
    if !Occupied(p, k, n) then None else if p >= n then Some(n - 1) else Some(p)
  }

  // Whom n-1 sends to in the stead of the virtual ranks from v on.
  function Substituted(v: nat, k: nat, n: nat, m: nat): seq<nat>
    requires n > 0
    decreases m - v
  {
    if v >= m then []
    else
      (if Occupied(v, k, n) && Xor(v, Pow2(k)) < n - 1 then [Xor(v, Pow2(k))] else [])
      + Substituted(v + 1, k, n, m)
  }

  // Whom participant s sends to in round k, in order; m is the next power of two.
  function Dests(s: nat, k: nat, n: nat, m: nat): seq<nat>
    requires n > 0
  {
    (if Xor(s, Pow2(k)) < n then [Xor(s, Pow2(k))] else [])
    + if s == n - 1 then Substituted(n, k, n, m) else []
  }

  ghost predicate NoRepeats(s: seq<nat>)
  {
    forall i, j :: 0 <= i < j < |s| ==> s[i] != s[j]
  }

  lemma {:induction false} SubstitutedAre(v: nat, k: nat, n: nat, m: nat, d: nat)
    requires n > 0
    ensures d in Substituted(v, k, n, m) <==>
              d < n - 1 && v <= Xor(d, Pow2(k)) < m && Occupied(Xor(d, Pow2(k)), k, n)
    decreases m - v
  {
    PartnerBack(d, k);
    if v >= m {
    } else {
      PartnerBack(v, k);
      SubstitutedAre(v + 1, k, n, m, d);
    }
  }

  lemma {:induction false} SubstitutedOnce(v: nat, k: nat, n: nat, m: nat)
    requires n > 0
    ensures NoRepeats(Substituted(v, k, n, m))
    decreases m - v
  {
    if v >= m {
    } else {
      SubstitutedOnce(v + 1, k, n, m);
      PartnerBack(v, k);
      SubstitutedAre(v + 1, k, n, m, Xor(v, Pow2(k)));
      assert Xor(v, Pow2(k)) !in Substituted(v + 1, k, n, m);
    }
  }

  // A virtual rank whose block is occupied lies in the block of n-1.
  lemma LastStandsIn(p: nat, k: nat, n: nat)
    requires 0 < n <= p && Occupied(p, k, n)
    ensures Lo(p, k) == Lo(n - 1, k)
  {
    InOwnBlock(p, k);
    BlockIs(p, n - 1, k);
  }

  // The blocks of sender and receiver are siblings.
  lemma SourceBlock(r: nat, k: nat, n: nat)
    requires n > 0 && Source(r, k, n).Some?
    ensures var s := Source(r, k, n).value;
      Lo(s, k) == Lo(Xor(r, Pow2(k)), k) && Lo(s, k) != Lo(r, k) && Lo(s, k + 1) == Lo(r, k + 1) && s != r
  {
    var p := Xor(r, Pow2(k));
    PartnerIs(r, k);
    if p >= n {
      LastStandsIn(p, k, n);
      OneLevelUp(p, n - 1, k);
    }
  }

  // What is sent is exactly what is waited for: s sends to r in round k, and sends once, if
  // and only if r waits for s in round k.
  lemma SendsMatchReceives(r: nat, s: nat, k: nat, n: nat, K: nat)
    requires r < n && s < n <= Pow2(K) && k < K
    ensures r in Dests(s, k, n, Pow2(K)) <==> Source(r, k, n) == Some(s)
    ensures NoRepeats(Dests(s, k, n, Pow2(K)))
  {
    var m, p, q := Pow2(K), Xor(r, Pow2(k)), Xor(s, Pow2(k));
    PartnerBack(r, k);
    PartnerBack(s, k);
    PartnerBelow(r, k, K);
    SubstitutedAre(n, k, n, m, r);
    SubstitutedAre(n, k, n, m, q);
    SubstitutedOnce(n, k, n, m);
    if p < n {
      InOwnBlock(p, k);
    } else if r == n - 1 && Occupied(p, k, n) {
      LastStandsIn(p, k, n);
      PartnerBlocks(r, k);
      assert false;
    }
  }

  // No participant sends to another in two different rounds, so that messages between two
  // participants cannot be mixed up whatever their tags are.
  lemma PairMeetsOnce(r: nat, s: nat, j: nat, k: nat, n: nat)
    requires n > 0 && Source(r, j, n) == Some(s) && Source(r, k, n) == Some(s)
    ensures j == k
  {
    SourceBlock(r, j, n);
    SourceBlock(r, k, n);
    if j < k { SharedStays(r, s, j + 1, k); }
    if k < j { SharedStays(r, s, k + 1, j); }
  }
}
