/**
 The loop at the start of every masked collective (MP_Lite/mpcore.c): number the
 participants, those whose mask entry is 1, in ascending rank order.
 */
module Participants {

  // The ranks below n that take part, in ascending order.
  function Taking(mask: seq<int>, n: nat): seq<nat>
    requires n <= |mask|
  {
    if n == 0 then [] else Taking(mask, n - 1) + if mask[n - 1] == 1 then [n - 1] else []
  }

  lemma {:induction false} TakingAscends(mask: seq<int>, n: nat)
    requires n <= |mask|
    ensures forall i :: 0 <= i < |Taking(mask, n)| ==> Taking(mask, n)[i] < n && mask[Taking(mask, n)[i]] == 1
    ensures forall i, j :: 0 <= i < j < |Taking(mask, n)| ==> Taking(mask, n)[i] < Taking(mask, n)[j]
  {
    if n == 0 {
    } else {
      TakingAscends(mask, n - 1);
    }
  }

  lemma {:induction false} TakingAll(mask: seq<int>, n: nat, r: nat)
    requires r < n <= |mask| && mask[r] == 1
    ensures |Taking(mask, r)| < |Taking(mask, n)| && Taking(mask, n)[|Taking(mask, r)|] == r
  {
    if r == n - 1 {
    } else {
      TakingAll(mask, n - 1, r);
    }
  }

  // vproc maps virtual ranks to processes; myvproc is the virtual rank of this process.
  method Number(mask: seq<int>, myproc: nat) returns (vproc: seq<nat>, myvproc: nat)
    requires myproc < |mask| && mask[myproc] == 1
    ensures forall r: nat :: r in vproc <==> r < |mask| && mask[r] == 1
    ensures forall i, j :: 0 <= i < j < |vproc| ==> vproc[i] < vproc[j]
    ensures vproc == Taking(mask, |mask|)
    ensures myvproc < |vproc| && vproc[myvproc] == myproc
  {
    vproc, myvproc := [], myproc;
    var i := 0;
    while i < |mask|
      invariant 0 <= i <= |mask| && vproc == Taking(mask, i)
      invariant myproc < i ==> myvproc == |Taking(mask, myproc)|
    {
      if i == myproc { myvproc := |vproc|; }
      if mask[i] == 1 { vproc := vproc + [i]; }
      i := i + 1;
    }
    TakingAll(mask, |mask|, myproc);
    TakingAscends(mask, |mask|);
    forall r: nat | r < |mask| && mask[r] == 1 ensures r in vproc {
      TakingAll(mask, |mask|, r);
    }
  }
}
