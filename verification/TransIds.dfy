/**
 The transaction ids of rendezvous receives (MP_Lite/ib.c): ib_get_trans_id searches
 round the list from the id it gave last.
 */
module TransIds {

  const SPACE := 512   // MP_TRANS_ID_SPACE
  const MIN_ID := 1    // MP_TRANS_MIN_ID
  const MAX_ID := MIN_ID + SPACE - 1

  // The index `step` places after `last`.
  function After(last: nat, step: nat): (i: nat)
    requires last < SPACE && step < SPACE
    ensures i < SPACE && (i == last <==> step == 0)
  {
    if last + step < SPACE then last + step else last + step - SPACE
  }

  lemma OnePlaceOn(last: nat, step: nat)
    requires last < SPACE && step < SPACE
    ensures (After(last, step) + 1) % SPACE == if step + 1 < SPACE then After(last, step + 1) else last
  {
  }

  // Every index is reached, and only once.
  lemma Reached(last: nat, i: nat) returns (step: nat)
    requires last < SPACE && i < SPACE
    ensures step < SPACE && After(last, step) == i
    ensures forall s: nat :: s < SPACE && After(last, s) == i ==> s == step
  {
    step := if last <= i then i - last else i - last + SPACE;
  }

  // The index given next: the first free one after `last`, or SPACE if all others are used.
  function NextFree(used: seq<bool>, last: nat, step: nat): (i: nat)
    requires |used| == SPACE && last < SPACE && 1 <= step <= SPACE
    ensures i <= SPACE && (i < SPACE ==> !used[i] && i != last)
    decreases SPACE - step
  {
    if step == SPACE then SPACE
    else if !used[After(last, step)] then After(last, step)
    else NextFree(used, last, step + 1)
  }

  lemma {:induction false} NextFreeFails(used: seq<bool>, last: nat, step: nat)
    requires |used| == SPACE && last < SPACE && 1 <= step <= SPACE
    ensures NextFree(used, last, step) == SPACE <==>
      forall s: nat :: step <= s < SPACE ==> used[After(last, s)]
    decreases SPACE - step
  {
    if step == SPACE {
    } else {
      NextFreeFails(used, last, step + 1);
    }
  }

  // There is no id to give exactly when every id but the last one given is in use.
  lemma FailsOnlyWhenFull(used: seq<bool>, last: nat)
    requires |used| == SPACE && last < SPACE
    ensures NextFree(used, last, 1) == SPACE <==> forall i: nat :: i < SPACE && i != last ==> used[i]
  {
    NextFreeFails(used, last, 1);
    forall i: nat | i < SPACE && i != last && NextFree(used, last, 1) == SPACE ensures used[i] {
      var s := Reached(last, i);
      assert 1 <= s;
    }
  }

  lemma {:induction false} SearchEnds(used: seq<bool>, last: nat, from: nat, step: nat)
    requires |used| == SPACE && last < SPACE && 1 <= from <= step <= SPACE
    requires forall s: nat :: from <= s < step ==> used[After(last, s)]
    requires step < SPACE ==> !used[After(last, step)]
    ensures NextFree(used, last, from) == if step < SPACE then After(last, step) else SPACE
    decreases step - from
  {
    if from == step {
    } else {
      SearchEnds(used, last, from + 1, step);
    }
  }

  // How far i is above `last`, going round.
  function Distance(last: nat, i: nat): int { if last <= i then i - last else i - last + SPACE }

  // The id given is free, and all those between the last one given and it are in use.
  lemma {:induction false} NextFreeIsNearest(used: seq<bool>, last: nat, step: nat)
    requires |used| == SPACE && last < SPACE && 1 <= step <= SPACE
    ensures var i := NextFree(used, last, step);
      i < SPACE ==>
        !used[i] && forall j: nat :: j < SPACE && step <= Distance(last, j) < Distance(last, i) ==> used[j]
    decreases SPACE - step
  {
    if step == SPACE {
    } else {
      NextFreeIsNearest(used, last, step + 1);
    }
  }

  class Ids {
    const list: array<bool>
    var current: nat

    ghost predicate Valid()
      reads this, list
    {
      list.Length == SPACE && current < SPACE
    }

    constructor ()
      ensures Valid() && fresh(list) && forall i :: 0 <= i < SPACE ==> !list[i]
    {
      list := new bool[SPACE](_ => false);
      current := 0;
    }

    // The loop of ib_get_trans_id.
    method Search() returns (curr: nat)
      requires Valid()
      ensures curr < SPACE
      ensures NextFree(list[..], current, 1) == if curr == current then SPACE else curr
    {
      var last := current;
      var step := 1;
      curr := (last + 1) % SPACE;
      OnePlaceOn(last, 0);
      while curr != last && list[curr]
        invariant 1 <= step <= SPACE && curr < SPACE
        invariant curr == if step < SPACE then After(last, step) else last
        invariant forall s: nat :: 1 <= s < step ==> list[After(last, s)]
        decreases SPACE - step
      {
        OnePlaceOn(last, step);
        curr := (curr + 1) % SPACE;
        step := step + 1;
      }
      SearchEnds(list[..], last, 1, step);
    }

    // ib_get_trans_id; not ok is the error exit.
    method Get() returns (ok: bool, id: int)
      requires Valid()
      modifies this, list
      ensures Valid()
      ensures ok <==> NextFree(old(list[..]), old(current), 1) < SPACE
      ensures !ok ==> list[..] == old(list[..]) && current == old(current)
      ensures ok ==> MIN_ID <= id <= MAX_ID && !old(list[id - MIN_ID])
      ensures ok ==> current == id - MIN_ID == NextFree(old(list[..]), old(current), 1)
      ensures ok ==> list[..] == old(list[..])[id - MIN_ID := true]
    {
      var curr := Search();
      if curr == current { return false, 0; }
      list[curr] := true;
      current := curr;
      ok, id := true, MIN_ID + curr;
    }

    // ib_free_trans_id
    method Free(id: int)
      requires Valid() && MIN_ID <= id <= MAX_ID
      modifies list
      ensures Valid() && list[..] == old(list[..])[id - MIN_ID := false]
    {
      list[id - MIN_ID] := false;
    }
  }
}
