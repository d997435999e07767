/**
 The Cartesian routines (MP_Lite/mpcore.c): ranks and coordinates on a mesh whose
 dimensions multiply up to the number of processes, and shifts along one dimension.
 Integers do not overflow here.
 */
module Cartesian {

  function Prod(dim: seq<nat>): nat
  {
    if dim == [] then 1 else dim[0] * Prod(dim[1..])
  }

  ghost predicate Mesh(dim: seq<nat>) { forall n :: 0 <= n < |dim| ==> dim[n] > 0 }

  ghost predicate InMesh(coord: seq<int>, dim: seq<nat>)
  {
    |coord| == |dim| && forall n :: 0 <= n < |dim| ==> 0 <= coord[n] < dim[n]
  }

  // Mixed-radix digits, the first dimension running fastest, and their value.
  function Coords(rank: nat, dim: seq<nat>): (coord: seq<int>)
    requires forall n :: 0 <= n < |dim| ==> dim[n] > 0
    ensures |coord| == |dim|
    decreases dim
  {
    if dim == [] then [] else [rank % dim[0]] + Coords(rank / dim[0], dim[1..])
  }

  function Rank(coord: seq<int>, dim: seq<nat>): int
    requires |coord| == |dim|
  {
    if dim == [] then 0 else coord[0] + dim[0] * Rank(coord[1..], dim[1..])
  }

  // ------------------------------------------------------------------ arithmetic

  lemma DivMod(x: int, k: nat, q: int, r: int)
    requires k > 0 && x == k * q + r && 0 <= r < k
    ensures x / k == q && x % k == r
  {
    var e := x / k - q;
    assert k * (x / k) + x % k == x;
    assert k * e == r - x % k by { assert k * e == k * (x / k) - k * q; }
    if e >= 1 {
      Scaled(1, e, k);
    } else if e <= -1 {
      Scaled(e, -1, k);
    }
  }

  lemma Scaled(a: int, b: int, k: nat)
    requires a <= b
    ensures k * a <= k * b
  {
  }

  // ------------------------------------------------------------------ ranks and coordinates

  lemma {:induction false} CoordsInMesh(rank: nat, dim: seq<nat>)
    requires Mesh(dim)
    ensures InMesh(Coords(rank, dim), dim)
    decreases dim
  {
    if dim == [] {
    } else {
      CoordsInMesh(rank / dim[0], dim[1..]);
    }
  }

  lemma QuotientBelow(rank: nat, a: nat, b: nat)
    requires a > 0 && rank < a * b
    ensures rank / a < b
  {
    var q := rank / a;
    if q >= b { Scaled(b, q, a); }
  }

  lemma RankOfCons(x: int, rest: seq<int>, dim: seq<nat>)
    requires |rest| + 1 == |dim|
    ensures Rank([x] + rest, dim) == x + dim[0] * Rank(rest, dim[1..])
  {
    assert ([x] + rest)[1..] == rest;
  }

  lemma Recombined(x: nat, k: nat)
    requires k > 0
    ensures x % k + k * (x / k) == x
  {
  }

  // The rank of the coordinates of a rank is that rank ...
  lemma {:induction false} RankOfCoords(rank: nat, dim: seq<nat>)
    requires Mesh(dim) && rank < Prod(dim)
    ensures Rank(Coords(rank, dim), dim) == rank
    decreases dim
  {
    if dim == [] {
    } else {
      QuotientBelow(rank, dim[0], Prod(dim[1..]));
      RankOfCoords(rank / dim[0], dim[1..]);
      var digit, rest := rank % dim[0], Coords(rank / dim[0], dim[1..]);
      assert Coords(rank, dim) == [digit] + rest;
      RankOfCons(digit, rest, dim);
      Recombined(rank, dim[0]);
    }
  }

  lemma Carry(x: int, y: int, k: nat, p: nat)
    requires 0 <= x < k && 0 <= y < p
    ensures 0 <= x + k * y < k * p
  {
    Scaled(y + 1, p, k);
    Scaled(0, y, k);
  }

  lemma {:induction false} RankInRange(coord: seq<int>, dim: seq<nat>)
    requires InMesh(coord, dim)
    ensures 0 <= Rank(coord, dim) < Prod(dim)
  {
    if dim == [] {
    } else {
      RankInRange(coord[1..], dim[1..]);
      Carry(coord[0], Rank(coord[1..], dim[1..]), dim[0], Prod(dim[1..]));
    }
  }

  // ... and the coordinates of the rank of coordinates are those coordinates: the two are
  // inverse bijections between the mesh and the ranks below the number of processes.
  lemma {:induction false} CoordsOfRank(coord: seq<int>, dim: seq<nat>)
    requires InMesh(coord, dim) && Mesh(dim)
    ensures 0 <= Rank(coord, dim) < Prod(dim) && Coords(Rank(coord, dim), dim) == coord
  {
    RankInRange(coord, dim);
    if dim == [] {
    } else {
      CoordsOfRank(coord[1..], dim[1..]);
      DivMod(Rank(coord, dim), dim[0], Rank(coord[1..], dim[1..]), coord[0]);
      assert [coord[0]] + coord[1..] == coord;
    }
  }

  // ------------------------------------------------------------------ shifts

  // The two results of MP_Cart_Shift for process `me`.
  function Shifted(me: nat, dim: seq<nat>, dir: nat, jump: int): int
    requires dir < |dim| && forall n :: 0 <= n < |dim| ==> dim[n] > 0
    requires Prod(dim[..dir]) * dim[dir] > 0
  {
    var d := Prod(dim[..dir]);
    var dmod := d * dim[dir];
    var base := (me / dmod) * dmod;
    base + (me - base + jump * d + Abs(jump) * dmod) % dmod
  }

  function Abs(x: int): nat { if x < 0 then -x else x }

  lemma {:induction false} ProdPositive(dim: seq<nat>)
    requires Mesh(dim)
    ensures Prod(dim) > 0
  {
    if dim == [] {
    } else {
      ProdPositive(dim[1..]);
      Scaled(1, Prod(dim[1..]), dim[0]);
    }
  }

  lemma TimesPositive(a: nat, b: nat)
    requires a > 0 && b > 0
    ensures a * b > 0
  {
  }

  lemma JumpPositive(dim: seq<nat>, dir: nat)
    requires Mesh(dim) && dir < |dim|
    ensures Prod(dim[..dir]) > 0 && Prod(dim[..dir]) * dim[dir] > 0
  {
    ProdPositive(dim[..dir]);
    TimesPositive(Prod(dim[..dir]), dim[dir]);
  }

  // Changing one coordinate moves the rank by as many jumps.
  lemma {:induction false} RankUpdate(coord: seq<int>, dim: seq<nat>, dir: nat, x: int)
    requires |coord| == |dim| && dir < |dim|
    ensures Rank(coord[dir := x], dim) == Rank(coord, dim) + Prod(dim[..dir]) * (x - coord[dir])
  {
    if dir == 0 {
      assert coord[0 := x][1..] == coord[1..];
      assert dim[..0] == [];
    } else {
      RankUpdate(coord[1..], dim[1..], dir - 1, x);
      assert coord[dir := x][1..] == coord[1..][dir - 1 := x];
      assert dim[..dir][1..] == dim[1..][..dir - 1];
      Expand(dim[0], Rank(coord[1..], dim[1..]), Prod(dim[1..][..dir - 1]), x - coord[dir]);
    }
  }

  lemma Expand(a: nat, b: int, c: nat, e: int)
    ensures a * (b + c * e) == a * b + (a * c) * e
  {
    assert a * (c * e) == (a * c) * e;
  }

  lemma DivDiv(x: nat, a: nat, b: nat)
    requires a > 0 && b > 0
    ensures a * b > 0 && (x / a) / b == x / (a * b)
  {
    TimesPositive(a, b);
    var q, r := (x / a) / b, (x / a) % b;
    assert x / a == b * q + r;
    assert x == a * (x / a) + x % a;
    Expand(a, r, b, q);
    assert a * (r + b * q) == a * r + (a * b) * q;
    Scaled(r + 1, b, a);
    Scaled(0, r, a);
    DivMod(x, a * b, q, a * r + x % a);
  }

  lemma {:induction false} CoordsAt(rank: nat, dim: seq<nat>, n: nat)
    requires Mesh(dim) && n < |dim|
    ensures Prod(dim[..n]) > 0 && Coords(rank, dim)[n] == (rank / Prod(dim[..n])) % dim[n]
    decreases dim
  {
    ProdPositive(dim[..n]);
    if n == 0 {
      assert dim[..0] == [];
    } else {
      CoordsAt(rank / dim[0], dim[1..], n - 1);
      assert dim[..n][1..] == dim[1..][..n - 1];
      DivDiv(rank, dim[0], Prod(dim[1..][..n - 1]));
    }
  }

  // The remainder is taken of a number that is not negative, and is a jump along one
  // dimension: me = base + lo + d * c, with c below dd.
  lemma JumpMod(lo: nat, c: nat, jump: int, d: nat, dd: nat)
    requires lo < d && c < dd
    ensures d * dd > 0
    ensures var x := lo + d * c + jump * d + Abs(jump) * (d * dd);
      x >= 0 && x % (d * dd) == lo + d * ((c + jump) % dd)
  {
    TimesPositive(d, dd);
    var t := c + jump + Abs(jump) * dd;
    var x := lo + d * c + jump * d + Abs(jump) * (d * dd);
    assert x == lo + d * t by {
      assert d * t == d * c + d * jump + d * (Abs(jump) * dd);
      assert d * (Abs(jump) * dd) == Abs(jump) * (d * dd);
    }
    Scaled(1, dd, Abs(jump));
    assert t >= 0;
    Scaled(0, t, d);
    var q, r := t / dd, t % dd;
    assert t == dd * q + r;
    Expand(d, r, dd, q);
    Scaled(r + 1, dd, d);
    Scaled(0, r, d);
    DivMod(x, d * dd, q, lo + d * r);
    SameResidue(c + jump, Abs(jump), dd);
  }

  lemma SameResidue(a: int, k: int, m: nat)
    requires m > 0
    ensures (a + k * m) % m == a % m
  {
    assert a == m * (a / m) + a % m;
    assert m * (a / m + k) == m * (a / m) + m * k;
    DivMod(a + k * m, m, a / m + k, a % m);
  }

  lemma Split(me: nat, d: nat, dd: nat)
    requires d > 0 && dd > 0
    ensures d * dd > 0 && me == (me / (d * dd)) * (d * dd) + me % d + d * ((me / d) % dd)
  {
    DivDiv(me, d, dd);
    var q := me / d;
    assert me == d * q + me % d;
    assert q == dd * (q / dd) + q % dd;
    Expand(d, q % dd, dd, q / dd);
  }

  lemma JumpOnly(me: nat, d: nat, dd: nat, jump: int)
    requires d > 0 && dd > 0
    ensures d * dd > 0
    ensures var c, base := (me / d) % dd, (me / (d * dd)) * (d * dd);
      base + (me - base + jump * d + Abs(jump) * (d * dd)) % (d * dd) == me + d * ((c + jump) % dd - c)
  {
    Split(me, d, dd);
    var c := (me / d) % dd;
    JumpMod(me % d, c, jump, d, dd);
    assert d * ((c + jump) % dd - c) == d * ((c + jump) % dd) - d * c;
  }

  // The coordinates after a shift: one is moved by the distance, modulo the dimension.
  function Moved(coord: seq<int>, dim: seq<nat>, dir: nat, jump: int): seq<int>
    requires |coord| == |dim| && dir < |dim| && dim[dir] > 0
  {
    coord[dir := (coord[dir] + jump) % dim[dir]]
  }

  // A shift moves one coordinate and no other.
  lemma ShiftMoves(me: nat, dim: seq<nat>, dir: nat, jump: int)
    requires Mesh(dim) && dir < |dim| && me < Prod(dim)
    ensures Prod(dim[..dir]) * dim[dir] > 0
    ensures Shifted(me, dim, dir, jump) == Rank(Moved(Coords(me, dim), dim, dir, jump), dim)
  {
    var coord := Coords(me, dim);
    CoordsAt(me, dim, dir);
    RankOfCoords(me, dim);
    RankUpdate(coord, dim, dir, (coord[dir] + jump) % dim[dir]);
    JumpOnly(me, Prod(dim[..dir]), dim[dir], jump);
  }

  lemma Back(c: int, jump: int, m: nat)
    requires 0 <= c < m
    ensures 0 <= (c + jump) % m < m && ((c + jump) % m + -jump) % m == c
  {
    var q := (c + jump) / m;
    assert c + jump == m * q + (c + jump) % m;
    DivMod((c + jump) % m - jump, m, -q, c);
  }

  lemma MovedInMesh(coord: seq<int>, dim: seq<nat>, dir: nat, jump: int)
    requires InMesh(coord, dim) && dir < |dim|
    ensures InMesh(Moved(coord, dim, dir, jump), dim)
    ensures Moved(Moved(coord, dim, dir, jump), dim, dir, -jump) == coord
  {
    Back(coord[dir], jump, dim[dir]);
  }

  // In terms of coordinates alone.
  lemma ShiftCoords(me: nat, dim: seq<nat>, dir: nat, jump: int, n: nat)
    requires Mesh(dim) && dir < |dim| && me < Prod(dim) && n < |dim|
    ensures Prod(dim[..dir]) * dim[dir] > 0 && 0 <= Shifted(me, dim, dir, jump) < Prod(dim)
    ensures Coords(Shifted(me, dim, dir, jump), dim)[n]
      == if n == dir then (Coords(me, dim)[n] + jump) % dim[n] else Coords(me, dim)[n]
  {
    ShiftMoves(me, dim, dir, jump);
    CoordsInMesh(me, dim);
    MovedInMesh(Coords(me, dim), dim, dir, jump);
    CoordsOfRank(Moved(Coords(me, dim), dim, dir, jump), dim);
  }

  lemma MovedBack(coord: seq<int>, dim: seq<nat>, dir: nat, jump: int)
    requires InMesh(coord, dim) && dir < |dim|
    ensures Moved(Moved(coord, dim, dir, jump), dim, dir, -jump) == coord
  {
    Back(coord[dir], jump, dim[dir]);
  }

  // What MP_Cart_Shift calls the destination of one process has that process as its source,
  // and the other way round.
  lemma ShiftsUndo(me: nat, dim: seq<nat>, dir: nat, jump: int)
    requires Mesh(dim) && dir < |dim| && me < Prod(dim)
    ensures Prod(dim[..dir]) * dim[dir] > 0
    ensures 0 <= Shifted(me, dim, dir, jump) < Prod(dim)
    ensures Shifted(Shifted(me, dim, dir, jump), dim, dir, -jump) == me
  {
    var coord := Coords(me, dim);
    var to := Moved(coord, dim, dir, jump);
    ShiftMoves(me, dim, dir, jump);
    CoordsInMesh(me, dim);
    MovedInMesh(coord, dim, dir, jump);
    CoordsOfRank(to, dim);
    ShiftMoves(Rank(to, dim), dim, dir, -jump);
    MovedBack(coord, dim, dir, jump);
    RankOfCoords(me, dim);
  }

  // ------------------------------------------------------------------ the loops

  // MP_Cart_Coords
  method CartCoords(iproc: nat, dim: array<nat>, coord: array<int>)
    requires (forall n :: 0 <= n < dim.Length ==> dim[n] > 0) && coord.Length == dim.Length
    modifies coord
    ensures coord[..] == Coords(iproc, dim[..])
  {
    var r := iproc;
    ghost var all := Coords(iproc, dim[..]);
    for n := 0 to dim.Length
      invariant forall k :: 0 <= k < n ==> coord[k] == all[k]
      invariant all[n..] == Coords(r, dim[n..])
      invariant forall k :: 0 <= k < dim.Length ==> dim[k] == old(dim[k])
    {
      assert dim[n..][1..] == dim[n + 1..];
      assert all[n..][0] == all[n] && all[n..][1..] == all[n + 1..];
      coord[n] := r % dim[n];
      r := r / dim[n];
    }
  }

  // MP_Cart_Rank
  method CartRank(coord: array<int>, dim: array<nat>) returns (rank: int)
    requires coord.Length == dim.Length
    ensures rank == Rank(coord[..], dim[..])
  {
    var m: nat := 1;
    rank := 0;
    for n := 0 to dim.Length
      invariant rank + m * Rank(coord[n..], dim[n..]) == Rank(coord[..], dim[..])
    {
      assert coord[n..][1..] == coord[n + 1..] && dim[n..][1..] == dim[n + 1..];
      Expand(m, coord[n], dim[n], Rank(coord[n + 1..], dim[n + 1..]));
      rank := rank + m * coord[n];
      m := m * dim[n];
    }
  }

  // MP_Cart_Shift; the direction has been checked.
  method CartShift(me: nat, dim: array<nat>, dir: nat, dist: int) returns (source: int, dest: int)
    requires dir < dim.Length && forall n :: 0 <= n < dim.Length ==> dim[n] > 0
    ensures Prod(dim[..dir]) * dim[dir] > 0
    ensures dest == Shifted(me, dim[..], dir, dist) && source == Shifted(me, dim[..], dir, -dist)
  {
    var d: nat := 1;
    for n := 0 to dir
      invariant d == Prod(dim[..n])
    {
      ProdAppend(dim[..n], dim[n]);
      assert dim[..n] + [dim[n]] == dim[..n + 1];
      d := d * dim[n];
    }
    assert dim[..][..dir] == dim[..dir];
    JumpPositive(dim[..], dir);
    var dmod := d * dim[dir];
    var base := (me / dmod) * dmod;
    source := base + (me - base - dist * d + Abs(dist) * dmod) % dmod;
    dest := base + (me - base + dist * d + Abs(dist) * dmod) % dmod;
    assert -(dist * d) == (-dist) * d;
  }

  lemma {:induction false} ProdAppend(dim: seq<nat>, x: nat)
    ensures Prod(dim + [x]) == Prod(dim) * x
  {
    if dim == [] {
      assert [x][1..] == [];
      assert dim + [x] == [x];
    } else {
      ProdAppend(dim[1..], x);
      assert (dim + [x])[1..] == dim[1..] + [x];
      assert dim[0] * (Prod(dim[1..]) * x) == (dim[0] * Prod(dim[1..])) * x;
    }
  }

  // ------------------------------------------------------------------ choosing the dimensions

  // What MP_Cart_Create chooses: all processes go into the first dimension.
  function Chosen(nprocs: nat, ndims: nat): (dim: seq<nat>)
    ensures |dim| == ndims
  {
    seq(ndims, n => if n == 0 then nprocs else 1)
  }

  function Largest(dim: seq<nat>): (m: nat)
    requires dim != []
    ensures m in dim && forall n :: 0 <= n < |dim| ==> dim[n] <= m
  {
    if |dim| == 1 then dim[0] else
      var m := Largest(dim[1..]);
      if m < dim[0] then dim[0] else m
  }

  function Smallest(dim: seq<nat>): (m: nat)
    requires dim != []
    ensures m in dim && forall n :: 0 <= n < |dim| ==> m <= dim[n]
  {
    if |dim| == 1 then dim[0] else
      var m := Smallest(dim[1..]);
      if dim[0] < m then dim[0] else m
  }

  // The difference between the dimensions, which MP_Cart_Create is to keep small.
  function Spread(dim: seq<nat>): (d: nat)
    requires dim != []
  {
    Largest(dim) - Smallest(dim)
  }

  // No mesh of as many processes and dimensions has a smaller spread.
  ghost predicate LeastSpread(dim: seq<nat>)
    requires dim != []
  {
    forall other: seq<nat> :: |other| == |dim| && Mesh(other) && Prod(other) == Prod(dim) ==>
      Spread(dim) <= Spread(other)
  }

  ghost predicate HasDivisor(n: nat) { exists d: nat :: 1 < d < n && Divides(d, n) }

  ghost predicate Divides(d: nat, n: nat) { exists e: nat :: d * e == n }

  lemma {:induction false} OnesProd(dim: seq<nat>)
    requires Mesh(dim)
    ensures Prod(dim) == 1 <==> forall n :: 0 <= n < |dim| ==> dim[n] == 1
  {
    if dim == [] {
    } else {
      OnesProd(dim[1..]);
      ProdPositive(dim[1..]);
      assert forall n :: 0 < n < |dim| ==> dim[n] == dim[1..][n - 1];
      if dim[0] > 1 { Scaled(1, Prod(dim[1..]), dim[0]); }
    }
  }

  lemma ChosenProd(nprocs: nat, ndims: nat)
    requires nprocs > 0 && ndims > 0
    ensures Mesh(Chosen(nprocs, ndims)) && Prod(Chosen(nprocs, ndims)) == nprocs
    ensures Spread(Chosen(nprocs, ndims)) == if ndims == 1 then 0 else nprocs - 1
  {
    var dim := Chosen(nprocs, ndims);
    OnesProd(dim[1..]);
    assert dim[0] == nprocs;
    if ndims > 1 { assert dim[1] == 1; }
  }

  // Of a number without divisors only one mesh can be made, up to order.
  lemma {:induction false} NoDivisorMesh(dim: seq<nat>, n: nat)
    requires Mesh(dim) && Prod(dim) == n > 1 && !HasDivisor(n)
    ensures n in dim && forall i :: 0 <= i < |dim| ==> dim[i] == 1 || dim[i] == n
    ensures |dim| > 1 ==> 1 in dim
  {
    var rest := dim[1..];
    ProdPositive(rest);
    assert Divides(dim[0], n);
    Scaled(1, Prod(rest), dim[0]);
    assert dim[0] == 1 || dim[0] == n;
    if dim[0] == 1 {
      NoDivisorMesh(rest, n);
    } else {
      if Prod(rest) > 1 { Scaled(2, Prod(rest), n); }
      OnesProd(rest);
      if |dim| > 1 { assert rest[0] == 1; }
    }
  }

  lemma NoDivisorSpread(dim: seq<nat>, n: nat)
    requires Mesh(dim) && |dim| > 1 && Prod(dim) == n > 1 && !HasDivisor(n)
    ensures Spread(dim) >= n - 1
  {
    NoDivisorMesh(dim, n);
  }

  // A divisor gives a mesh with a smaller spread.
  lemma Divided(d: nat, e: nat, n: nat, ndims: nat) returns (dim: seq<nat>)
    requires d * e == n && 1 < d < n && ndims > 1
    ensures |dim| == ndims && Mesh(dim) && Prod(dim) == n && Spread(dim) < n - 1
  {
    if e <= 1 { Scaled(e, 1, d); }
    Scaled(2, d, e);
    Expand(e, 0, d, 1);
    var ones := seq(ndims - 2, _ => 1);
    OnesProd(ones);
    dim := [d, e] + ones;
    assert dim[1..] == [e] + ones && dim[1..][1..] == ones;
    assert Prod(dim) == d * (e * 1);
    assert forall i :: 0 <= i < ndims ==> 1 <= dim[i] < n;
  }

  // The dimensions chosen are as close to each other as they can be if and only if there is
  // only one, or nothing to divide: the number of processes has no divisor but one and
  // itself.
  lemma ChosenLeastExactly(nprocs: nat, ndims: nat)
    requires nprocs > 0 && ndims > 0
    ensures LeastSpread(Chosen(nprocs, ndims)) <==> ndims == 1 || !HasDivisor(nprocs)
  {
    var dim := Chosen(nprocs, ndims);
    ChosenProd(nprocs, ndims);
    if ndims == 1 || nprocs == 1 {
    } else if HasDivisor(nprocs) {
      var d: nat :| 1 < d < nprocs && Divides(d, nprocs);
      var e: nat :| d * e == nprocs;
      var other := Divided(d, e, nprocs, ndims);
      assert Spread(other) < Spread(dim);
    } else {
      forall other: seq<nat> | |other| == ndims && Mesh(other) && Prod(other) == nprocs
        ensures Spread(dim) <= Spread(other)
      {
        NoDivisorSpread(other, nprocs);
      }
    }
  }

  // Four processes in two dimensions: 4 by 1 is chosen, and 2 by 2 would have done.
  lemma FourInALine()
    ensures Chosen(4, 2) == [4, 1] && Spread([4, 1]) == 3
    ensures Prod([2, 2]) == Prod([4, 1]) && Spread([2, 2]) == 0
  {
    assert [2, 2][1..] == [2] && [4, 1][1..] == [1] && [1][1..] == [] && [2][1..] == [];
    assert Prod([1]) == 1 && Prod([2]) == 2;
  }

  // MP_Cart_Create when it is asked to choose the dimensions.  The inner loop looks for the
  // biggest factor and takes the number itself for one.
  method ChooseDims(nprocs: nat, dim: array<nat>)
    requires nprocs > 0 && dim.Length > 0
    modifies dim
    ensures dim[..] == Chosen(nprocs, dim.Length)
  {
    for n := 0 to dim.Length
      invariant forall k :: 0 <= k < n ==> dim[k] == 1
    {
      dim[n] := 1;
    }
    var np, d := nprocs, 0;
    while np != 1
      invariant (np == nprocs && d == 0 && forall k :: 0 <= k < dim.Length ==> dim[k] == 1)
        || (np == 1 && dim[0] == nprocs && forall k :: 0 < k < dim.Length ==> dim[k] == 1)
      decreases np
    {
      var bf := 1;
      var i := 2;
      while i <= np
        invariant 2 <= i <= np + 1 && (i == np + 1 ==> bf == np)
        decreases np + 1 - i
      {
        if np % i == 0 { bf := i; }
        i := i + 1;
      }
      dim[d] := dim[d] * bf;
      d := (d + 1) % dim.Length;
      np := np / bf;
    }
  }
}
