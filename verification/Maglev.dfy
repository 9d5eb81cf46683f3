/** Maglev table fill (section 3.4 of the Maglev paper, NSDI 2016): every backend walks its own permutation of
    the slots and claims the first free one on each of its turns. */
module Maglev {
  import opened Types
  import opened Wrr
  import opened Finite

  const M := 65537
  const EMPTY: u16 := 0xFFFF

  // ---------------------------------------------------------------------------------------------
  // The table size is prime, so steps are invertible
  // ---------------------------------------------------------------------------------------------

  predicate NotDivisor(d: int) { d > 0 && 65537 % d != 0 }

  predicate Block(d: nat) {
    && NotDivisor(d) && NotDivisor(d + 1) && NotDivisor(d + 2) && NotDivisor(d + 3)
    && NotDivisor(d + 4) && NotDivisor(d + 5) && NotDivisor(d + 6) && NotDivisor(d + 7)
  }

  /** Trial division, eight candidates at a time. */
  predicate Tried(d: nat, blocks: nat)
    decreases blocks
  {
    blocks == 0 || (Block(d) && Tried(d + 8, blocks - 1))
  }

  lemma {:induction false} TriedAll(d: nat, blocks: nat, k: nat)
    requires Tried(d, blocks) && d <= k < d + 8 * blocks
    ensures NotDivisor(k)
    decreases blocks
  {
    hide NotDivisor;
    if k >= d + 8 { TriedAll(d + 8, blocks - 1, k); }
  }

  lemma Tried65()
    ensures Tried(2, 8)
  {
  }

  lemma Tried129()
    ensures Tried(66, 8)
  {
  }

  lemma Tried193()
    ensures Tried(130, 8)
  {
  }

  lemma Tried257()
    ensures Tried(194, 8)
  {
  }

  lemma NoSmallDivisor(k: nat)
    requires 2 <= k <= 256
    ensures NotDivisor(k)
  {
    hide Tried;
    if k < 66 {
      Tried65();
      TriedAll(2, 8, k);
    } else if k < 130 {
      Tried129();
      TriedAll(66, 8, k);
    } else if k < 194 {
      Tried193();
      TriedAll(130, 8, k);
    } else {
      Tried257();
      TriedAll(194, 8, k);
    }
  }

  /** M has no factors: of any two one would be below its square root. */
  lemma SizeIsPrime(a: nat, b: nat)
    requires M == a * b
    ensures a == 1 || b == 1
  {
    if a > 1 && b > 1 {
      if a > 256 && b > 256 { Large(a, b); }
      var d, e := if a <= 256 then a else b, if a <= 256 then b else a;
      NoSmallDivisor(d);
      QuotientUnique(M, d, e);
    }
  }

  lemma Large(a: nat, b: nat)
    requires a > 256 && b > 256
    ensures a * b > M
  {
    AtLeast(a - 256, b);
  }

  lemma {:induction false} Bezout(a: nat, b: nat) returns (u: int, v: int)
    ensures u * a + v * b == Gcd(a, b)
    decreases b
  {
    if b == 0 {
      u, v := 1, 0;
    } else {
      var p, q := Bezout(b, a % b);
      u, v := q, p - a / b * q;
      BezoutStep(a, b, p, q);
    }
  }

  lemma BezoutStep(a: nat, b: nat, p: int, q: int)
    requires b > 0
    ensures q * a + (p - a / b * q) * b == p * b + q * (a % b)
  {
    var k, m := a / b, a % b;
    assert a == b * k + m;
    assert q * a == q * (b * k) + q * m;
    assert (p - k * q) * b == p * b - k * q * b;
  }

  /** Every step short of the size has an inverse modulo the size. */
  lemma Invertible(skip: nat) returns (u: int, v: int)
    requires 0 < skip < M
    ensures u * skip + v * M == 1
  {
    u, v := Bezout(skip, M);
    GcdDivides(skip, M);
    var g := Gcd(skip, M);
    hide Gcd;
    var p: nat :| skip == Times(p, g);
    var q: nat :| M == Times(q, g);
    SizeIsPrime(q, g);
    if q == 1 { AtLeast(p, g); }
  }

  // ---------------------------------------------------------------------------------------------
  // Walks
  // ---------------------------------------------------------------------------------------------

  datatype Path = Path(offset: nat, skip: nat) {
    predicate Valid() { offset < M && 0 < skip < M }

    function At(j: nat): (c: nat)
      ensures c < M
    {
      (offset + j * skip) % M
    }
  }

  lemma ModIs(x: int, k: int, r: nat)
    requires x == k * M + r && r < M
    ensures x % M == r
  {
  }

  /** Every slot lies on every path. */
  lemma Onto(path: Path, c: nat) returns (j: nat)
    requires path.Valid() && c < M
    ensures j < M && path.At(j) == c
  {
    var u, v := Invertible(path.skip);
    var t := (c - path.offset) * u;
    j := t % M;
    var q := t / M;
    Unwound(path.offset, path.skip, c, u, v, q, j);
    ModIs(path.offset + j * path.skip, -((c - path.offset) * v + q * path.skip), c);
  }

  lemma Unwound(o: int, s: int, c: int, u: int, v: int, q: int, j: int)
    requires (c - o) * u == q * M + j && u * s + v * M == 1
    ensures o + j * s == -((c - o) * v + q * s) * M + c
  {
    var d := c - o;
    assert d * u * s == q * M * s + j * s;
    assert d * u * s == d * (1 - v * M) == d - d * v * M;
  }

  /** No path meets a slot twice in a full turn. */
  lemma OneToOne(path: Path, i: nat, j: nat)
    requires path.Valid() && i < M && j < M && path.At(i) == path.At(j)
    ensures i == j
  {
    var u, v := Invertible(path.skip);
    var a, b := path.offset + i * path.skip, path.offset + j * path.skip;
    var k := a / M - b / M;
    assert (i - j) * path.skip == k * M by { assert a - b == (i - j) * path.skip; }
    Cancelled(i - j, path.skip, k, u, v);
    if i - j != 0 { NotMultiple(i - j, k * u + (i - j) * v); }
  }

  lemma Cancelled(d: int, s: int, k: int, u: int, v: int)
    requires d * s == k * M && u * s + v * M == 1
    ensures d == (k * u + d * v) * M
  {
    assert d * s * u == k * M * u;
    assert d * s * u == d * (1 - v * M) == d - d * v * M;
  }

  lemma NotMultiple(d: int, k: int)
    requires -M < d < M && d != 0
    ensures d != k * M
  {
  }

  // ---------------------------------------------------------------------------------------------
  // Filling
  // ---------------------------------------------------------------------------------------------

  /** The k-th claim went to a backend with positive weight, and was the first slot on its path still free. */
  ghost predicate FirstFree(path: Path, order: seq<nat>, k: nat)
    requires k < |order|
  {
    exists j: nat :: j < M && path.At(j) == order[k] && forall p: nat :: p < j ==> path.At(p) in order[..k]
  }

  ghost predicate Greedy(table: seq<u16>, order: seq<nat>, weights: seq<nat>, paths: seq<Path>)
    requires |table| == M && |paths| == |weights|
  {
    forall k: nat :: k < |order| ==>
      order[k] < M &&
      var i := table[order[k]];
      i < |weights| && weights[i] > 0 && FirstFree(paths[i], order, k)
  }

  ghost predicate Distinct(order: seq<nat>) {
    forall i: nat, j: nat :: i < j < |order| ==> order[i] != order[j]
  }

  /** Between claims: the claimed slots are the filled ones, and each path is filled up to its cursor. */
  ghost predicate Filling(table: seq<u16>, next: seq<nat>, order: seq<nat>, weights: seq<nat>, paths: seq<Path>) {
    && |table| == M && |next| == |paths| == |weights| < EMPTY
    && (forall i: nat :: i < |paths| ==> paths[i].Valid())
    && Distinct(order) && (forall c :: c in order ==> c < M)
    && (forall c: nat :: c < M ==> (table[c] != EMPTY <==> c in order))
    && (forall i: nat :: i < |paths| ==> Covered(paths[i], next[i], order))
    && Greedy(table, order, weights, paths)
  }

  ghost predicate Covered(path: Path, next: nat, order: seq<nat>) {
    next <= M && forall p: nat :: p < next ==> path.At(p) in order
  }

  function Taken(order: seq<nat>): set<nat> {
    set c: nat | c in order
  }

  lemma {:induction false} DistinctSize(order: seq<nat>)
    requires Distinct(order)
    ensures |Taken(order)| == |order|
  {
    if order == [] {
      assert Taken(order) == {};
    } else {
      var n := |order| - 1;
      DistinctSize(order[..n]);
      assert order[n] !in order[..n];
      assert Taken(order) == Taken(order[..n]) + {order[n]};
    }
  }

  /** Fewer claims than slots leave a slot free; as many leave none. */
  lemma FreeSlot(order: seq<nat>, size: nat) returns (c: nat)
    requires Distinct(order) && |order| < size
    ensures c < size && c !in order
  {
    DistinctSize(order);
    var taken, slots := Taken(order), Slots(size);
    if slots <= taken { SubsetSize(slots, taken); }
    c :| c in slots && c !in taken;
  }

  lemma AllTaken(order: seq<nat>, size: nat, c: nat)
    requires Distinct(order) && |order| == size && (forall x :: x in order ==> x < size) && c < size
    ensures c in order
  {
    DistinctSize(order);
    var taken, slots := Taken(order), Slots(size);
    if c !in order { SubsetSize(taken + {c}, slots); }
  }

  lemma FillingStep(table: seq<u16>, next: seq<nat>, order: seq<nat>, weights: seq<nat>, paths: seq<Path>, i: u16, j: nat)
    requires Filling(table, next, order, weights, paths) && i < |weights| && weights[i] > 0
    requires next[i] <= j < M && Covered(paths[i], j, order) && paths[i].At(j) !in order
    ensures var c := paths[i].At(j);
            Filling(table[c := i], next[i := j + 1], order + [c], weights, paths)
  {
    var c := paths[i].At(j);
    var t, o := table[c := i], order + [c];
    forall k: nat | k < |o|
      ensures t[o[k]] < |weights| && weights[t[o[k]]] > 0 && FirstFree(paths[t[o[k]]], o, k)
    {
      if k < |order| {
        assert order[k] in order && t[o[k]] == table[order[k]];
        FirstFreeKept(paths[t[o[k]]], order, c, k);
      } else {
        assert o[..k] == order;
        assert paths[i].At(j) == o[k];
      }
    }
  }

  lemma FirstFreeKept(path: Path, order: seq<nat>, c: nat, k: nat)
    requires k < |order| && FirstFree(path, order, k)
    ensures FirstFree(path, order + [c], k)
  {
    assert (order + [c])[..k] == order[..k];
    var j: nat :| j < M && path.At(j) == order[k] && forall p: nat :: p < j ==> path.At(p) in order[..k];
    assert path.At(j) == (order + [c])[k];
  }

  /** One claim: walk on from the cursor to the first free slot, which exists while any slot is free. */
  method Claim(table: array<u16>, next: array<nat>, ghost order: seq<nat>, ghost weights: seq<nat>, paths: seq<Path>, i: u16)
    returns (c: nat)
    requires next.Length == |paths| && table.Length == M
    requires Filling(table[..], next[..], order, weights, paths) && |order| < M && i < |weights| && weights[i] > 0
    modifies table, next
    ensures c < M && old(table[c]) == EMPTY && table[..] == old(table[..])[c := i]
    ensures Filling(table[..], next[..], order + [c], weights, paths)
  {
    hide Greedy;
    hide Path.At;
    ghost var t0, n0 := table[..], next[..];
    ghost var free := FreeSlot(order, M);
    ghost var stop := Onto(paths[i], free);
    c := paths[i].At(next[i]);
    next[i] := next[i] + 1;
    while table[c] != EMPTY
      invariant n0[i] < next[i] <= stop + 1 && next[..] == n0[i := next[i]] && table[..] == t0
      invariant c == paths[i].At(next[i] - 1) && Covered(paths[i], next[i] - 1, order)
      decreases stop + 1 - next[i]
    {
      c := paths[i].At(next[i]);
      next[i] := next[i] + 1;
    }
    FillingStep(t0, n0, order, weights, paths, i, next[i] - 1);
    table[c] := i;
    assert table[..] == t0[c := i];
  }

  // ---------------------------------------------------------------------------------------------
  // Shares
  // ---------------------------------------------------------------------------------------------

  lemma {:induction false} CountClaim(table: seq<u16>, c: nat, i: u16, j: nat)
    requires c < |table| && table[c] == EMPTY && i < EMPTY && j < EMPTY
    ensures Count(table[c := i], j) == Count(table, j) + if i == j then 1 else 0
  {
    var n := |table| - 1;
    var t := table[c := i];
    if c == n {
      assert t[..n] == table[..n];
    } else {
      assert t[..n] == table[..n][c := i];
      CountClaim(table[..n], c, i, j);
    }
  }

  lemma {:induction false} CountEmpty(table: seq<u16>, j: nat)
    requires j < EMPTY && forall c: nat :: c < |table| ==> table[c] == EMPTY
    ensures Count(table, j) == 0
  {
    if table != [] { CountEmpty(table[..|table| - 1], j); }
  }

  predicate Uniform(weights: seq<nat>) {
    forall i: nat, j: nat :: i < |weights| && j < |weights| && weights[i] > 0 && weights[j] > 0 ==> weights[i] == weights[j]
  }

  /** The heaviest take a turn in every round: after `round` full rounds and the turns of the backends before i. */
  ghost predicate Steady(table: seq<u16>, weights: seq<nat>, max: nat, round: nat, i: nat) {
    |weights| < EMPTY &&
    forall j: nat :: j < |weights| && weights[j] == max ==> Count(table, j) == if j < i then round + 1 else round
  }

  lemma SteadyClaim(table: seq<u16>, c: nat, weights: seq<nat>, max: nat, round: nat, i: u16)
    requires Steady(table, weights, max, round, i) && i < |weights| && c < |table| && table[c] == EMPTY
    ensures Steady(table[c := i], weights, max, round, i + 1)
  {
    hide Count;
    forall j: nat | j < |weights| && weights[j] == max
      ensures Count(table[c := i], j) == if j < i + 1 then round + 1 else round
    {
      CountClaim(table, c, i, j);
    }
  }

  ghost predicate IsMax(weights: seq<nat>, max: nat, top: nat) {
    top < |weights| && weights[top] == max > 0 && forall j: nat :: j < |weights| ==> weights[j] <= max
  }

  /** Rounding to a floating-point number: unknown, except that zero and one are exact. */
  predicate Exact01(round: real -> real) {
    round(0.0) == 0.0 && round(1.0) == 1.0
  }

  /** Backends of the greatest weight never carry credit over. */
  ghost predicate NoCarry(credit: seq<real>, weights: seq<nat>, max: nat) {
    |credit| == |weights| && forall j: nat :: j < |weights| && weights[j] == max ==> credit[j] == 0.0
  }

  /** Rounding as floating-point numbers do it between 0 and 2: it keeps order, is exact at the whole numbers, and is off
      by at most `delta`; for doubles that is 2^-53. */
  ghost predicate Rounds(rnd: real -> real, delta: real) {
    && rnd(0.0) == 0.0 && rnd(1.0) == 1.0 && rnd(2.0) == 2.0
    && (forall x: real, y: real :: x <= y ==> rnd(x) <= rnd(y))
    && (forall x: real :: 0.0 <= x <= 2.0 ==> x - delta <= rnd(x) <= x + delta)
  }

  function Ratio(w: nat, max: nat): (q: real)
    requires max > 0
    ensures w <= max ==> 0.0 <= q <= 1.0
  {
    w as real / max as real
  }

  /** The turns a backend is owed after `rounds` rounds. */
  function Owed(rounds: nat, w: nat, max: nat): real
    requires max > 0
  {
    rounds as real * Ratio(w, max)
  }

  lemma OwedStep(rounds: nat, w: nat, max: nat)
    requires max > 0
    ensures Owed(rounds + 1, w, max) == Owed(rounds, w, max) + Ratio(w, max)
  {
  }

  /** What three roundings a round can add up to. */
  function Slack(rounds: nat, delta: real): real { 3.0 * rounds as real * delta }

  lemma SlackStep(rounds: nat, delta: real)
    ensures Slack(rounds + 1, delta) == Slack(rounds, delta) + 3.0 * delta
  {
  }

  /** Turns taken and credit left add up to what `rounds` rounds owe, up to three roundings a round. */
  predicate Balanced(taken: nat, credit: real, rounds: nat, w: nat, max: nat, delta: real)
    requires max > 0
  {
    var slack := Slack(rounds, delta);
    0.0 <= credit <= 1.0 && Owed(rounds, w, max) - slack <= taken as real + credit <= Owed(rounds, w, max) + slack
  }

  lemma RoundedTurn(rnd: real -> real, delta: real, c: real, q: real)
    requires Rounds(rnd, delta) && 0.0 <= c <= 1.0 && 0.0 <= q <= 1.0
    ensures var d := rnd(c + rnd(q));
            && 0.0 <= d <= 2.0 && c + q - 2.0 * delta <= d <= c + q + 2.0 * delta
            && (d >= 1.0 ==> 0.0 <= rnd(d - 1.0) <= 1.0 && d - 1.0 - delta <= rnd(d - 1.0) <= d - 1.0 + delta)
  {
    var p := rnd(q);
    assert rnd(0.0) <= p <= rnd(1.0);
    var d := rnd(c + p);
    assert rnd(0.0) <= d <= rnd(2.0);
    if d >= 1.0 { assert rnd(0.0) <= rnd(d - 1.0) <= rnd(1.0); }
  }

  lemma BalancedTurn(rnd: real -> real, delta: real, taken: nat, c: real, rounds: nat, w: nat, max: nat)
    requires Rounds(rnd, delta) && 0 < max && w <= max && Balanced(taken, c, rounds, w, max, delta)
    ensures var d := rnd(c + rnd(Ratio(w, max)));
            if d < 1.0 then Balanced(taken, d, rounds + 1, w, max, delta)
            else Balanced(taken + 1, rnd(d - 1.0), rounds + 1, w, max, delta)
  {
    RoundedTurn(rnd, delta, c, Ratio(w, max));
    OwedStep(rounds, w, max);
    SlackStep(rounds, delta);
    RoundsNear(rnd, delta);
    var q := Ratio(w, max);
    var d := rnd(c + rnd(q));
    hide *;
    BalancedWith(taken, c, rounds, w, max, delta, q, d, if d < 1.0 then d else rnd(d - 1.0));
  }

  lemma BalancedWith(taken: nat, c: real, rounds: nat, w: nat, max: nat, delta: real, q: real, d: real, left: real)
    requires 0 < max && w <= max && Balanced(taken, c, rounds, w, max, delta) && delta >= 0.0
    requires 0.0 <= d && c + q - 2.0 * delta <= d <= c + q + 2.0 * delta
    requires if d < 1.0 then left == d else 0.0 <= left <= 1.0 && d - 1.0 - delta <= left <= d - 1.0 + delta
    requires Owed(rounds + 1, w, max) == Owed(rounds, w, max) + q
    requires Slack(rounds + 1, delta) == Slack(rounds, delta) + 3.0 * delta
    ensures Balanced(if d < 1.0 then taken else taken + 1, left, rounds + 1, w, max, delta)
  {
    hide Owed;
    hide Slack;
  }

  /** Every backend's balance after `round` full rounds and the turns of the backends before i. */
  ghost predicate Shares(table: seq<u16>, credit: seq<real>, weights: seq<nat>, max: nat, round: nat, i: nat, delta: real) {
    && max > 0 && |credit| == |weights| < EMPTY
    && forall j: nat :: j < |weights| && weights[j] > 0 ==>
         Balanced(Count(table, j), credit[j], if j < i then round + 1 else round, weights[j], max, delta)
  }

  /** One round: every backend with a whole turn of credit claims a slot. The heaviest always has one, so a round
      that starts with a free slot fills at least one. */
  method Round(table: array<u16>, next: array<nat>, credit: array<real>, weights: seq<nat>, paths: seq<Path>,
               max: nat, rnd: real -> real, ghost top: nat, ghost order: seq<nat>, filled: nat, ghost round: nat,
               ghost delta: real)
    returns (now: nat, ghost claims: seq<nat>, ghost done: nat)
    requires table.Length == M && next.Length == credit.Length == |paths| == |weights|
    requires Filling(table[..], next[..], order, weights, paths) && |order| == filled < M
    requires IsMax(weights, max, top) && Exact01(rnd) && NoCarry(credit[..], weights, max)
    requires Steady(table[..], weights, max, round, 0)
    requires Rounds(rnd, delta) ==> Shares(table[..], credit[..], weights, max, round, 0, delta)
    modifies table, next, credit
    ensures Filling(table[..], next[..], claims, weights, paths) && filled < |claims| == now <= M
    ensures NoCarry(credit[..], weights, max) && done <= |weights| && (now < M ==> done == |weights|)
    ensures Steady(table[..], weights, max, round, done)
    ensures Rounds(rnd, delta) ==> Shares(table[..], credit[..], weights, max, round, done, delta)
  {
    hide Shares;
    hide Rounds;
    hide Filling;
    hide Steady;
    now, claims := filled, order;
    var i := 0;
    while i < |weights| && now < M
      invariant i <= |weights|
      invariant Filling(table[..], next[..], claims, weights, paths) && |claims| == now <= M
      invariant NoCarry(credit[..], weights, max)
      invariant filled <= now && (i > top ==> filled < now)
      invariant Steady(table[..], weights, max, round, i)
      invariant Rounds(rnd, delta) ==> Shares(table[..], credit[..], weights, max, round, i, delta)
    {
      now, claims := Turn(table, next, credit, weights, paths, max, rnd, i, claims, now, round, delta);
      i := i + 1;
    }
    done := i;
  }

  lemma SelfRatio(x: real)
    requires x > 0.0
    ensures x / x == 1.0
  {
  }

  lemma SharesSkip(table: seq<u16>, credit: seq<real>, weights: seq<nat>, max: nat, round: nat, i: nat, delta: real)
    requires Shares(table, credit, weights, max, round, i, delta) && i < |weights| && weights[i] == 0
    ensures Shares(table, credit, weights, max, round, i + 1, delta)
  {
    hide Balanced;
    hide Count;
  }

  /** The backend's own balance after its turn, whether it claims or not; without a claim all others stay. */
  lemma SharesTurn(table: seq<u16>, credit: seq<real>, weights: seq<nat>, max: nat, round: nat, i: nat, delta: real,
                   rnd: real -> real)
    requires Rounds(rnd, delta) && Shares(table, credit, weights, max, round, i, delta)
    requires i < |weights| && 0 < weights[i] <= max
    ensures var d := rnd(credit[i] + rnd(Ratio(weights[i], max)));
            if d < 1.0 then Shares(table, credit[i := d], weights, max, round, i + 1, delta)
            else Balanced(Count(table, i) + 1, rnd(d - 1.0), round + 1, weights[i], max, delta)
  {
    hide Balanced;
    hide Count;
    hide Ratio;
    BalancedTurn(rnd, delta, Count(table, i), credit[i], round, weights[i], max);
  }

  lemma SharesClaim(table: seq<u16>, c: nat, credit: seq<real>, left: real, weights: seq<nat>, max: nat, round: nat, i: u16,
                    delta: real)
    requires Shares(table, credit, weights, max, round, i, delta) && i < |weights| && c < |table| && table[c] == EMPTY
    requires Balanced(Count(table, i) + 1, left, round + 1, weights[i], max, delta)
    ensures Shares(table[c := i], credit[i := left], weights, max, round, i + 1, delta)
  {
    hide Balanced;
    hide Count;
    forall j: nat | j < |weights| ensures Count(table[c := i], j) == Count(table, j) + if i == j then 1 else 0 {
      CountClaim(table, c, i, j);
    }
  }

  method Turn(table: array<u16>, next: array<nat>, credit: array<real>, weights: seq<nat>, paths: seq<Path>,
              max: nat, rnd: real -> real, i: nat, ghost order: seq<nat>, filled: nat, ghost round: nat, ghost delta: real)
    returns (now: nat, ghost claims: seq<nat>)
    requires table.Length == M && next.Length == credit.Length == |paths| == |weights| && i < |weights|
    requires Filling(table[..], next[..], order, weights, paths) && |order| == filled < M
    requires max > 0 && (forall j: nat :: j < |weights| ==> weights[j] <= max) && Exact01(rnd)
    requires NoCarry(credit[..], weights, max)
    requires Steady(table[..], weights, max, round, i)
    requires Rounds(rnd, delta) ==> Shares(table[..], credit[..], weights, max, round, i, delta)
    modifies table, next, credit
    ensures Filling(table[..], next[..], claims, weights, paths) && filled <= |claims| == now <= M
    ensures NoCarry(credit[..], weights, max)
    ensures weights[i] == max ==> filled < now
    ensures Steady(table[..], weights, max, round, i + 1)
    ensures Rounds(rnd, delta) ==> Shares(table[..], credit[..], weights, max, round, i + 1, delta)
  {
    now, claims := filled, order;
    assert i < EMPTY by { assert |weights| < EMPTY; }
    hide Filling;
    hide Shares;
    hide Rounds;
    if weights[i] == 0 {
      if Rounds(rnd, delta) { SharesSkip(table[..], credit[..], weights, max, round, i, delta); }
      return;
    }
    if Rounds(rnd, delta) { SharesTurn(table[..], credit[..], weights, max, round, i, delta, rnd); }
    ghost var c0 := credit[..];
    if weights[i] == max { SelfRatio(max as real); }
    credit[i] := rnd(credit[i] + rnd(weights[i] as real / max as real));
    if credit[i] < 1.0 {
      assert weights[i] != max;
      assert credit[..] == c0[i := credit[i]];
      return;
    }
    credit[i] := rnd(credit[i] - 1.0);
    assert credit[..] == c0[i := credit[i]];
    assert NoCarry(credit[..], weights, max);
    ghost var t := table[..];
    var c := Claim(table, next, order, weights, paths, i);
    if Rounds(rnd, delta) { SharesClaim(t, c, c0, credit[i], weights, max, round, i, delta); }
    SteadyClaim(t, c, weights, max, round, i);
    now, claims := filled + 1, order + [c];
  }

  /** The path two hashes of a backend's address stand for. */
  function PathOf(h1: u32, h2: u32): (p: Path)
    ensures p.Valid()
  {
    Path(h1 % M, h2 % (M - 1) + 1)
  }

  /** The finished table: `order` is the order of the claims. */
  ghost predicate Filled(table: seq<u16>, order: seq<nat>, weights: seq<nat>, paths: seq<Path>) {
    && |table| == M && |order| == M && |paths| == |weights| && Distinct(order)
    && (forall c: nat :: c < M ==> c in order && table[c] < |weights| && weights[table[c]] > 0)
    && Greedy(table, order, weights, paths)
  }

  lemma FillingDone(table: seq<u16>, next: seq<nat>, order: seq<nat>, weights: seq<nat>, paths: seq<Path>)
    requires Filling(table, next, order, weights, paths) && |order| == M
    ensures Filled(table, order, weights, paths)
  {
    forall c: nat | c < M ensures c in order && table[c] < |weights| && weights[table[c]] > 0 {
      AllTaken(order, M, c);
      var k: nat :| k < |order| && order[k] == c;
      assert order[k] < M;
    }
  }

  method MaxWeight(weights: seq<nat>) returns (max: nat, ghost top: nat)
    requires SomePositive(weights)
    ensures IsMax(weights, max, top)
  {
    max, top := 0, 0;
    for i := 0 to |weights|
      invariant forall j: nat :: j < i ==> weights[j] <= max
      invariant max > 0 ==> top < i && weights[top] == max
    {
      if weights[i] > max { max, top := weights[i], i; }
    }
  }

  /** A backend's share is in proportion to its weight, measured by the slots of a heaviest one: off by less than one turn
      of credit and one turn of its own, and by what the roundings add up to. */
  ghost predicate Proportional(table: seq<u16>, weights: seq<nat>, max: nat, top: nat, i: nat, delta: real)
    requires max > 0 && top < |weights| && i < |weights|
  {
    var share, fair := Count(table, i) as real, Owed(Count(table, top), weights[i], max);
    var off := 1.0 + Ratio(weights[i], max) + Slack(Count(table, top) + 1, delta);
    fair - off <= share <= fair + off
  }

  lemma FairShare(table: seq<u16>, credit: seq<real>, weights: seq<nat>, max: nat, top: nat, round: nat, done: nat,
                  delta: real, i: nat)
    requires Shares(table, credit, weights, max, round, done, delta) && delta >= 0.0
    requires IsMax(weights, max, top) && i < |weights| && weights[i] > 0
    requires Count(table, top) == if top < done then round + 1 else round
    ensures Proportional(table, weights, max, top, i, delta)
  {
    hide Count;
    hide Ratio;
    var n := Count(table, top);
    var k := if i < done then round + 1 else round;
    if k == n + 1 { OwedStep(n, weights[i], max); }
    if n == k + 1 { OwedStep(k, weights[i], max); }
    SlackStep(n, delta);
    if n > 0 { SlackStep(n - 1, delta); }
    hide Owed;
    hide Slack;
    assert Balanced(Count(table, i), credit[i], k, weights[i], max, delta);
  }

  /** The whole construction: it ends, every slot goes to a backend with positive weight, every claim was the first free
      slot on its owner's path, equal weights get equal shares to within one slot, and any weights get shares in
      proportion. */
  method Build(weights: seq<nat>, h1: seq<u32>, h2: seq<u32>, rnd: real -> real, ghost delta: real)
    returns (table: array<u16>, ghost order: seq<nat>, ghost paths: seq<Path>, ghost max: nat, ghost top: nat)
    requires SomePositive(weights) && |h1| == |h2| == |weights| < EMPTY && Exact01(rnd)
    ensures fresh(table) && |paths| == |weights| && forall i: nat :: i < |paths| ==> paths[i] == PathOf(h1[i], h2[i])
    ensures Filled(table[..], order, weights, paths) && IsMax(weights, max, top)
    ensures Uniform(weights) ==>
      forall i: nat, j: nat :: i < |weights| && j < |weights| && weights[i] > 0 && weights[j] > 0 ==>
        Count(table[..], i) <= Count(table[..], j) + 1
    ensures Rounds(rnd, delta) ==>
      forall i: nat :: i < |weights| && weights[i] > 0 ==> Proportional(table[..], weights, max, top, i, delta)
  {
    hide Count;
    hide Proportional;
    hide Rounds;
    var n := |weights|;
    var walks := seq(n, i requires 0 <= i < n => PathOf(h1[i], h2[i]));
    var most;
    most, top := MaxWeight(weights);
    max, paths, order := most, walks, [];
    table := new u16[M](_ => EMPTY);
    var next, credit := new nat[n](_ => 0), new real[n](_ => 0.0);
    ghost var round, turn: nat := 0, 0;
    Blank(table[..], credit[..], weights, max, delta);
    var filled := 0;
    while filled < M
      invariant Filling(table[..], next[..], order, weights, paths) && |order| == filled <= M
      invariant NoCarry(credit[..], weights, max) && (filled < M ==> turn == 0)
      invariant Steady(table[..], weights, max, round, turn)
      invariant Rounds(rnd, delta) ==> Shares(table[..], credit[..], weights, max, round, turn, delta)
    {
      filled, order, turn := Round(table, next, credit, weights, walks, most, rnd, top, order, filled, round, delta);
      if filled < M {
        NextRound(table[..], credit[..], weights, max, round, delta);
        round, turn := round + 1, 0;
      }
    }
    FillingDone(table[..], next[..], order, weights, paths);
    if Rounds(rnd, delta) {
      RoundsNear(rnd, delta);
      forall i: nat | i < n && weights[i] > 0 ensures Proportional(table[..], weights, max, top, i, delta) {
        FairShare(table[..], credit[..], weights, max, top, round, turn, delta, i);
      }
    }
  }

  lemma RoundsNear(rnd: real -> real, delta: real)
    requires Rounds(rnd, delta)
    ensures delta >= 0.0
  {
    assert 0.0 - delta <= rnd(0.0);
  }

  /** Before the first round. */
  lemma Blank(table: seq<u16>, credit: seq<real>, weights: seq<nat>, max: nat, delta: real)
    requires max > 0 && |credit| == |weights| < EMPTY && forall c: nat :: c < |table| ==> table[c] == EMPTY
    requires forall j: nat :: j < |credit| ==> credit[j] == 0.0
    ensures Steady(table, weights, max, 0, 0) && Shares(table, credit, weights, max, 0, 0, delta)
  {
    hide Count;
    forall j: nat | j < |weights| ensures Count(table, j) == 0 && Balanced(0, credit[j], 0, weights[j], max, delta) {
      CountEmpty(table, j);
    }
  }

  /** The end of one round is the start of the next. */
  lemma NextRound(table: seq<u16>, credit: seq<real>, weights: seq<nat>, max: nat, round: nat, delta: real)
    ensures Steady(table, weights, max, round, |weights|) ==> Steady(table, weights, max, round + 1, 0)
    ensures Shares(table, credit, weights, max, round, |weights|, delta) ==>
      Shares(table, credit, weights, max, round + 1, 0, delta)
  {
    hide Count;
    hide Balanced;
  }
}
