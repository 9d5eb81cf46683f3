/** The scheduler of one service: a table built for the current weights, and one cursor per worker. */
module Scheduler {
  import opened Types
  import opened Wrr
  import Maglev

  const CURSOR_STRIDE := 7919

  datatype Kind = RoundRobin | Hashed

  /** What a built table promises for the weights it was built from. */
  ghost predicate Serves(kind: Kind, table: seq<u16>, weights: seq<nat>) {
    if !SomePositive(weights) then table == []
    else
      && |table| > 0 && Wrr.Members(table, weights)
      && (kind == RoundRobin ==>
            |table| == Sum(Effective(weights)) && Smooth(table, Effective(weights)))
      && (kind == Hashed ==> |table| == Maglev.M)
  }

  /** The table comes from claims in turn, each of the first free slot on the path of its backend's hashes. */
  ghost predicate FilledFrom(table: seq<u16>, weights: seq<nat>, h1: seq<u32>, h2: seq<u32>)
    requires |h1| == |h2| == |weights|
  {
    exists order: seq<nat>, paths: seq<Maglev.Path> ::
      && Maglev.Filled(table, order, weights, paths) && |paths| == |weights|
      && forall i: nat :: i < |paths| ==> paths[i] == Maglev.PathOf(h1[i], h2[i])
  }

  /** Every backend's share of the table is in proportion to its weight. */
  ghost predicate InProportion(table: seq<u16>, weights: seq<nat>, delta: real) {
    exists max: nat, top: nat :: Maglev.IsMax(weights, max, top) &&
      forall i: nat :: i < |weights| && weights[i] > 0 ==> Maglev.Proportional(table, weights, max, top, i, delta)
  }

  class Scheduler {
    var kind: Kind
    var table: seq<u16>
    const cursor: array<u32>

    constructor (workers: nat)
      requires workers > 0
      ensures fresh(cursor) && cursor.Length == workers && kind == RoundRobin && table == []
    {
      kind, table := RoundRobin, [];
      cursor := new u32[workers](_ => 0);
    }

    method Build(k: Kind, weights: seq<nat>, h1: seq<u32>, h2: seq<u32>, rnd: real -> real, ghost delta: real)
      requires |h1| == |h2| == |weights| < Maglev.EMPTY && Maglev.Exact01(rnd)
      modifies this, cursor
      ensures kind == k && Serves(k, table, weights)
      ensures k == Hashed && SomePositive(weights) ==>
        FilledFrom(table, weights, h1, h2) && (Maglev.Rounds(rnd, delta) ==> InProportion(table, weights, delta))
      ensures SomePositive(weights) ==>
        forall i: nat :: i < cursor.Length ==> cursor[i] == i * 7919 % WRAP32
    {
      kind, table := k, [];
      var any := false;
      for i := 0 to |weights|
        invariant any <==> SomePositive(weights[..i])
        invariant table == [] && kind == k
      {
        assert weights[..i + 1] == weights[..i] + [weights[i]];
        Extend(weights[..i], weights[i]);
        any := any || weights[i] > 0;
      }
      assert weights[..|weights|] == weights;
      if !any {
        return;
      }
      if k == Hashed {
        ghost var order, paths, max, top;
        var t;
        t, order, paths, max, top := Maglev.Build(weights, h1, h2, rnd, delta);
        table := t[..];
        assert Maglev.Filled(table, order, weights, paths);
      } else {
        EffectiveTotal(weights);
        table := Wrr.Build(weights);
        EffectiveMembers(table, weights);
      }
      forall i | 0 <= i < cursor.Length { cursor[i] := i * CURSOR_STRIDE % WRAP32; }
    }

    /** A backend for a new flow: the slot its hash names, or the next slot of the worker's turn. */
    method Pick(hash: u32, worker: nat, ghost weights: seq<nat>) returns (choice: int)
      requires Serves(kind, table, weights) && cursor.Length > 0
      modifies cursor
      ensures choice == -1 <==> !SomePositive(weights)
      ensures choice != -1 ==> 0 <= choice < |weights| && weights[choice] > 0
      ensures kind == Hashed && |table| > 0 ==> choice == table[hash % |table|] && cursor[..] == old(cursor[..])
      ensures kind == RoundRobin && |table| > 0 ==>
        var w, c := worker % cursor.Length, old(cursor[worker % cursor.Length]);
        choice == table[c % |table|] && cursor[..] == old(cursor[..])[w := (c + 1) % WRAP32]
      ensures |table| == 0 ==> cursor[..] == old(cursor[..])
    {
      hide SomePositive;
      if |table| == 0 {
        return -1;
      }
      if kind == Hashed {
        return table[hash % |table|];
      }
      var w := worker % cursor.Length;
      var c := cursor[w];
      cursor[w] := (c + 1) % WRAP32;
      return table[c % |table|];
    }
  }

  lemma Extend(s: seq<nat>, x: nat)
    ensures SomePositive(s + [x]) <==> SomePositive(s) || x > 0
  {
    var t := s + [x];
    if SomePositive(s) {
      var i: nat :| i < |s| && s[i] > 0;
      assert t[i] > 0;
    }
    if x > 0 { assert t[|s|] > 0; }
  }

  lemma EffectiveMembers(table: seq<u16>, weights: seq<nat>)
    requires SomePositive(weights)
    ensures Wrr.Members(table, Effective(weights)) <==> Wrr.Members(table, weights)
  {
    forall i: nat | i < |weights| ensures Effective(weights)[i] > 0 <==> weights[i] > 0 {
      EffectivePositive(weights, i);
    }
  }

  // ---------------------------------------------------------------------------------------------
  // What a worker's consecutive picks add up to
  // ---------------------------------------------------------------------------------------------

  /** The backends a worker gets on n consecutive picks, its cursor starting at c. */
  function Picks(table: seq<u16>, c: u32, n: nat): (p: seq<u16>)
    requires |table| > 0
    ensures |p| == n
    decreases n
  {
    if n == 0 then [] else [table[c % |table|]] + Picks(table, (c + 1) % WRAP32, n - 1)
  }

  lemma WrapStep(c: u32, k: nat)
    requires k > 0
    ensures ((c + 1) % WRAP32 + (k - 1)) % WRAP32 == (c + k) % WRAP32
  {
  }

  lemma PositionSteps(c: u32, k: nat, size: nat)
    requires size > 0
    ensures Position(c, 0, size) == c % size
    ensures k > 0 ==> Position((c + 1) % WRAP32, k - 1, size) == Position(c, k, size)
  {
    assert c % WRAP32 == c;
    if k > 0 { WrapStep(c, k); }
  }

  lemma {:induction false} PicksAt(table: seq<u16>, c: u32, n: nat, k: nat)
    requires |table| > 0 && k < n
    ensures Picks(table, c, n)[k] == table[Position(c, k, |table|)]
    decreases n
  {
    PositionSteps(c, k, |table|);
    hide Position;
    if k > 0 { PicksAt(table, (c + 1) % WRAP32, n - 1, k - 1); }
  }

  lemma {:induction false} CountConcat(a: seq<u16>, b: seq<u16>, i: nat)
    ensures Count(a + b, i) == Count(a, i) + Count(b, i)
  {
    if b == [] {
      assert a + b == a;
    } else {
      var m := |b| - 1;
      assert (a + b)[..|a| + m] == a + b[..m];
      CountConcat(a, b[..m], i);
    }
  }

  lemma Rotated(x: nat, size: nat, s: nat, k: nat)
    requires size > 0 && s == x % size && k < size
    ensures (x + k) % size == if s + k < size then s + k else s + k - size
  {
    var q := x / size;
    assert x + k == size * q + (s + k);
    if s + k < size { Remainder(x + k, size, q, s + k); } else { Remainder(x + k, size, q + 1, s + k - size); }
  }

  lemma Remainder(x: nat, size: nat, q: nat, r: nat)
    requires size > 0 && x == size * q + r && r < size
    ensures x % size == r
  {
    var y, z := x / size, x % size;
    assert x == size * y + z;
    assert size * (y - q) == r - z;
    if y > q { AtLeast(y - q, size); } else if y < q { AtLeast(q - y, size); }
  }

  /** The slot of the k-th pick. */
  function Position(c: u32, k: nat, size: nat): (p: nat)
    requires size > 0
    ensures p < size
  {
    (c + k) % WRAP32 % size
  }

  /** A turn that meets no wrap, or a harmless one, goes round the table from where it starts. */
  lemma Undisturbed(c: u32, k: nat, size: nat)
    requires k < size && (c + size <= WRAP32 || Divides(size, WRAP32))
    ensures Position(c, k, size) == if c % size + k < size then c % size + k else c % size + k - size
  {
    hide Divides;
    Rotated(c, size, c % size, k);
    if c + k >= WRAP32 { WrapKeeps(c + k, size); } else { Remainder(c + k, WRAP32, 0, c + k); }
  }

  /** As many consecutive picks as the table is long give every backend exactly its slots, from any cursor, as long
      as the 32-bit cursor does not wrap in between, or wraps at a multiple of the table's length. */
  lemma FullTurn(table: seq<u16>, c: u32, i: nat)
    requires 0 < |table| && (c + |table| <= WRAP32 || Divides(|table|, WRAP32))
    ensures Count(Picks(table, c, |table|), i) == Count(table, i)
  {
    var size, s := |table|, c % |table|;
    var p := Picks(table, c, size);
    hide Picks;
    hide Count;
    hide Divides;
    forall k: nat | k < size ensures p[k] == (table[s..] + table[..s])[k] {
      PicksAt(table, c, size, k);
      Undisturbed(c, k, size);
    }
    assert p == table[s..] + table[..s];
    CountConcat(table[s..], table[..s], i);
    CountConcat(table[..s], table[s..], i);
    assert table[..s] + table[s..] == table;
  }

  lemma WrapKeeps(x: nat, size: nat)
    requires size > 0 && Divides(size, WRAP32)
    ensures x % WRAP32 % size == x % size
  {
    var q: nat :| WRAP32 == Times(q, size);
    var k, r := x / WRAP32, x % WRAP32;
    var y, z := r / size, r % size;
    assert r == size * y + z;
    assert x == size * (k * q + y) + z by { Distribute(k, q, size, y); }
    Remainder(x, size, k * q + y, z);
  }

  /** Slots after a wrap start over at the first one. */
  lemma AfterWrap(c: u32, k: nat, size: nat)
    requires WRAP32 <= c + k && c + k - WRAP32 < size <= WRAP32
    ensures Position(c, k, size) == c + k - WRAP32
  {
    var x := c + k - WRAP32;
    Remainder(c + k, WRAP32, 1, x);
    Remainder(x, size, 0, x);
  }

  /** Slots before a wrap lead up to the remainder of the wrap. */
  lemma BeforeWrap(c: u32, k: nat, size: nat, p: nat)
    requires c + k < WRAP32 && 0 < size && p < size
    requires exists q: nat :: c + k == size * q + p
    ensures Position(c, k, size) == p
  {
    var q: nat :| c + k == size * q + p;
    Remainder(c + k, WRAP32, 0, c + k);
    Remainder(c + k, size, q, p);
  }

  /** A wrap inside a turn, at a cursor that is no multiple of the table's length, serves some slot twice. */
  lemma WrapRepeats(c: u32, size: nat) returns (i: nat, j: nat)
    requires 0 < size <= WRAP32 && c + size > WRAP32 && !Divides(size, WRAP32)
    ensures i < j < size && Position(c, i, size) == Position(c, j, size)
  {
    var left: nat := WRAP32 - c;
    var q, rest := WRAP32 / size, WRAP32 % size;
    assert WRAP32 == size * q + rest;
    NonZeroRest(size, q, rest);
    if rest + left <= size {
      i, j := left - 1, left + rest - 1;
      assert c + i == size * q + (rest - 1);
      BeforeWrap(c, i, size, rest - 1);
      AfterWrap(c, j, size);
    } else {
      i, j := size - rest - 1, size - 1;
      assert c + i == size * q + (size - 1 - left);
      BeforeWrap(c, i, size, size - 1 - left);
      AfterWrap(c, j, size);
    }
  }

  lemma NonZeroRest(size: nat, q: int, rest: nat)
    requires 0 < size <= WRAP32 && WRAP32 == size * q + rest && rest < size && !Divides(size, WRAP32)
    ensures rest > 0 && q >= 0
  {
    if q < 0 { AtLeast(-q, size); }
    var n: nat := q;
    assert size * q == Times(n, size);
  }

  /** One slot marked, all others not. */
  function Marked(size: nat, p: nat): (t: seq<u16>)
    requires p < size
    ensures |t| == size && forall k: nat :: k < size ==> t[k] == if k == p then 1 else 0
  {
    seq(size, k => if k == p then 1 else 0)
  }

  lemma {:induction false} NoneMarked(t: seq<u16>)
    requires forall k: nat :: k < |t| ==> t[k] == 0
    ensures Count(t, 1) == 0
  {
    if t != [] { NoneMarked(t[..|t| - 1]); }
  }

  lemma MarkedOnce(size: nat, p: nat)
    requires p < size
    ensures Count(Marked(size, p), 1) == 1
  {
    var t := Marked(size, p);
    NoneMarked(t[..p]);
    NoneMarked(t[p + 1..]);
    CountConcat(t[..p], [t[p]], 1);
    CountConcat(t[..p] + [t[p]], t[p + 1..], 1);
    assert [t[p]][..0] == [] && Count([t[p]], 1) == 1;
    assert t == t[..p] + [t[p]] + t[p + 1..];
  }

  lemma {:induction false} CountTwo(s: seq<u16>, i: nat, j: nat, x: nat)
    requires i < j < |s| && s[i] == x && s[j] == x
    ensures Count(s, x) >= 2
  {
    var n := |s| - 1;
    if j < n { CountTwo(s[..n], i, j, x); } else { CountOne(s[..n], i, x); }
  }

  lemma {:induction false} CountOne(s: seq<u16>, i: nat, x: nat)
    requires i < |s| && s[i] == x
    ensures Count(s, x) >= 1
  {
    var n := |s| - 1;
    if i < n { CountOne(s[..n], i, x); }
  }

  /** Every table of this length is served exactly in a turn from cursor c. */
  ghost predicate ServesExactly(c: u32, size: nat) {
    forall table: seq<u16>, i: nat :: 0 < |table| == size ==> Count(Picks(table, c, size), i) == Count(table, i)
  }

  /** A turn gives every backend exactly its slots, whatever the table of that length, if and only if the 32-bit
      cursor does not wrap inside it or wraps at a multiple of the length. */
  lemma FullTurnIff(c: u32, size: nat)
    requires 0 < size <= WRAP32
    ensures ServesExactly(c, size) <==> c + size <= WRAP32 || Divides(size, WRAP32)
  {
    hide Divides;
    hide Count;
    hide Picks;
    if c + size <= WRAP32 || Divides(size, WRAP32) {
      forall table: seq<u16>, i: nat | |table| == size ensures Count(Picks(table, c, size), i) == Count(table, i) {
        FullTurn(table, c, i);
      }
    } else {
      var i, j := WrapRepeats(c, size);
      var table := Marked(size, Position(c, i, size));
      MarkedOnce(size, Position(c, i, size));
      PicksAt(table, c, size, i);
      PicksAt(table, c, size, j);
      CountTwo(Picks(table, c, size), i, j, 1);
    }
  }

  /** For example, three backends and the last cursor before the wrap: the first is picked twice, the last not at all. */
  lemma WrapCanRepeat()
    ensures Picks([0, 1, 2], 0xFFFF_FFFF, 3) == [0, 0, 1]
  {
    var t: seq<u16>, p := [0, 1, 2], Picks([0, 1, 2], 0xFFFF_FFFF, 3);
    PicksAt(t, 0xFFFF_FFFF, 3, 0);
    PicksAt(t, 0xFFFF_FFFF, 3, 1);
    PicksAt(t, 0xFFFF_FFFF, 3, 2);
  }

  /** Two workers start at the same slot exactly when the table's length divides the distance of their cursors. */
  lemma StartSlotsMeetIff(i: nat, j: nat, size: nat)
    requires i <= j && j * CURSOR_STRIDE < WRAP32 && size > 0
    ensures i * CURSOR_STRIDE % WRAP32 % size == j * CURSOR_STRIDE % WRAP32 % size
            <==> Divides(size, (j - i) * CURSOR_STRIDE)
  {
    var a, b := i * CURSOR_STRIDE, j * CURSOR_STRIDE;
    assert a % WRAP32 == a && b % WRAP32 == b;
    hide Divides;
    SameRemainderIff(a, b, size);
  }

  lemma SameRemainderIff(a: nat, b: nat, size: nat)
    requires a <= b && size > 0
    ensures a % size == b % size <==> Divides(size, b - a)
  {
    var q1, r1, q2, r2 := a / size, a % size, b / size, b % size;
    assert a == size * q1 + r1 && b == size * q2 + r2;
    NonNegativeQuotient(a, size);
    if r1 == r2 {
      NonNegativeFactor(size, q2 - q1);
      var n: nat := q2 - q1;
      assert b - a == Times(n, size);
    }
    if Divides(size, b - a) {
      var n: nat :| b - a == Times(n, size);
      Remainder(b, size, q1 + n, r1);
    }
  }

  lemma NonNegativeFactor(size: nat, x: int)
    requires size > 0 && size * x >= 0
    ensures x >= 0
  {
    if x < 0 { AtLeast(-x, size); }
  }

  lemma NonNegativeQuotient(a: nat, size: nat)
    requires size > 0
    ensures a / size >= 0
  {
  }

  /** In weighted round robin a worker's turn serves every backend exactly as often as its weight says. */
  lemma TurnIsExact(table: seq<u16>, weights: seq<nat>, c: u32, i: nat)
    requires SomePositive(weights) && Serves(RoundRobin, table, weights) && i < |weights|
    ensures Count(table, i) == Effective(weights)[i]
    ensures c + |table| <= WRAP32 || Divides(|table|, WRAP32) ==>
      Count(Picks(table, c, |table|), i) == Effective(weights)[i]
  {
    EffectiveMembers(table, weights);
    SmoothIsExact(table, Effective(weights));
    if c + |table| <= WRAP32 || Divides(|table|, WRAP32) { FullTurn(table, c, i); }
  }
}
