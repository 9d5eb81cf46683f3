/** Smooth weighted round robin, unrolled into a table. Every prefix of the table gives each backend its share
    to within one pick, and the whole table gives it exactly. */
module Wrr {
  import opened Types

  const WRR_MAX_SEQ := 4096

  // ---------------------------------------------------------------------------------------------
  // Sums and counts
  // ---------------------------------------------------------------------------------------------

  function Sum(s: seq<int>): int {
    if s == [] then 0 else Sum(s[..|s| - 1]) + s[|s| - 1]
  }

  function Count(table: seq<u16>, i: nat): nat {
    if table == [] then 0
    else Count(table[..|table| - 1], i) + if table[|table| - 1] == i then 1 else 0
  }

  lemma {:induction false} SumUpdate(s: seq<int>, i: nat, x: int)
    requires i < |s|
    ensures Sum(s[i := x]) == Sum(s) - s[i] + x
  {
    var n := |s| - 1;
    if i == n {
      assert s[i := x][..n] == s[..n];
    } else {
      assert s[i := x][..n] == s[..n][i := x];
      SumUpdate(s[..n], i, x);
    }
  }

  lemma {:induction false} SumAdd(a: seq<int>, b: seq<int>, c: seq<int>)
    requires |a| == |b| == |c| && forall i: nat :: i < |a| ==> c[i] == a[i] + b[i]
    ensures Sum(c) == Sum(a) + Sum(b)
  {
    if a != [] { SumAdd(a[..|a| - 1], b[..|a| - 1], c[..|a| - 1]); }
  }

  lemma {:induction false} PositiveTerm(s: seq<int>) returns (i: nat)
    requires Sum(s) > 0
    ensures i < |s| && s[i] > 0
  {
    var n := |s| - 1;
    if s[n] > 0 { i := n; } else { i := PositiveTerm(s[..n]); }
  }

  lemma {:induction false} SumPositive(s: seq<int>, i: nat)
    requires i < |s| && s[i] > 0 && forall j: nat :: j < |s| ==> s[j] >= 0
    ensures Sum(s) > 0
  {
    var n := |s| - 1;
    if i == n { SumNonNegative(s[..n]); } else { SumPositive(s[..n], i); }
  }

  lemma {:induction false} SumNonNegative(s: seq<int>)
    requires forall j: nat :: j < |s| ==> s[j] >= 0
    ensures Sum(s) >= 0
  {
    if s != [] { SumNonNegative(s[..|s| - 1]); }
  }

  // ---------------------------------------------------------------------------------------------
  // Weights in lowest terms
  // ---------------------------------------------------------------------------------------------

  function Times(a: nat, b: nat): nat { a * b }

  ghost predicate Divides(d: nat, x: nat) {
    exists q: nat :: x == Times(q, d)
  }

  function Gcd(a: nat, b: nat): nat
    decreases b
  {
    if b == 0 then a else Gcd(b, a % b)
  }

  lemma {:induction false} GcdDivides(a: nat, b: nat)
    ensures Divides(Gcd(a, b), a) && Divides(Gcd(a, b), b) && (a + b > 0 ==> Gcd(a, b) > 0)
    decreases b
  {
    var g := Gcd(a, b);
    if b == 0 {
      assert a == Times(1, g) && b == Times(0, g);
    } else {
      GcdDivides(b, a % b);
      var p: nat :| b == Times(p, g);
      var q: nat :| a % b == Times(q, g);
      Recombine(a, b, p, g, q);
    }
  }

  lemma Recombine(a: nat, b: nat, p: nat, g: nat, q: nat)
    requires b > 0 && b == Times(p, g) && a % b == Times(q, g)
    ensures Divides(g, a)
  {
    var k := a / b;
    assert a == b * k + a % b;
    Distribute(k, p, g, q);
    assert a == Times(k * p + q, g);
  }

  lemma Distribute(k: nat, p: nat, g: nat, q: nat)
    ensures (k * p + q) * g == k * (p * g) + q * g
  {
  }

  lemma {:induction false} GcdGreatest(a: nat, b: nat, d: nat)
    requires Divides(d, a) && Divides(d, b) && d > 0
    ensures Divides(d, Gcd(a, b))
    decreases b
  {
    if b > 0 {
      var p: nat :| a == Times(p, d);
      var q: nat :| b == Times(q, d);
      var k := a / b;
      assert a % b == (p - k * q) * d by { Distribute(k, q, d, 0); }
      assert p - k * q >= 0 by { if p - k * q < 0 { NegativeProduct(p - k * q, d); assert false; } }
      assert a % b == Times(p - k * q, d);
      GcdGreatest(b, a % b, d);
    }
  }

  lemma NegativeProduct(x: int, d: nat)
    requires x < 0 && d > 0
    ensures x * d < 0
  {
  }

  /** The greatest common divisor of all weights, folded from the left starting at zero. */
  function GcdAll(s: seq<nat>): nat {
    if s == [] then 0 else Gcd(GcdAll(s[..|s| - 1]), s[|s| - 1])
  }

  lemma {:induction false} GcdAllDivides(s: seq<nat>, i: nat)
    requires i < |s|
    ensures Divides(GcdAll(s), s[i]) && (s[i] > 0 ==> GcdAll(s) > 0)
  {
    var n := |s| - 1;
    GcdDivides(GcdAll(s[..n]), s[n]);
    if i < n {
      GcdAllDivides(s[..n], i);
      Transitive(GcdAll(s), GcdAll(s[..n]), s[i]);
    }
  }

  lemma Transitive(a: nat, b: nat, c: nat)
    requires Divides(a, b) && Divides(b, c)
    ensures Divides(a, c)
  {
    var p: nat :| b == Times(p, a);
    var q: nat :| c == Times(q, b);
    assert c == Times(q * p, a) by { Distribute(q, p, a, 0); }
  }

  lemma {:induction false} GcdAllGreatest(s: seq<nat>, d: nat)
    requires d > 0 && forall i: nat :: i < |s| ==> Divides(d, s[i])
    ensures Divides(d, GcdAll(s))
  {
    if s == [] {
      assert 0 == Times(0, d);
    } else {
      GcdAllGreatest(s[..|s| - 1], d);
      GcdGreatest(GcdAll(s[..|s| - 1]), s[|s| - 1], d);
    }
  }

  predicate SomePositive(s: seq<nat>) {
    exists i: nat :: i < |s| && s[i] > 0
  }

  lemma GcdPositive(s: seq<nat>)
    requires SomePositive(s)
    ensures GcdAll(s) > 0
  {
    var i: nat :| i < |s| && s[i] > 0;
    GcdAllDivides(s, i);
  }

  function Quotient(x: nat, d: nat): nat
    requires d > 0
  {
    x / d
  }

  function Reduced(s: seq<nat>): (r: seq<nat>)
    requires SomePositive(s)
    ensures |r| == |s|
  {
    GcdPositive(s);
    seq(|s|, i requires 0 <= i < |s| => Quotient(s[i], GcdAll(s)))
  }

  function ScaleDown(x: nat, total: nat): nat
    requires total > 0
  {
    if x == 0 then 0 else if x * WRR_MAX_SEQ / total < 1 then 1 else x * WRR_MAX_SEQ / total
  }

  /** The weights the table is built for: lowest terms, and scaled down when that is still too long. */
  function Effective(s: seq<nat>): (w: seq<nat>)
    requires SomePositive(s)
    ensures |w| == |s|
  {
    var r := Reduced(s);
    if Sum(r) <= WRR_MAX_SEQ then r else seq(|r|, i requires 0 <= i < |r| => ScaleDown(r[i], Sum(r)))
  }

  /** Reduction is exact and leaves no common factor. */
  lemma ReducedExact(s: seq<nat>, i: nat)
    requires SomePositive(s) && i < |s|
    ensures Reduced(s)[i] * GcdAll(s) == s[i] && (Reduced(s)[i] > 0 <==> s[i] > 0)
  {
    GcdPositive(s);
    GcdAllDivides(s, i);
    var q: nat :| s[i] == Times(q, GcdAll(s));
    QuotientUnique(s[i], GcdAll(s), q);
  }

  lemma QuotientUnique(x: nat, d: nat, q: nat)
    requires d > 0 && x == q * d
    ensures x / d == q
  {
    var y, r := x / d, x % d;
    assert x == d * y + r;
    assert r == (q - y) * d;
    if y < q { AtLeast(q - y, d); } else if y > q { AtLeast(y - q, d); }
  }

  lemma AtLeast(k: int, d: nat)
    requires k >= 1
    ensures k * d >= d
  {
  }

  lemma ReducedLowest(s: seq<nat>, d: nat)
    requires SomePositive(s) && d > 0 && forall i: nat :: i < |s| ==> Divides(d, Reduced(s)[i])
    ensures d == 1
  {
    var g := GcdAll(s);
    GcdPositive(s);
    forall i: nat | i < |s| ensures Divides(d * g, s[i]) {
      var q: nat :| Reduced(s)[i] == Times(q, d);
      ReducedExact(s, i);
      assert s[i] == Times(q, d * g) by { Distribute(q, d, g, 0); }
    }
    GcdAllGreatest(s, d * g);
    var q: nat :| g == Times(q, d * g);
    if q == 0 || d > 1 { Bigger(q, d, g); assert false; }
  }

  lemma Bigger(q: nat, d: nat, g: nat)
    requires g > 0 && d > 0 && (q == 0 || d > 1)
    ensures g != q * (d * g)
  {
    if q > 0 { assert q * (d * g) >= d * g >= 2 * g; }
  }

  /** A backend takes part exactly when its weight is positive. */
  lemma EffectivePositive(s: seq<nat>, i: nat)
    requires SomePositive(s) && i < |s|
    ensures Effective(s)[i] > 0 <==> s[i] > 0
  {
    ReducedExact(s, i);
    hide GcdAll;
    hide Reduced;
    hide Sum;
  }

  lemma EffectiveTotal(s: seq<nat>)
    requires SomePositive(s)
    ensures Sum(Effective(s)) > 0
  {
    var i: nat :| i < |s| && s[i] > 0;
    EffectivePositive(s, i);
    SumPositive(Effective(s), i);
  }

  /** How many weights rounding down would turn into zero. */
  function Raised(r: seq<nat>, total: nat): (n: nat)
    ensures n <= |r|
  {
    if r == [] then 0
    else
      var m := |r| - 1;
      Raised(r[..m], total) + if 0 < r[m] && r[m] * WRR_MAX_SEQ < total then 1 else 0
  }

  /** What rounding down cuts off, in units of 1 / total of a slot. */
  function CutOff(r: seq<nat>, total: nat): nat
    requires total > 0
  {
    if r == [] then 0
    else
      var m := |r| - 1;
      CutOff(r[..m], total) + Residue(r[m] * WRR_MAX_SEQ, total)
  }

  function Residue(x: nat, d: nat): nat
    requires d > 0
  {
    x % d
  }

  /** The sum of the scaled weights, exactly: the cap, less what is cut off, plus a slot for each raised weight. */
  lemma {:induction false} ScaledSum(r: seq<nat>, w: seq<nat>, total: nat)
    requires total > 0 && |w| == |r| && forall i: nat :: i < |r| ==> w[i] == ScaleDown(r[i], total)
    ensures Sum(w) * total + CutOff(r, total) == Sum(r) * WRR_MAX_SEQ + Raised(r, total) * total
  {
    if r != [] {
      var n := |r| - 1;
      ScaledSum(r[..n], w[..n], total);
      ScaledTerm(r[n], total);
      var up := if 0 < r[n] && r[n] * WRR_MAX_SEQ < total then 1 else 0;
      ScaledAdd(Sum(w[..n]), w[n], CutOff(r[..n], total), Residue(r[n] * WRR_MAX_SEQ, total), Sum(r[..n]), r[n],
                Raised(r[..n], total), up, total);
    }
  }

  lemma ScaledAdd(a: int, x: int, c: int, m: int, b: int, y: int, n: int, up: int, total: nat)
    requires a * total + c == b * WRR_MAX_SEQ + n * total && x * total + m == y * WRR_MAX_SEQ + up * total
    ensures (a + x) * total + (c + m) == (b + y) * WRR_MAX_SEQ + (n + up) * total
  {
  }

  /** One weight: rounded down, or raised to the one slot every backend keeps. */
  lemma ScaledTerm(x: nat, total: nat)
    requires total > 0
    ensures ScaleDown(x, total) * total + Residue(x * WRR_MAX_SEQ, total)
            == x * WRR_MAX_SEQ + if 0 < x && x * WRR_MAX_SEQ < total then total else 0
  {
    var y := x * WRR_MAX_SEQ;
    var q, m := y / total, y % total;
    assert y == total * q + m && 0 <= m < total;
    if y < total { QuotientBelow(y, total); } else { QuotientAbove(y, total, q, m); }
  }

  lemma QuotientBelow(y: nat, total: nat)
    requires y < total
    ensures y / total == 0 && y % total == y
  {
  }

  lemma QuotientAbove(y: nat, total: nat, q: int, m: int)
    requires 0 < total <= y && y == total * q + m && 0 <= m < total
    ensures q >= 1
  {
    if q < 0 { AtLeast(-q, total); }
  }

  /** The documented cap of 4096 slots is kept if and only if the reduced weights need no scaling, or what rounding
      down cuts off makes room for every weight raised to one slot. */
  lemma CapIsKeptIff(s: seq<nat>)
    requires SomePositive(s)
    ensures var r := Reduced(s);
            Sum(Effective(s)) <= WRR_MAX_SEQ
            <==> Sum(r) <= WRR_MAX_SEQ || Raised(r, Sum(r)) * Sum(r) <= CutOff(r, Sum(r))
  {
    var r := Reduced(s);
    if Sum(r) > WRR_MAX_SEQ {
      ScaledSum(r, Effective(s), Sum(r));
      CancelCap(Sum(Effective(s)), Sum(r), Raised(r, Sum(r)), CutOff(r, Sum(r)));
    }
  }

  lemma CancelCap(a: int, total: nat, n: nat, cut: nat)
    requires total > 0 && a * total + cut == total * WRR_MAX_SEQ + n * total
    ensures a <= WRR_MAX_SEQ <==> n * total <= cut
  {
    if a > WRR_MAX_SEQ {
      AtLeast(a - WRR_MAX_SEQ, total);
    } else {
      assert a * total <= WRR_MAX_SEQ * total;
    }
  }

  /** Whatever the weights, raising adds at most one slot per backend to the cap. */
  lemma EffectiveLength(s: seq<nat>)
    requires SomePositive(s)
    ensures Sum(Effective(s)) <= WRR_MAX_SEQ + |s|
  {
    var r := Reduced(s);
    if Sum(r) > WRR_MAX_SEQ {
      ScaledSum(r, Effective(s), Sum(r));
      CancelTotal(Sum(Effective(s)), Sum(r), Raised(r, Sum(r)), CutOff(r, Sum(r)));
    }
  }

  lemma CancelTotal(a: int, total: nat, n: nat, cut: nat)
    requires total > 0 && a * total + cut == total * WRR_MAX_SEQ + n * total
    ensures a <= WRR_MAX_SEQ + n
  {
    if a > WRR_MAX_SEQ + n { AtLeast(a - WRR_MAX_SEQ - n, total); }
  }

  /** The cap itself is not kept: a heavy backend next to two light ones takes 4097 slots. */
  lemma EffectiveCanExceedCap()
    ensures SomePositive([65535, 1, 1]) && Sum(Effective([65535, 1, 1])) == WRR_MAX_SEQ + 1
  {
    var s: seq<nat> := [65535, 1, 1];
    assert s[1] > 0;
    GcdAllDivides(s, 1);
    var q: nat :| 1 == Times(q, GcdAll(s));
    if GcdAll(s) > 1 { UnitFactor(q, GcdAll(s)); }
    var r := Reduced(s);
    assert r == s;
    SumOfThree(r);
    SumOfThree(Effective(s));
  }

  lemma UnitFactor(q: nat, g: nat)
    requires q * g == 1
    ensures g == 1
  {
    if q > 0 && g > 1 { AtLeast(q, g); }
  }

  lemma SumOfThree(s: seq<int>)
    requires |s| == 3
    ensures Sum(s) == s[0] + s[1] + s[2]
  {
    assert s[..2][..1] == s[..1] && s[..1][..0] == [];
    assert Sum(s[..1]) == s[0];
    assert Sum(s[..2]) == Sum(s[..1]) + s[1];
  }

  // ---------------------------------------------------------------------------------------------
  // The table
  // ---------------------------------------------------------------------------------------------

  /** Backend i is ahead of its share of the first n picks by less than one. */
  ghost predicate Ahead(table: seq<u16>, w: seq<nat>, n: nat, i: nat)
    requires n <= |table| && i < |w|
  {
    Sum(w) * Count(table[..n], i) < n * w[i] + Sum(w)
  }

  ghost predicate Smooth(table: seq<u16>, w: seq<nat>) {
    forall n: nat, i: nat :: n <= |table| && i < |w| ==> Ahead(table, w, n, i)
  }

  ghost predicate Members(table: seq<u16>, w: seq<nat>) {
    forall n: nat :: n < |table| ==> table[n] < |w| && w[table[n]] > 0
  }

  function Owed(n: nat, wi: nat, total: int, picks: nat): int {
    n * wi - total * picks
  }

  /** What the counters hold after some rounds: share owed minus share given, and never a whole round behind. */
  ghost predicate Balance(cur: seq<int>, table: seq<u16>, w: seq<nat>) {
    && |cur| == |w| && Sum(cur) == 0
    && (forall i: nat :: i < |w| ==> cur[i] == Owed(|table|, w[i], Sum(w), Count(table, i)))
    && (forall i: nat :: i < |w| ==> cur[i] > -Sum(w))
  }

  /** The scan of one round: every counter has grown by its weight, and `best` leads among positive weights. */
  ghost predicate Scanned(cur: seq<int>, was: seq<int>, w: seq<nat>, i: nat, best: nat) {
    && |cur| == |was| == |w| && i <= |w| && (best < i || best == 0)
    && (forall j: nat :: j < |w| ==> cur[j] == was[j] + if j < i then w[j] else 0)
    && (best < |w| && w[best] == 0 ==> forall j: nat :: j < i ==> w[j] == 0)
    && (best < |w| && w[best] > 0 ==> forall j: nat :: j < i && w[j] > 0 ==> cur[j] <= cur[best])
  }

  lemma ShareOfZero(cur: seq<int>, table: seq<u16>, w: seq<nat>, i: nat)
    requires Balance(cur, table, w) && i < |w| && w[i] == 0 && Sum(w) > 0
    ensures cur[i] <= 0
  {
    assert Sum(w) * Count(table, i) >= 0;
  }

  /** The leader of a full scan is ahead of everyone, so it is above zero. */
  lemma LeaderPositive(cur: seq<int>, was: seq<int>, table: seq<u16>, w: seq<nat>, best: nat)
    requires Balance(was, table, w) && Scanned(cur, was, w, |w|, best) && Sum(w) > 0
    ensures best < |w| && w[best] > 0 && cur[best] > 0
  {
    SumAdd(was, w, cur);
    var j := PositiveTerm(cur);
    if w[j] == 0 {
      ShareOfZero(was, table, w, j);
      assert false;
    }
  }

  lemma BalanceStep(cur: seq<int>, was: seq<int>, table: seq<u16>, w: seq<nat>, best: u16)
    requires Balance(was, table, w) && Scanned(cur, was, w, |w|, best) && Sum(w) > 0
    requires best < |w| && cur[best] > 0
    ensures Balance(cur[best := cur[best] - Sum(w)], table + [best], w)
  {
    hide Sum;
    hide Owed;
    hide Count;
    var T := Sum(w);
    var next := cur[best := cur[best] - T];
    RoundSum(cur, was, w, best);
    forall i: nat | i < |w|
      ensures next[i] == Owed(|table| + 1, w[i], T, Count(table + [best], i)) && next[i] > -T
    {
      ShareStep(table, w[i], T, best, i, was[i]);
    }
  }

  lemma RoundSum(cur: seq<int>, was: seq<int>, w: seq<nat>, best: nat)
    requires |cur| == |was| == |w| && best < |w| && forall i: nat :: i < |w| ==> cur[i] == was[i] + w[i]
    ensures Sum(cur[best := cur[best] - Sum(w)]) == Sum(was)
  {
    hide Sum;
    SumAdd(was, w, cur);
    SumUpdate(cur, best, cur[best] - Sum(w));
  }

  lemma ShareStep(table: seq<u16>, wi: nat, T: int, best: u16, i: nat, x: int)
    requires x == Owed(|table|, wi, T, Count(table, i)) && x > -T && (i == best ==> x + wi > 0)
    ensures var x' := x + wi - if i == best then T else 0;
            x' == Owed(|table| + 1, wi, T, Count(table + [best], i)) && x' > -T
  {
    hide Count;
    hide Owed;
    OnePickMore(table, best, i);
    OwedStep(|table|, wi, T, Count(table, i), i == best);
  }

  lemma OnePickMore(table: seq<u16>, best: u16, i: nat)
    ensures Count(table + [best], i) == Count(table, i) + if best == i then 1 else 0
  {
    assert (table + [best])[..|table|] == table;
  }

  lemma OwedStep(n: nat, wi: nat, T: int, picks: nat, hit: bool)
    ensures Owed(n + 1, wi, T, picks + if hit then 1 else 0) == Owed(n, wi, T, picks) + wi - if hit then T else 0
  {
    assert (n + 1) * wi == n * wi + wi;
    if hit { assert T * (picks + 1) == T * picks + T; }
  }

  lemma SmoothStep(cur: seq<int>, table: seq<u16>, w: seq<nat>)
    requires Balance(cur, table, w) && |table| > 0 && Smooth(table[..|table| - 1], w)
    ensures Smooth(table, w)
  {
    var m := |table| - 1;
    hide Sum;
    hide Count;
    forall n: nat, i: nat | n <= |table| && i < |w| ensures Ahead(table, w, n, i) {
      if n == |table| {
        assert table[..n] == table;
      } else {
        assert Ahead(table[..m], w, n, i);
        assert table[..m][..n] == table[..n];
      }
    }
  }

  // ---------------------------------------------------------------------------------------------
  // Exact shares
  // ---------------------------------------------------------------------------------------------

  function Counts(table: seq<u16>, k: nat): (c: seq<int>)
    ensures |c| == k
  {
    seq(k, i requires 0 <= i < k => Count(table, i))
  }

  lemma {:induction false} CountsSum(table: seq<u16>, k: nat)
    requires forall n: nat :: n < |table| ==> table[n] < k
    ensures Sum(Counts(table, k)) == |table|
  {
    var c := Counts(table, k);
    if table == [] {
      Zeros(c);
    } else {
      var n := |table| - 1;
      CountsSum(table[..n], k);
      var b := Counts(table[..n], k);
      assert c == b[table[n] := b[table[n]] + 1];
      SumUpdate(b, table[n], b[table[n]] + 1);
    }
  }

  lemma {:induction false} Zeros(c: seq<int>)
    requires forall i: nat :: i < |c| ==> c[i] == 0
    ensures Sum(c) == 0
  {
    if c != [] { Zeros(c[..|c| - 1]); }
  }

  lemma {:induction false} SumTight(a: seq<int>, b: seq<int>)
    requires |a| == |b| && Sum(a) >= Sum(b) && forall i: nat :: i < |a| ==> a[i] <= b[i]
    ensures Sum(a) == Sum(b) && forall i: nat :: i < |a| ==> a[i] == b[i]
  {
    if a != [] {
      var n := |a| - 1;
      SumMonotone(a[..n], b[..n]);
      SumTight(a[..n], b[..n]);
    }
  }

  lemma {:induction false} SumMonotone(a: seq<int>, b: seq<int>)
    requires |a| == |b| && forall i: nat :: i < |a| ==> a[i] <= b[i]
    ensures Sum(a) <= Sum(b)
  {
    if a != [] { SumMonotone(a[..|a| - 1], b[..|a| - 1]); }
  }

  lemma BelowNext(T: nat, c: nat, x: nat)
    requires T * c < T * x + T
    ensures c <= x
  {
    if c > x { AtLeast(c - x, T); }
  }

  /** A smooth table as long as the weights' total is exact. */
  lemma SmoothIsExact(table: seq<u16>, w: seq<nat>)
    requires Smooth(table, w) && Members(table, w) && |table| == Sum(w)
    ensures forall i: nat :: i < |w| ==> Count(table, i) == w[i]
  {
    var c := Counts(table, |w|);
    forall i: nat | i < |w| ensures c[i] <= w[i] {
      assert Ahead(table, w, |table|, i);
      assert table[..|table|] == table;
      BelowNext(Sum(w), c[i], w[i]);
    }
    CountsSum(table, |w|);
    SumTight(c, w);
  }

  /** In a smooth table nobody falls further behind than all others together can be ahead. */
  lemma SmoothLag(table: seq<u16>, w: seq<nat>, n: nat, i: nat)
    requires Smooth(table, w) && Members(table, w) && n <= |table| && i < |w| && Sum(w) > 0
    ensures n * w[i] < Sum(w) * Count(table[..n], i) + |w| * Sum(w)
  {
    var T := Sum(w);
    var lag := seq(|w|, j requires 0 <= j < |w| => n * w[j] - T * Count(table[..n], j));
    CountsSum(table[..n], |w|);
    Linear(lag, n, w, T, Counts(table[..n], |w|));
    forall j: nat | j < |w| ensures lag[j] > -T { assert Ahead(table, w, n, j); }
    LagBound(lag, i, T);
  }

  lemma {:induction false} Linear(s: seq<int>, n: int, a: seq<int>, t: int, b: seq<int>)
    requires |s| == |a| == |b| && forall j: nat :: j < |s| ==> s[j] == n * a[j] - t * b[j]
    ensures Sum(s) == n * Sum(a) - t * Sum(b)
  {
    if s != [] {
      var m := |s| - 1;
      Linear(s[..m], n, a[..m], t, b[..m]);
      assert n * (Sum(a[..m]) + a[m]) == n * Sum(a[..m]) + n * a[m];
      assert t * (Sum(b[..m]) + b[m]) == t * Sum(b[..m]) + t * b[m];
    }
  }

  lemma {:induction false} LagBound(s: seq<int>, i: nat, T: nat)
    requires i < |s| && T > 0 && forall j: nat :: j < |s| ==> s[j] + T > 0
    ensures s[i] < Sum(s) + |s| * T
  {
    var m := |s| - 1;
    assert |s| * T == m * T + T;
    if i == m { SumAbove(s[..m], T); } else { LagBound(s[..m], i, T); }
  }

  lemma {:induction false} SumAbove(s: seq<int>, T: nat)
    requires T > 0 && forall j: nat :: j < |s| ==> s[j] + T > 0
    ensures Sum(s) >= -|s| * T
  {
    if s != [] {
      var m := |s| - 1;
      SumAbove(s[..m], T);
      assert -|s| * T == -m * T - T;
    }
  }

  // ---------------------------------------------------------------------------------------------
  // The construction
  // ---------------------------------------------------------------------------------------------

  method Prepare(weights: seq<nat>) returns (w: array<nat>, total: nat)
    requires SomePositive(weights)
    ensures fresh(w) && w[..] == Effective(weights) && total == Sum(w[..])
  {
    var n := |weights|;
    w := new nat[n];
    total := 0;
    var g := 0;
    for i := 0 to n
      invariant w[..i] == weights[..i] && total == Sum(weights[..i]) && g == GcdAll(weights[..i])
    {
      w[i] := weights[i];
      total := total + w[i];
      g := Gcd(g, w[i]);
      assert weights[..i + 1][..i] == weights[..i];
    }
    assert weights[..n] == weights;
    GcdPositive(weights);
    total := DivideAll(w, weights, g, total);
    if total > WRR_MAX_SEQ {
      total := ScaleAll(w, total);
    }
  }

  method DivideAll(w: array<nat>, weights: seq<nat>, g: nat, total: nat) returns (t: nat)
    requires SomePositive(weights) && w[..] == weights && g == GcdAll(weights) > 0 && total == Sum(weights)
    modifies w
    ensures w[..] == Reduced(weights) && t == Sum(w[..])
  {
    hide GcdAll;
    var r := Reduced(weights);
    for i := 0 to w.Length
      invariant forall j: nat :: j < w.Length ==> w[j] == if j < i then r[j] else weights[j]
    {
      w[i] := Quotient(w[i], g);
    }
    assert w[..] == r;
    t := Quotient(total, g);
    forall i: nat | i < |r| ensures r[i] * g == weights[i] { ReducedExact(weights, i); }
    SumScaled(r, weights, g);
    QuotientUnique(total, g, Sum(r));
  }

  lemma {:induction false} SumScaled(r: seq<nat>, s: seq<nat>, g: nat)
    requires |r| == |s| && forall i: nat :: i < |r| ==> r[i] * g == s[i]
    ensures Sum(r) * g == Sum(s) && Sum(r) >= 0
  {
    if r != [] {
      var n := |r| - 1;
      SumScaled(r[..n], s[..n], g);
      assert (Sum(r[..n]) + r[n]) * g == Sum(r[..n]) * g + r[n] * g;
    }
  }

  method ScaleAll(w: array<nat>, total: nat) returns (t: nat)
    requires total == Sum(w[..]) > 0
    modifies w
    ensures var r := old(w[..]);
            w[..] == seq(|r|, i requires 0 <= i < |r| => ScaleDown(r[i], total)) && t == Sum(w[..])
  {
    ghost var r := w[..];
    ghost var s := seq(|r|, i requires 0 <= i < |r| => ScaleDown(r[i], total));
    t := 0;
    for i := 0 to w.Length
      invariant forall j: nat :: j < w.Length ==> w[j] == if j < i then s[j] else r[j]
      invariant t == Sum(s[..i])
    {
      w[i] := ScaleDown(w[i], total);
      t := t + w[i];
      assert s[..i + 1][..i] == s[..i];
      SumNonNegative(s[..i + 1]);
    }
    assert w[..] == s && s[..|s|] == s;
  }

  /** One round: grow every counter, find the leader, charge it a full round. */
  method Round(w: array<nat>, cur: array<int>, total: nat, ghost table: seq<u16>) returns (best: u16)
    requires w.Length == cur.Length <= 0x1_0000 && total == Sum(w[..]) > 0
    requires Balance(cur[..], table, w[..])
    modifies cur
    ensures best < w.Length && w[best] > 0 && Balance(cur[..], table + [best], w[..])
  {
    hide Balance;
    ghost var was, ws := cur[..], w[..];
    var lead := 0;
    for i := 0 to w.Length
      invariant Scanned(cur[..], was, ws, i, lead)
      invariant w[..] == ws
    {
      cur[i] := cur[i] + w[i];
      if w[i] > 0 && (w[lead] == 0 || cur[i] > cur[lead]) {
        lead := i;
      }
    }
    LeaderPositive(cur[..], was, table, ws, lead);
    best := lead;
    BalanceStep(cur[..], was, table, ws, best);
    ghost var full := cur[..];
    cur[best] := cur[best] - total;
    assert cur[..] == full[best := full[best] - total];
  }

  /** The whole table for the given weights. */
  method Build(weights: seq<nat>) returns (table: seq<u16>)
    requires SomePositive(weights) && |weights| <= 0x1_0000
    ensures |table| == Sum(Effective(weights)) && Members(table, Effective(weights)) && Smooth(table, Effective(weights))
  {
    var w, total := Prepare(weights);
    EffectiveTotal(weights);
    var cur := new int[w.Length](_ => 0);
    table := [];
    Zeros(cur[..]);
    hide Effective;
    hide Sum;
    hide Count;
    ghost var ws := w[..];
    StartBalance(cur[..], ws);
    for n := 0 to total
      invariant w[..] == ws && |table| == n && Members(table, ws) && Smooth(table, ws)
      invariant Balance(cur[..], table, ws)
    {
      var best := Round(w, cur, total, table);
      ghost var before := table;
      table := table + [best];
      assert table[..n] == before;
      SmoothStep(cur[..], table, ws);
    }
  }

  lemma StartBalance(cur: seq<int>, w: seq<nat>)
    requires |cur| == |w| && Sum(cur) == 0 && Sum(w) > 0 && forall i: nat :: i < |w| ==> cur[i] == 0
    ensures Balance(cur, [], w) && Smooth([], w)
  {
  }
}
